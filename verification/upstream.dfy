/** The upstream catalog, as far as the router reads it. The remote client is
    replaced by one immutable snapshot: every by-name or by-id lookup is a map,
    and a key the map lacks is the lookup's rejection (not found, or the request
    failed). */
module Upstream {
  import opened Wrappers

  datatype Error =
    | SpeciesNotFound(name: string)
    | PokemonNotFound(name: string)
    | TypeNotFound(name: string)
    | GenerationNotFound(name: string)
    | ChainNotFound(id: nat)

  /** An entry of a list endpoint: a name and the URL of its resource. */
  datatype NamedResource = NamedResource(name: string, url: string)

  /** One form of a species; exactly one is normally flagged default. */
  datatype Variety = Variety(isDefault: bool, pokemon: string)

  /** A species record. Absent optional fields are `None`; an absent variety list is empty. */
  datatype Species = Species(
    name: string,
    generation: Option<string>,
    varieties: seq<Variety>,
    evolutionChainUrl: Option<string>,
    url: Option<string>)

  /** The three candidate pictures of a pokemon, in the order the router prefers them. */
  datatype Sprites = Sprites(
    officialArtwork: Option<string>,
    dreamWorld: Option<string>,
    frontDefault: Option<string>)

  datatype Stat = Stat(name: string, base: int)

  datatype Ability = Ability(name: string, isHidden: bool)

  /** A pokemon (one variety of a species). Type, stat and ability slots are
      given by the names the router keeps from them. */
  datatype Pokemon = Pokemon(
    id: nat,
    name: string,
    species: string,
    types: seq<string>,
    sprites: Sprites,
    stats: seq<Stat>,
    abilities: seq<Ability>,
    height: int,
    weight: int)

  /** A node of an evolution tree: a species and the species it evolves into. */
  datatype ChainNode = ChainNode(species: string, evolvesTo: seq<ChainNode>)

  datatype EvolutionChain = EvolutionChain(chain: Option<ChainNode>)

  /** A type resource: the names of the pokemon (all forms) that have the type. */
  datatype TypeResource = TypeResource(pokemon: seq<string>)

  /** A generation resource: the names of the species it introduced. */
  datatype Generation = Generation(pokemonSpecies: seq<string>)

  datatype Api = Api(
    species: map<string, Species>,
    pokemon: map<string, Pokemon>,
    types: map<string, TypeResource>,
    generations: map<string, Generation>,
    chains: map<nat, EvolutionChain>,
    speciesList: seq<NamedResource>,
    typesList: seq<NamedResource>,
    generationsList: seq<NamedResource>)

  /** A batch lookup: all values in key order, or the first key that is missing. */
  function LookupAll<K, V>(m: map<K, V>, keys: seq<K>): (r: Result<seq<V>, K>)
    ensures r.Success? <==> forall i :: 0 <= i < |keys| ==> keys[i] in m
    ensures r.Success? ==> |r.value| == |keys| && forall i :: 0 <= i < |keys| ==> r.value[i] == m[keys[i]]
    ensures r.Failure? ==> r.error in keys && r.error !in m
  {
    if |keys| == 0 then Success([])
    else if keys[0] !in m then Failure(keys[0])
    else
      match LookupAll(m, keys[1..])
      case Failure(k) => Failure(k)
      case Success(vs) => Success([m[keys[0]]] + vs)
  }

  /** `getPokemonSpeciesByName(names)`: rejects if any name is unknown. */
  function FetchSpecies(api: Api, names: seq<string>): (r: Result<seq<Species>, Error>)
    ensures r.Success? <==> forall i :: 0 <= i < |names| ==> names[i] in api.species
    ensures r.Success? ==> |r.value| == |names| && forall i :: 0 <= i < |names| ==> r.value[i] == api.species[names[i]]
  {
    match LookupAll(api.species, names)
    case Success(vs) => Success(vs)
    case Failure(k) => Failure(SpeciesNotFound(k))
  }

  /** `getPokemonByName(names)`: rejects if any name is unknown. */
  function FetchPokemon(api: Api, names: seq<string>): (r: Result<seq<Pokemon>, Error>)
    ensures r.Success? <==> forall i :: 0 <= i < |names| ==> names[i] in api.pokemon
    ensures r.Success? ==> |r.value| == |names| && forall i :: 0 <= i < |names| ==> r.value[i] == api.pokemon[names[i]]
  {
    match LookupAll(api.pokemon, names)
    case Success(vs) => Success(vs)
    case Failure(k) => Failure(PokemonNotFound(k))
  }

  /** `getEvolutionChainById(ids)`: rejects if any id is unknown. */
  function FetchChains(api: Api, ids: seq<nat>): (r: Result<seq<EvolutionChain>, Error>)
    ensures r.Success? <==> forall i :: 0 <= i < |ids| ==> ids[i] in api.chains
    ensures r.Success? ==> |r.value| == |ids| && forall i :: 0 <= i < |ids| ==> r.value[i] == api.chains[ids[i]]
  {
    match LookupAll(api.chains, ids)
    case Success(vs) => Success(vs)
    case Failure(k) => Failure(ChainNotFound(k))
  }
}
