/** The record resolver `getPokemonCore`: species names to display records,
    each built from the species' default variety. */
module Core {
  import opened Wrappers
  import opened Upstream

  /** The record the router hands out for one species. */
  datatype PokemonCore = PokemonCore(
    id: nat,
    name: string,
    generation: string,
    types: seq<string>,
    sprite: Option<string>,
    stats: seq<Stat>,
    abilities: seq<Ability>,
    height: int,
    weight: int)

  /** The pokemon of the first variety flagged default, if any. */
  function FirstDefault(vs: seq<Variety>): (r: Option<string>)
    ensures r.None? <==> forall i :: 0 <= i < |vs| ==> !vs[i].isDefault
    ensures r.Some? ==> exists i :: 0 <= i < |vs| && vs[i].isDefault && vs[i].pokemon == r.value
                                   && forall j :: 0 <= j < i ==> !vs[j].isDefault
  {
    if |vs| == 0 then None
    else if vs[0].isDefault then Some(vs[0].pokemon)
    else
      var r := FirstDefault(vs[1..]);
      assert forall i :: 1 <= i < |vs| ==> vs[i] == vs[1..][i - 1];
      r
  }

  /** The pokemon name of a species' default variety: the first flagged variety,
      otherwise the species' own name. */
  function DefaultVarietyName(sp: Species): (n: string)
    ensures (forall i :: 0 <= i < |sp.varieties| ==> !sp.varieties[i].isDefault) ==> n == sp.name
    ensures forall i :: 0 <= i < |sp.varieties| && sp.varieties[i].isDefault
                        && (forall j :: 0 <= j < i ==> !sp.varieties[j].isDefault)
                        ==> n == sp.varieties[i].pokemon
  {
    FirstDefault(sp.varieties).GetOr(sp.name)
  }

  /** The picture of a record: the first present of official artwork, dream-world
      art and the default front sprite. */
  function PickSprite(s: Sprites): (r: Option<string>)
    ensures r.None? <==> s.officialArtwork.None? && s.dreamWorld.None? && s.frontDefault.None?
    ensures s.officialArtwork.Some? ==> r == s.officialArtwork
    ensures s.officialArtwork.None? && s.dreamWorld.Some? ==> r == s.dreamWorld
    ensures s.officialArtwork.None? && s.dreamWorld.None? ==> r == s.frontDefault
  {
    if s.officialArtwork.Some? then s.officialArtwork
    else if s.dreamWorld.Some? then s.dreamWorld
    else s.frontDefault
  }

  function GenerationLabel(sp: Species): string {
    sp.generation.GetOr("unknown")
  }

  /** One record: generation from the species, everything else from its default pokemon. */
  function BuildCore(sp: Species, pk: Pokemon): PokemonCore {
    PokemonCore(pk.id, pk.name, GenerationLabel(sp), pk.types, PickSprite(pk.sprites),
                pk.stats, pk.abilities, pk.height, pk.weight)
  }

  /** Both lookups for `name` succeed: the species, then its default variety. */
  predicate Resolvable(api: Api, name: string) {
    name in api.species && DefaultVarietyName(api.species[name]) in api.pokemon
  }

  /** `c` is the record of species `name`: its generation (or "unknown") and the
      id, name, types, picture, stats, abilities and size of its default variety. */
  predicate Describes(api: Api, name: string, c: PokemonCore)
    requires Resolvable(api, name)
  {
    var sp := api.species[name];
    var pk := api.pokemon[DefaultVarietyName(sp)];
    && c.generation == (if sp.generation.Some? then sp.generation.value else "unknown")
    && c.id == pk.id && c.name == pk.name && c.types == pk.types
    && c.sprite == PickSprite(pk.sprites)
    && c.stats == pk.stats && c.abilities == pk.abilities
    && c.height == pk.height && c.weight == pk.weight
  }

  /** `getPokemonCore(names)`: one record per name, in input order; the whole
      call rejects when any species or default variety is missing. */
  function GetPokemonCore(api: Api, names: seq<string>): (r: Result<seq<PokemonCore>, Error>)
    ensures |names| == 0 ==> r == Success([])
    ensures r.Success? <==> forall i :: 0 <= i < |names| ==> Resolvable(api, names[i])
    ensures r.Success? ==> |r.value| == |names|
    ensures r.Success? ==> forall i :: 0 <= i < |names| ==> Describes(api, names[i], r.value[i])
  {
    if |names| == 0 then Success([])
    else
      var speciesArr :- FetchSpecies(api, names);
      var defaults := seq(|speciesArr|, i requires 0 <= i < |speciesArr| => DefaultVarietyName(speciesArr[i]));
      var pokemons :- FetchPokemon(api, defaults);
      Success(seq(|pokemons|, i requires 0 <= i < |pokemons| => BuildCore(speciesArr[i], pokemons[i])))
  }
}
