/** The facet engine behind the `list` query: the species index, one candidate
    set per facet (type, generation, search), their intersection, and the final
    ordering by species id. Candidate sets are duplicate-free sequences in the
    insertion order of the JavaScript `Set`s they stand for. */
module Facets {
  import opened Wrappers
  import opened Seqs
  import opened Sorting
  import opened Text
  import opened Upstream
  import opened Core
  import opened Evolution

  /** `Number.MAX_SAFE_INTEGER`, the id given to names missing from the index. */
  const MaxSafeInteger: nat := 9007199254740991

  // ----------------------------------------------------------- species index

  /** No later entry of `list` has the same name as entry `i`. */
  predicate LastOccurrence(list: seq<NamedResource>, i: int)
    requires 0 <= i < |list|
  {
    forall j :: i < j < |list| ==> list[j].name != list[i].name
  }

  /** The name-to-id map built from the full species list: `Map.set` for every
      entry in order, storing `undefined` (here: no id) when the URL carries none. */
  function IndexIds(list: seq<NamedResource>): (ids: map<string, nat>)
    ensures forall n :: n in ids ==> exists i :: 0 <= i < |list| && list[i].name == n
  {
    if |list| == 0 then map[]
    else
      var prev := IndexIds(list[..|list| - 1]);
      var last := list[|list| - 1];
      assert forall i :: 0 <= i < |list| - 1 ==> list[..|list| - 1][i] == list[i];
      match ParseIdFromUrl(last.url)
      case Some(id) => prev[last.name := id]
      case None => prev - {last.name}
  }

  /** The last entry for a name decides: the name has an id exactly when that
      entry's URL carries one, and then it is that id. */
  lemma {:induction false} IndexIdsLastWins(list: seq<NamedResource>, i: int)
    requires 0 <= i < |list| && LastOccurrence(list, i)
    ensures list[i].name in IndexIds(list) <==> ParseIdFromUrl(list[i].url).Some?
    ensures list[i].name in IndexIds(list) ==> IndexIds(list)[list[i].name] == ParseIdFromUrl(list[i].url).value
  {
    var init := list[..|list| - 1];
    if i < |list| - 1 {
      assert init[i] == list[i];
      assert forall j :: i < j < |init| ==> init[j] == list[j];
      assert list[|list| - 1].name != list[i].name;
      IndexIdsLastWins(init, i);
    }
  }

  /** The cached species index: every species name in list order, and their ids. */
  datatype SpeciesIndex = SpeciesIndex(names: seq<string>, ids: map<string, nat>)

  function BuildSpeciesIndex(list: seq<NamedResource>): SpeciesIndex {
    SpeciesIndex(seq(|list|, i requires 0 <= i < |list| => list[i].name), IndexIds(list))
  }

  /** `speciesIndex.get(s) ?? Number.MAX_SAFE_INTEGER` */
  function SpeciesId(ix: SpeciesIndex, s: string): nat {
    if s in ix.ids then ix.ids[s] else MaxSafeInteger
  }

  predicate IdsBelowSentinel(ix: SpeciesIndex) {
    forall n :: n in ix.ids ==> ix.ids[n] < MaxSafeInteger
  }

  // ---------------------------------------------------------- facet: type

  /** Species `k` exists and its default variety has type `typeName`. */
  predicate TypedByDefault(api: Api, typeName: string, k: string) {
    && k in api.species
    && DefaultVarietyName(api.species[k]) in api.pokemon
    && typeName in api.pokemon[DefaultVarietyName(api.species[k])].types
  }

  /** The species of the pokemon a type lists, each once. */
  function ListedSpecies(api: Api, t: TypeResource): (r: Result<seq<string>, Error>)
    ensures r.Success? <==> forall i :: 0 <= i < |t.pokemon| ==> t.pokemon[i] in api.pokemon
    ensures r.Success? ==> NoDuplicates(r.value)
    ensures r.Success? ==> forall x :: x in r.value <==>
              exists i :: 0 <= i < |t.pokemon| && api.pokemon[t.pokemon[i]].species == x
  {
    var listed :- FetchPokemon(api, t.pokemon);
    var names := seq(|listed|, i requires 0 <= i < |listed| => listed[i].species);
    assert forall x :: x in names <==> exists i :: 0 <= i < |t.pokemon| && api.pokemon[t.pokemon[i]].species == x by {
      forall x ensures x in names ==> exists i :: 0 <= i < |t.pokemon| && api.pokemon[t.pokemon[i]].species == x {
        if x in names {
          var i :| 0 <= i < |names| && names[i] == x;
          assert api.pokemon[t.pokemon[i]].species == x;
        }
      }
      forall x ensures (exists i :: 0 <= i < |t.pokemon| && api.pokemon[t.pokemon[i]].species == x) ==> x in names {
        if exists i :: 0 <= i < |t.pokemon| && api.pokemon[t.pokemon[i]].species == x {
          var i :| 0 <= i < |t.pokemon| && api.pokemon[t.pokemon[i]].species == x;
          assert names[i] == x;
        }
      }
    }
    Success(Dedup(names))
  }

  /** The names of the species whose default pokemon (at the same position) has the type. */
  function KeepDefaultTyped(speciesArr: seq<Species>, defaults: seq<Pokemon>, typeName: string): (r: seq<string>)
    requires |speciesArr| == |defaults|
    ensures forall x :: x in r <==>
              exists i :: 0 <= i < |speciesArr| && speciesArr[i].name == x && typeName in defaults[i].types
  {
    if |speciesArr| == 0 then []
    else
      var rest := KeepDefaultTyped(speciesArr[1..], defaults[1..], typeName);
      assert forall i :: 1 <= i < |speciesArr| ==> speciesArr[i] == speciesArr[1..][i - 1] && defaults[i] == defaults[1..][i - 1];
      (if typeName in defaults[0].types then [speciesArr[0].name] else []) + rest
  }

  /** Every pokemon the type lists exists, and so do its species and that species'
      default variety. */
  predicate TypeListingResolvable(api: Api, t: TypeResource) {
    forall i :: 0 <= i < |t.pokemon| ==>
      t.pokemon[i] in api.pokemon && Resolvable(api, api.pokemon[t.pokemon[i]].species)
  }

  lemma ListingResolvableIff(api: Api, t: TypeResource, unique: seq<string>)
    requires ListedSpecies(api, t).Success? && unique == ListedSpecies(api, t).value
    ensures TypeListingResolvable(api, t) <==> forall i :: 0 <= i < |unique| ==> Resolvable(api, unique[i])
  {
    if forall i :: 0 <= i < |unique| ==> Resolvable(api, unique[i]) {
      forall i | 0 <= i < |t.pokemon| ensures Resolvable(api, api.pokemon[t.pokemon[i]].species) {
        var x := api.pokemon[t.pokemon[i]].species;
        assert x in unique;
        var j :| 0 <= j < |unique| && unique[j] == x;
      }
    }
    if TypeListingResolvable(api, t) {
      forall j | 0 <= j < |unique| ensures Resolvable(api, unique[j]) {
        assert unique[j] in unique;
      }
    }
  }

  /** The listed species whose default variety has the type: each species and
      its default variety are fetched; the lookups succeed exactly when every
      listed species resolves. */
  function DefaultTypedAmong(api: Api, typeName: string, unique: seq<string>): (r: Result<seq<string>, Error>)
    ensures r.Success? <==> forall i :: 0 <= i < |unique| ==> Resolvable(api, unique[i])
    ensures r.Success? ==> NoDuplicates(r.value)
    ensures r.Success? ==> forall x :: x in r.value <==>
              exists k :: k in unique && TypedByDefault(api, typeName, k) && api.species[k].name == x
  {
    var speciesArr :- FetchSpecies(api, unique);
    var defaultNames := seq(|speciesArr|, i requires 0 <= i < |speciesArr| => DefaultVarietyName(speciesArr[i]));
    var defaults :- FetchPokemon(api, defaultNames);
    assert forall i :: 0 <= i < |unique| ==> Resolvable(api, unique[i]) by {
      forall i | 0 <= i < |unique| ensures Resolvable(api, unique[i]) {
        assert defaultNames[i] == DefaultVarietyName(api.species[unique[i]]) && defaultNames[i] in api.pokemon;
      }
    }
    var kept := KeepDefaultTyped(speciesArr, defaults, typeName);
    assert forall x :: x in kept <==>
             exists k :: k in unique && TypedByDefault(api, typeName, k) && api.species[k].name == x by {
      forall x ensures x in kept ==> exists k :: k in unique && TypedByDefault(api, typeName, k) && api.species[k].name == x {
        if x in kept {
          var i :| 0 <= i < |speciesArr| && speciesArr[i].name == x && typeName in defaults[i].types;
          assert TypedByDefault(api, typeName, unique[i]);
        }
      }
      forall x ensures (exists k :: k in unique && TypedByDefault(api, typeName, k) && api.species[k].name == x) ==> x in kept {
        if exists k :: k in unique && TypedByDefault(api, typeName, k) && api.species[k].name == x {
          var k :| k in unique && TypedByDefault(api, typeName, k) && api.species[k].name == x;
          var i :| 0 <= i < |unique| && unique[i] == k;
          assert speciesArr[i].name == x && typeName in defaults[i].types;
        }
      }
    }
    Success(Dedup(kept))
  }

  /** `getSpeciesNamesForType`: the listed species whose DEFAULT variety has the
      type; a non-default form carrying it is not enough. */
  function SpeciesNamesForType(api: Api, typeName: string): (r: Result<seq<string>, Error>)
    ensures r.Success? <==> typeName in api.types && TypeListingResolvable(api, api.types[typeName])
    ensures typeName in api.types && |api.types[typeName].pokemon| == 0 ==> r == Success([])
    ensures r.Success? ==> NoDuplicates(r.value)
    ensures r.Success? ==>
              && ListedSpecies(api, api.types[typeName]).Success?
              && forall x :: x in r.value <==>
                   exists k :: k in ListedSpecies(api, api.types[typeName]).value
                               && TypedByDefault(api, typeName, k) && api.species[k].name == x
  {
    var t :- if typeName in api.types then Success(api.types[typeName]) else Failure(TypeNotFound(typeName));
    var unique :- ListedSpecies(api, t);
    ListingResolvableIff(api, t, unique);
    if |unique| == 0 then Success([])
    else DefaultTypedAmong(api, typeName, unique)
  }

  /** Every species record is stored under its own name. */
  predicate NamedByKey(api: Api) {
    forall k :: k in api.species ==> api.species[k].name == k
  }

  /** With records named by their keys, the type facet is exactly the listed
      species whose default variety has the type. */
  lemma TypeFacetExact(api: Api, typeName: string)
    requires NamedByKey(api)
    requires SpeciesNamesForType(api, typeName).Success?
    ensures forall x :: x in SpeciesNamesForType(api, typeName).value <==>
              x in ListedSpecies(api, api.types[typeName]).value && TypedByDefault(api, typeName, x)
  {
    var listed := ListedSpecies(api, api.types[typeName]).value;
    forall x ensures x in SpeciesNamesForType(api, typeName).value <==> x in listed && TypedByDefault(api, typeName, x) {
      if x in listed && TypedByDefault(api, typeName, x) {
        assert api.species[x].name == x;
      }
    }
  }

  // ---------------------------------------------------- facet: generation

  /** `getNamesForGeneration`: the generation's species list; rejects exactly when
      the generation is unknown. */
  function NamesForGeneration(api: Api, genName: string): (r: Result<seq<string>, Error>)
    ensures r.Success? <==> genName in api.generations
    ensures r.Success? ==> r.value == api.generations[genName].pokemonSpecies
  {
    if genName in api.generations then Success(api.generations[genName].pokemonSpecies)
    else Failure(GenerationNotFound(genName))
  }

  // -------------------------------------------------------- facet: search

  /** The chain id `expandByEvolutionChains` keeps for a species: a non-empty
      chain URL that carries an id (0 included). */
  function ChainUrlId(sp: Species): Option<nat> {
    match sp.evolutionChainUrl
    case Some(u) => if u == "" then None else ParseIdFromUrl(u)
    case None => None
  }

  function ChainIdsIn(arr: seq<Species>): (ids: seq<nat>)
    ensures forall id :: id in ids <==> exists i :: 0 <= i < |arr| && ChainUrlId(arr[i]) == Some(id)
  {
    if |arr| == 0 then []
    else
      var rest := ChainIdsIn(arr[1..]);
      assert forall i :: 1 <= i < |arr| ==> arr[i] == arr[1..][i - 1];
      (if ChainUrlId(arr[0]).Some? then [ChainUrlId(arr[0]).value] else []) + rest
  }

  /** The distinct chain ids of the species, so no chain is fetched twice. */
  function DistinctChainIds(arr: seq<Species>): (ids: seq<nat>)
    ensures NoDuplicates(ids)
    ensures forall id :: id in ids <==> exists i :: 0 <= i < |arr| && ChainUrlId(arr[i]) == Some(id)
  {
    Dedup(ChainIdsIn(arr))
  }

  /** `name` is a species of the chain. */
  predicate InChain(c: EvolutionChain, name: string) {
    c.chain.Some? && InTree(c.chain.value, name)
  }

  function ChainNames(c: EvolutionChain): (r: seq<string>)
    ensures forall x :: x in r <==> InChain(c, x)
  {
    match c.chain
    case None => []
    case Some(root) => SpeciesNamesFromChainNode(root)
  }

  /** All chains of the given species could be fetched. */
  predicate ChainsAvailable(api: Api, names: seq<string>)
    requires forall i :: 0 <= i < |names| ==> names[i] in api.species
  {
    var arr := FetchSpecies(api, names).value;
    forall id :: id in DistinctChainIds(arr) ==> id in api.chains
  }

  /** `name` is a species of one of the chains with the given ids. */
  predicate InSomeChain(api: Api, ids: seq<nat>, name: string)
    requires forall id :: id in ids ==> id in api.chains
  {
    exists i :: 0 <= i < |ids| && InChain(api.chains[ids[i]], name)
  }

  /** `expandByEvolutionChains`: every species of every distinct evolution chain
      of the given species. Never rejects: any failed lookup gives the empty set. */
  function ExpandByEvolutionChains(api: Api, names: seq<string>): (r: seq<string>)
    ensures NoDuplicates(r)
    ensures (exists i :: 0 <= i < |names| && names[i] !in api.species) ==> r == []
    ensures (forall i :: 0 <= i < |names| ==> names[i] in api.species) && !ChainsAvailable(api, names) ==> r == []
    ensures (forall i :: 0 <= i < |names| ==> names[i] in api.species) && ChainsAvailable(api, names) ==>
              forall x :: x in r <==> InSomeChain(api, DistinctChainIds(FetchSpecies(api, names).value), x)
  {
    if |names| == 0 then []
    else
      match FetchSpecies(api, names)
      case Failure(_) => []
      case Success(arr) =>
        var ids := DistinctChainIds(arr);
        if |ids| == 0 then []
        else
          match FetchChains(api, ids)
          case Failure(_) => []
          case Success(chains) =>
            var lists := seq(|chains|, i requires 0 <= i < |chains| => ChainNames(chains[i]));
            var flat := Flatten(lists);
            forall x ensures x in flat <==> InSomeChain(api, ids, x) {
              if x in flat {
                var i :| 0 <= i < |lists| && x in lists[i];
                assert InChain(api.chains[ids[i]], x);
              }
              if InSomeChain(api, ids, x) {
                var i :| 0 <= i < |ids| && InChain(api.chains[ids[i]], x);
                assert x in lists[i];
              }
            }
            Dedup(flat)
  }

  /** The search text as it is matched: trimmed, then lower-cased. */
  function SearchQuery(search: string): string {
    Lower(Trim(search))
  }

  /** The indexed species whose name contains the query, each once. */
  function BaseMatches(allSpecies: seq<string>, q: string): (r: seq<string>)
    ensures NoDuplicates(r)
    ensures forall x :: x in r <==> x in allSpecies && Contains(x, q)
  {
    Dedup(Filter(allSpecies, n => Contains(n, q)))
  }

  /** The search facet: the base matches together with every species of their
      evolution chains. */
  function SearchSet(api: Api, allSpecies: seq<string>, q: string): (r: seq<string>)
    ensures NoDuplicates(r)
    ensures forall x :: x in r <==>
              (x in allSpecies && Contains(x, q)) || x in ExpandByEvolutionChains(api, BaseMatches(allSpecies, q))
  {
    var base := BaseMatches(allSpecies, q);
    Dedup(base + ExpandByEvolutionChains(api, base))
  }

  // ------------------------------------------------------------ combination

  datatype ListInput = ListInput(typeName: Option<string>, generation: Option<string>, search: Option<string>)

  /** An optional string filter is given when it is present and non-empty. */
  predicate Given(o: Option<string>) {
    o.Some? && o.value != ""
  }

  /** The search facet is active when the trimmed search text is non-empty. */
  predicate SearchActive(o: Option<string>) {
    o.Some? && Trim(o.value) != ""
  }

  /** Every given facet's lookup succeeds. */
  predicate FacetsSucceed(api: Api, input: ListInput) {
    && (Given(input.typeName) ==> SpeciesNamesForType(api, input.typeName.value).Success?)
    && (Given(input.generation) ==> NamesForGeneration(api, input.generation.value).Success?)
  }

  /** `x` belongs to every active facet's candidate set. */
  predicate Admitted(api: Api, ix: SpeciesIndex, input: ListInput, x: string)
    requires FacetsSucceed(api, input)
  {
    && (Given(input.typeName) ==> x in SpeciesNamesForType(api, input.typeName.value).value)
    && (Given(input.generation) ==> x in NamesForGeneration(api, input.generation.value).value)
    && (SearchActive(input.search) ==> x in SearchSet(api, ix.names, SearchQuery(input.search.value)))
  }

  /** `s` narrowed to the members of `other`, keeping the order of `s`. */
  function Intersect(s: seq<string>, other: seq<string>): (r: seq<string>)
    ensures NoDuplicates(r)
    ensures forall x :: x in r <==> x in s && x in other
    ensures forall i, j :: 0 <= i < j < |r| ==> FirstIndex(s, r[i]) < FirstIndex(s, r[j])
  {
    var keep := n => n in other;
    DedupFilterKeepsOrder(s, keep);
    Dedup(Filter(s, keep))
  }

  /** The candidate species of `list`: `None` while no facet is active
      (unconstrained); otherwise the intersection of the active facets, applied in
      the order type, generation, search. A failing type or generation lookup
      rejects the query. */
  function Candidates(api: Api, ix: SpeciesIndex, input: ListInput): (r: Result<Option<seq<string>>, Error>)
    ensures r.Success? <==> FacetsSucceed(api, input)
    ensures r.Success? ==>
              (r.value.None? <==> !Given(input.typeName) && !Given(input.generation) && !SearchActive(input.search))
    ensures r.Success? && r.value.Some? ==> NoDuplicates(r.value.value)
    ensures r.Success? && r.value.Some? ==>
              forall x :: x in r.value.value <==> Admitted(api, ix, input, x)
  {
    var typeSpecies :- if Given(input.typeName) then
                         var t :- SpeciesNamesForType(api, input.typeName.value); Success(Some(t))
                       else Success(None);
    var genSpecies :- if Given(input.generation) then
                        var g :- NamesForGeneration(api, input.generation.value); Success(Some(g))
                      else Success(None);
    var afterType: Option<seq<string>> :=
      match typeSpecies
      case None => None
      case Some(t) => Some(Dedup(t));
    var afterGeneration: Option<seq<string>> :=
      match genSpecies
      case None => afterType
      case Some(g) => match afterType
                      case None => Some(Dedup(g))
                      case Some(c) => Some(Intersect(g, c));
    if SearchActive(input.search) then
      var searchSet := SearchSet(api, ix.names, SearchQuery(input.search.value));
      match afterGeneration
      case None => Success(Some(searchSet))
      case Some(c) => Success(Some(Intersect(c, searchSet)))
    else Success(afterGeneration)
  }

  // --------------------------------------------------------------- ordering

  /** A candidate with the id it is ordered by. */
  datatype Ranked = Ranked(species: string, speciesId: nat)

  predicate ByRank(a: Ranked, b: Ranked) {
    a.speciesId <= b.speciesId
  }

  function RankAll(ix: SpeciesIndex, names: seq<string>): (r: seq<Ranked>)
    ensures |r| == |names|
    ensures forall i :: 0 <= i < |names| ==> r[i] == Ranked(names[i], SpeciesId(ix, names[i]))
  {
    seq(|names|, i requires 0 <= i < |names| => Ranked(names[i], SpeciesId(ix, names[i])))
  }

  /** The names with their index ids (the sentinel when missing), sorted by id:
      a permutation of the input, none dropped. */
  function OrderSpecies(ix: SpeciesIndex, names: seq<string>): (r: seq<Ranked>)
    ensures SortedBy(r, ByRank)
    ensures multiset(r) == multiset(RankAll(ix, names))
    ensures |r| == |names|
    ensures forall i :: 0 <= i < |r| ==> r[i].species in names && r[i].speciesId == SpeciesId(ix, r[i].species)
    ensures forall i :: 0 <= i < |names| ==> Ranked(names[i], SpeciesId(ix, names[i])) in r
  {
    var ranked := RankAll(ix, names);
    var r := SortBy(ranked, ByRank);
    forall i | 0 <= i < |r|
      ensures r[i].species in names && r[i].speciesId == SpeciesId(ix, r[i].species)
    {
      assert r[i] in multiset(ranked);
      var k :| 0 <= k < |ranked| && ranked[k] == r[i];
    }
    forall i | 0 <= i < |names|
      ensures ranked[i] in r
    {
      assert ranked[i] in multiset(r);
    }
    r
  }

  /** Names missing from the index sort after every indexed name. */
  lemma MissingNamesSortLast(ix: SpeciesIndex, names: seq<string>)
    requires IdsBelowSentinel(ix)
    ensures var r := OrderSpecies(ix, names);
            forall i, j :: 0 <= i < j < |r| && r[i].species !in ix.ids ==> r[j].species !in ix.ids
  {
    var r := OrderSpecies(ix, names);
    forall i, j | 0 <= i < j < |r| && r[i].species !in ix.ids
      ensures r[j].species !in ix.ids
    {
      assert ByRank(r[i], r[j]);
    }
  }
}
