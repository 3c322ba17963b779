/** The three queries of the router: the filter lists, the filtered catalog and
    the detail of one species. */
module Router {
  import opened Wrappers
  import opened Seqs
  import opened Sorting
  import opened Text
  import opened Upstream
  import opened Core
  import opened Evolution
  import opened Facets

  // ---------------------------------------------------------------- filters

  /** A choice offered by the filter bar: the resource name (`value`) and its display label (`title`; `label` is a Dafny keyword). */
  datatype FilterOption = FilterOption(value: string, title: string)

  datatype FilterLists = FilterLists(types: seq<FilterOption>, generations: seq<FilterOption>)

  function OptionOf(r: NamedResource): FilterOption {
    FilterOption(r.name, ToTitle(r.name))
  }

  function OptionsOf(list: seq<NamedResource>): (r: seq<FilterOption>)
    ensures |r| == |list|
    ensures forall i :: 0 <= i < |list| ==> r[i] == OptionOf(list[i])
  {
    seq(|list|, i requires 0 <= i < |list| => OptionOf(list[i]))
  }

  predicate ByLabel(a: FilterOption, b: FilterOption) {
    LexLe(a.title, b.title)
  }

  lemma ByLabelTotalPreorder()
    ensures TotalPreorder(ByLabel)
  {
    forall a: FilterOption, b: FilterOption ensures ByLabel(a, b) || ByLabel(b, a) {
      LexLeTotal(a.title, b.title);
    }
    forall a: FilterOption, b: FilterOption, c: FilterOption | ByLabel(a, b) && ByLabel(b, c)
      ensures ByLabel(a, c)
    {
      LexLeTransitive(a.title, b.title, c.title);
    }
  }

  /** The type options: every listed type with its title label, ordered by label. */
  function TypeOptions(list: seq<NamedResource>): (r: seq<FilterOption>)
    ensures SortedBy(r, ByLabel)
    ensures multiset(r) == multiset(OptionsOf(list))
    ensures forall i :: 0 <= i < |r| ==> r[i].title == ToTitle(r[i].value) && '-' !in r[i].title
  {
    ByLabelTotalPreorder();
    var r := SortBy(OptionsOf(list), ByLabel);
    forall i | 0 <= i < |r| ensures r[i].title == ToTitle(r[i].value) {
      assert r[i] in multiset(OptionsOf(list));
    }
    r
  }

  /** A generation option with the id read from its URL. Generations whose URL
      carries no id are placed last. */
  datatype KeyedOption = KeyedOption(option: FilterOption, id: nat)

  function GenerationKey(r: NamedResource): KeyedOption {
    KeyedOption(OptionOf(r), ParseIdFromUrl(r.url).GetOr(MaxSafeInteger))
  }

  predicate ByKey(a: KeyedOption, b: KeyedOption) {
    a.id <= b.id
  }

  /** The generations ordered by the id in their URL, whatever their labels. */
  function OrderGenerations(list: seq<NamedResource>): (r: seq<KeyedOption>)
    ensures SortedBy(r, ByKey)
    ensures multiset(r) == multiset(seq(|list|, i requires 0 <= i < |list| => GenerationKey(list[i])))
    ensures forall i :: 0 <= i < |r| ==> r[i].option.title == ToTitle(r[i].option.value)
  {
    var keyed := seq(|list|, i requires 0 <= i < |list| => GenerationKey(list[i]));
    var r := SortBy(keyed, ByKey);
    forall i | 0 <= i < |r| ensures r[i].option.title == ToTitle(r[i].option.value) {
      assert r[i] in multiset(keyed);
    }
    r
  }

  /** The `filters` query. */
  function Filters(api: Api): (r: FilterLists)
    ensures SortedBy(r.types, ByLabel)
    ensures multiset(r.types) == multiset(OptionsOf(api.typesList))
    ensures |r.generations| == |api.generationsList|
    ensures forall i :: 0 <= i < |r.generations| ==> r.generations[i] == OrderGenerations(api.generationsList)[i].option
  {
    var gens := OrderGenerations(api.generationsList);
    FilterLists(TypeOptions(api.typesList),
                seq(|gens|, i requires 0 <= i < |gens| => gens[i].option))
  }

  /** A generation's place in the list depends only on the id in its URL: two
      generations with ids `a < b` come out in that order, whatever their labels. */
  lemma GenerationsFollowUrlIds(list: seq<NamedResource>, i: int, j: int)
    requires 0 <= i < |OrderGenerations(list)| && 0 <= j < |OrderGenerations(list)|
    requires OrderGenerations(list)[i].id < OrderGenerations(list)[j].id
    ensures i < j
  {
    assert TotalPreorder(ByKey);
    SortedPositions(OrderGenerations(list), ByKey, i, j);
  }

  // ------------------------------------------------------------------- list

  datatype ListResult = ListResult(total: nat, items: seq<PokemonCore>)

  /** The ordered candidates: the candidate set, or every indexed species when unconstrained. */
  function OrderCandidates(ix: SpeciesIndex, candidates: Option<seq<string>>): (r: seq<Ranked>)
    ensures candidates.Some? ==> |r| == |candidates.value| && multiset(r) == multiset(RankAll(ix, candidates.value))
    ensures candidates.None? ==> |r| == |ix.names| && multiset(r) == multiset(RankAll(ix, ix.names))
    ensures SortedBy(r, ByRank)
  {
    match candidates
    case Some(c) => OrderSpecies(ix, c)
    case None => OrderSpecies(ix, ix.names)
  }

  function SpeciesOf(ordered: seq<Ranked>): (r: seq<string>)
    ensures |r| == |ordered|
    ensures forall i :: 0 <= i < |r| ==> r[i] == ordered[i].species
  {
    seq(|ordered|, i requires 0 <= i < |ordered| => ordered[i].species)
  }

  /** The `list` query: every admitted species (all of them when no facet is
      active), ordered by index id, resolved to records; `total` counts them. */
  function List(api: Api, input: ListInput): (r: Result<ListResult, Error>)
    ensures var ix := BuildSpeciesIndex(api.speciesList);
            r.Success? ==>
              && Candidates(api, ix, input).Success?
              && var ordered := OrderCandidates(ix, Candidates(api, ix, input).value);
                 && r.value.total == |ordered| == |r.value.items|
                 && forall i :: 0 <= i < |ordered| ==>
                      Resolvable(api, ordered[i].species) && Describes(api, ordered[i].species, r.value.items[i])
    ensures !FacetsSucceed(api, input) ==> r.Failure?
    ensures var ix := BuildSpeciesIndex(api.speciesList);
            FacetsSucceed(api, input) ==>
              var ordered := OrderCandidates(ix, Candidates(api, ix, input).value);
              (r.Success? <==> forall i :: 0 <= i < |ordered| ==> Resolvable(api, ordered[i].species))
  {
    var ix := BuildSpeciesIndex(api.speciesList);
    var candidates :- Candidates(api, ix, input);
    var ordered := OrderCandidates(ix, candidates);
    var items :- GetPokemonCore(api, SpeciesOf(ordered));
    Success(ListResult(|ordered|, items))
  }

  /** The ordered list holds exactly the admitted candidates, sorted by id. */
  lemma ListOrdersAdmittedSpecies(api: Api, input: ListInput)
    requires FacetsSucceed(api, input)
    requires Given(input.typeName) || Given(input.generation) || SearchActive(input.search)
    ensures var ix := BuildSpeciesIndex(api.speciesList);
            var ordered := OrderCandidates(ix, Candidates(api, ix, input).value);
            && SortedBy(ordered, ByRank)
            && (forall i :: 0 <= i < |ordered| ==> Admitted(api, ix, input, ordered[i].species))
            && (forall x :: Admitted(api, ix, input, x) ==> Ranked(x, SpeciesId(ix, x)) in ordered)
  {
    var ix := BuildSpeciesIndex(api.speciesList);
    var c := Candidates(api, ix, input).value.value;
    var ordered := OrderSpecies(ix, c);
    forall x | Admitted(api, ix, input, x) ensures Ranked(x, SpeciesId(ix, x)) in ordered {
      var k :| 0 <= k < |c| && c[k] == x;
    }
  }

  // ---------------------------------------------------------------- byName

  datatype Detail = Detail(core: PokemonCore, evolutions: seq<Member>)

  /** The `byName` query: the species' record and its evolution family. `family`
      is the set of species names walked from the species' evolution chain. */
  method ByName(api: Api, name: string) returns (r: Result<Detail, Error>, ghost family: seq<string>)
    ensures r.Success? <==>
              && Resolvable(api, name)
              && var id := ChainIdOf(api.species[name]);
                 id.None? || (id.value in api.chains && ResolveAll(api, family).Success?)
    ensures r.Success? ==> Describes(api, name, r.value.core)
    ensures r.Success? ==> SortedBy(r.value.evolutions, ByMemberId)
    ensures Resolvable(api, name) && ChainIdOf(api.species[name]).None? ==> r.Success? && r.value.evolutions == []
    ensures NoDuplicates(family)
    ensures Resolvable(api, name) && ChainIdOf(api.species[name]).Some? ==>
              var id := ChainIdOf(api.species[name]).value;
              id in api.chains ==>
                var root := api.chains[id].chain;
                forall x :: x in family <==> root.Some? && InTree(root.value, x)
    ensures r.Success? && ChainIdOf(api.species[name]).Some? ==>
              && multiset(r.value.evolutions) == multiset(ResolveAll(api, family).value)
              && |r.value.evolutions| == |family|
  {
    family := [];
    var cores := GetPokemonCore(api, [name]);
    if cores.Failure? {
      return Failure(cores.error), family;
    }
    var core := cores.value[0];
    // The species was found for the record already, so this lookup succeeds.
    var species := FetchSpecies(api, [name]);
    assert species.Success?;
    var evolutions;
    evolutions, family := GetEvolutionChainForSpecies(api, species.value[0]);
    if evolutions.Failure? {
      return Failure(evolutions.error), family;
    }
    r := Success(Detail(core, evolutions.value));
  }
}
