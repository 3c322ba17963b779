/** Evolution trees: the two walks that collect a tree's species names, and
    `getEvolutionChainForSpecies`, which resolves a species' whole family. */
module Evolution {
  import opened Wrappers
  import opened Seqs
  import opened Sorting
  import opened Text
  import opened Upstream
  import opened Core

  /** `name` is the (non-empty) species of some node of the tree rooted at `n`;
      nodes without a species name are skipped by both walks. */
  predicate InTree(n: ChainNode, name: string)
    decreases n
  {
    || (name != "" && n.species == name)
    || exists i :: 0 <= i < |n.evolvesTo| && InTree(n.evolvesTo[i], name)
  }

  /** `name` is in one of the trees of `ns`. */
  predicate InForest(ns: seq<ChainNode>, name: string) {
    exists i :: 0 <= i < |ns| && InTree(ns[i], name)
  }

  lemma InForestAppend(a: seq<ChainNode>, b: seq<ChainNode>, name: string)
    ensures InForest(a + b, name) <==> InForest(a, name) || InForest(b, name)
  {
    if InForest(a + b, name) {
      var i :| 0 <= i < |a + b| && InTree((a + b)[i], name);
      if i >= |a| {
        assert b[i - |a|] == (a + b)[i];
      }
    }
    if InForest(a, name) {
      var i :| 0 <= i < |a| && InTree(a[i], name);
      assert (a + b)[i] == a[i];
    }
    if InForest(b, name) {
      var i :| 0 <= i < |b| && InTree(b[i], name);
      assert (a + b)[|a| + i] == b[i];
    }
  }

  /** The number of nodes of a tree and of a forest. */
  function Size(n: ChainNode): nat
    decreases n
  {
    1 + ForestSize(n.evolvesTo)
  }

  function ForestSize(ns: seq<ChainNode>): nat
    decreases ns
  {
    if |ns| == 0 then 0 else Size(ns[0]) + ForestSize(ns[1..])
  }

  lemma {:induction false} ForestSizeAppend(a: seq<ChainNode>, b: seq<ChainNode>)
    ensures ForestSize(a + b) == ForestSize(a) + ForestSize(b)
    decreases |a|
  {
    if |a| == 0 {
      assert a + b == b;
    } else {
      assert (a + b)[0] == a[0];
      assert (a + b)[1..] == a[1..] + b;
      ForestSizeAppend(a[1..], b);
    }
  }

  /** `speciesNamesFromChainNode`: the species names of a tree in pre-order,
      children left to right; every name of the tree and nothing else. */
  function SpeciesNamesFromChainNode(n: ChainNode): (r: seq<string>)
    ensures forall x :: x in r <==> InTree(n, x)
    decreases n
  {
    (if n.species != "" then [n.species] else []) + SpeciesNamesFromChildren(n.evolvesTo)
  }

  function SpeciesNamesFromChildren(ns: seq<ChainNode>): (r: seq<string>)
    ensures forall x :: x in r <==> InForest(ns, x)
    decreases ns
  {
    if |ns| == 0 then []
    else
      var rest := SpeciesNamesFromChildren(ns[1..]);
      InForestAppend([ns[0]], ns[1..], ns[0].species);
      assert ns == [ns[0]] + ns[1..];
      assert forall x :: InForest(ns, x) <==> InTree(ns[0], x) || InForest(ns[1..], x) by {
        forall x ensures InForest(ns, x) <==> InTree(ns[0], x) || InForest(ns[1..], x) {
          InForestAppend([ns[0]], ns[1..], x);
          assert InForest([ns[0]], x) <==> InTree(ns[0], x);
        }
      }
      SpeciesNamesFromChainNode(ns[0]) + rest
  }

  /** The walk inside `getEvolutionChainForSpecies`: an explicit stack, popping
      the last node and pushing its children. It visits every node once, so it
      collects exactly the names of the tree. */
  method CollectChainNames(root: Option<ChainNode>) returns (names: seq<string>)
    ensures forall x :: x in names <==> root.Some? && InTree(root.value, x)
  {
    names := [];
    var stack: seq<ChainNode> := if root.Some? then [root.value] else [];
    while |stack| > 0
      invariant forall x :: (x in names || InForest(stack, x)) <==> root.Some? && InTree(root.value, x)
      decreases ForestSize(stack)
    {
      var node := stack[|stack| - 1];
      var rest := stack[..|stack| - 1];
      assert stack == rest + [node];
      ForestSizeAppend(rest, [node]);
      ForestSizeAppend(rest, node.evolvesTo);
      forall x
        ensures InForest(stack, x) <==> InForest(rest, x) || InTree(node, x)
        ensures InForest(rest + node.evolvesTo, x) <==> InForest(rest, x) || InForest(node.evolvesTo, x)
      {
        InForestAppend(rest, [node], x);
        InForestAppend(rest, node.evolvesTo, x);
        assert InForest([node], x) <==> InTree(node, x);
      }
      stack := rest;
      if node.species != "" {
        names := names + [node.species];
      }
      if |node.evolvesTo| > 0 {
        stack := stack + node.evolvesTo;
      }
    }
  }

  /** One entry of an evolution family. */
  datatype Member = Member(name: string, id: nat, sprite: Option<string>)

  /** The chain id `getEvolutionChainForSpecies` reads from a species: none when
      the chain URL is missing or empty, carries no id, or carries id 0 (a falsy
      number). */
  function ChainIdOf(sp: Species): (r: Option<nat>)
    ensures r.Some? <==> && sp.evolutionChainUrl.Some? && sp.evolutionChainUrl.value != ""
                         && ParseIdFromUrl(sp.evolutionChainUrl.value).Some?
                         && ParseIdFromUrl(sp.evolutionChainUrl.value).value != 0
    ensures r.Some? ==> r.value == ParseIdFromUrl(sp.evolutionChainUrl.value).value && r.value > 0
  {
    match sp.evolutionChainUrl
    case None => None
    case Some(url) =>
      if url == "" then None
      else
        match ParseIdFromUrl(url)
        case None => None
        case Some(id) => if id == 0 then None else Some(id)
  }

  /** The id a member falls back to: the id in the species' URL, else 0. */
  function FallbackId(sp: Species): nat {
    match sp.url
    case Some(u) => ParseIdFromUrl(u).GetOr(0)
    case None => 0
  }

  /** One family member: name, id and picture of its record; if the record cannot
      be resolved, the walked name, the species' fallback id and no picture. Only
      a failure of that second species lookup rejects. */
  function ResolveMember(api: Api, name: string): (r: Result<Member, Error>)
    ensures Resolvable(api, name) ==>
              var c := GetPokemonCore(api, [name]).value[0];
              r == Success(Member(c.name, c.id, c.sprite))
    ensures !Resolvable(api, name) && name in api.species ==>
              r == Success(Member(name, FallbackId(api.species[name]), None))
    ensures r.Failure? <==> name !in api.species
  {
    match GetPokemonCore(api, [name])
    case Success(cores) => Success(Member(cores[0].name, cores[0].id, cores[0].sprite))
    case Failure(_) =>
      match FetchSpecies(api, [name])
      case Success(arr) => Success(Member(name, FallbackId(arr[0]), None))
      case Failure(e) => Failure(e)
  }

  /** `Promise.all` over the members: one member per name, in order, or a rejection. */
  function ResolveAll(api: Api, names: seq<string>): (r: Result<seq<Member>, Error>)
    ensures r.Success? <==> forall i :: 0 <= i < |names| ==> names[i] in api.species
    ensures r.Success? ==> |r.value| == |names|
    ensures r.Success? ==> forall i :: 0 <= i < |names| ==> Success(r.value[i]) == ResolveMember(api, names[i])
  {
    if |names| == 0 then Success([])
    else
      var first :- ResolveMember(api, names[0]);
      var rest :- ResolveAll(api, names[1..]);
      Success([first] + rest)
  }

  predicate ByMemberId(a: Member, b: Member) {
    a.id <= b.id
  }

  /** `getEvolutionChainForSpecies`: the species' whole family, each walked name
      resolved once, ordered by ascending id. `family` is the de-duplicated list
      of walked names the members are resolved from. */
  method GetEvolutionChainForSpecies(api: Api, species: Species)
    returns (r: Result<seq<Member>, Error>, ghost family: seq<string>)
    ensures ChainIdOf(species).None? ==> r == Success([])
    ensures ChainIdOf(species).Some? && ChainIdOf(species).value !in api.chains ==> r.Failure?
    ensures NoDuplicates(family)
    ensures ChainIdOf(species).Some? && ChainIdOf(species).value in api.chains ==>
              var root := api.chains[ChainIdOf(species).value].chain;
              forall x :: x in family <==> root.Some? && InTree(root.value, x)
    ensures r.Success? ==> SortedBy(r.value, ByMemberId)
    ensures r.Success? && ChainIdOf(species).Some? ==>
              && ResolveAll(api, family).Success?
              && multiset(r.value) == multiset(ResolveAll(api, family).value)
              && |r.value| == |family|
    ensures ChainIdOf(species).Some? && ChainIdOf(species).value in api.chains ==>
              (r.Failure? <==> ResolveAll(api, family).Failure?)
  {
    family := [];
    var chainId := ChainIdOf(species);
    if chainId.None? {
      return Success([]), family;
    }
    var chains := FetchChains(api, [chainId.value]);
    if chains.Failure? {
      return Failure(chains.error), family;
    }
    var walked := CollectChainNames(chains.value[0].chain);
    var unique := Dedup(walked);
    family := unique;
    var details := ResolveAll(api, unique);
    if details.Failure? {
      return Failure(details.error), family;
    }
    r := Success(SortBy(details.value, ByMemberId));
  }
}
