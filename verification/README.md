# Pokédex aggregation layer, modelled in Dafny

This project models the server-side aggregation layer of a Pokédex browser: the
tRPC router `src/server/api/routers/pokemon.ts`. The router answers three queries:

- `filters` lists the types and generations offered by the filter bar.
- `list` returns the catalog narrowed by a type, a generation and a free-text
  search, ordered by species id.
- `byName` returns one species' record together with its evolution family.

Behind these queries sit four pieces, all modelled here:

- the record resolver `getPokemonCore`, which maps each species to its default variety;
- the evolution-tree walks;
- the facet engine, where facets combine by set intersection and the search facet is expanded through evolution chains;
- the URL and label helpers.

The upstream Pokédex client is replaced by one immutable snapshot, `Upstream.Api`.
Every by-name or by-id lookup becomes a map, and a missing key stands for the
lookup rejecting. A batch lookup is all-or-nothing, like the `Promise.all` behind it.
A JavaScript `Set` is modelled as a duplicate-free sequence in first-insertion order
(`Seqs.Dedup`). This keeps the order of equal-id entries after the stable sort the
same as in the code.

Modules, leaves first:

| file | module | contents |
|---|---|---|
| wrappers.dfy | `Wrappers` | `Option`, `Result` |
| seqs.dfy | `Seqs` | duplicate-free sequences, filter, flatten |
| sorting.dfy | `Sorting` | stable insertion sort over a total preorder |
| text.dfy | `Text` | `getIdFromUrl`, `toTitle`, `trim`, `toLowerCase`, `includes`, label order |
| upstream.dfy | `Upstream` | upstream records, the `Api` snapshot, batch lookups |
| core.dfy | `Core` | `getPokemonCore` and its default-variety and sprite choices |
| evolution.dfy | `Evolution` | chain trees, both walks, `getEvolutionChainForSpecies` |
| facets.dfy | `Facets` | species index, type / generation / search facets, combination, ordering |
| router.dfy | `Router` | the `filters`, `list` and `byName` queries |

Three behaviours of the code are easy to miss:

- An evolution-chain URL whose id is `0` yields an empty family, because the code
  tests `!chainId`. The search expansion keeps id `0`, because its filter only drops
  missing ids.
- The code does not keep only indexed names in the candidate set. A type- or
  generation-facet name that is missing from the species index is kept and sorted
  last.
- When a family member cannot be resolved, its fallback id is read from the species
  record's `url` field. It is 0 when that field is absent or carries no id.
  `Species.url` models that field.

## Model

| member | source | states |
|---|---|---|
| Text.ParseIdFromUrlComplete | src/server/api/routers/pokemon.ts:8-11 | every URL ending in `/<digits>` or `/<digits>/` yields the decimal value of those digits, leading zeros included |
| Text.ParseIdFromUrlSound | src/server/api/routers/pokemon.ts:8-11 | whenever an id is returned, the URL has one of those two shapes and the id is the value of its last segment |
| Text.ParseIdFromUrlRoundTrip | src/server/api/routers/pokemon.ts:8-11 | a resource URL `<prefix>/<id>/` gives back `id` |
| Text.ToTitle | src/server/api/routers/pokemon.ts:13-14 | same length, no hyphen left (each becomes a space), every word-initial character upper-cased, every other character unchanged |
| Text.ToTitleIdempotent | src/server/api/routers/pokemon.ts:13-14 | applying `toTitle` to a label changes nothing |
| Text.Trim | src/server/api/routers/pokemon.ts:272 | the result is a slice of the input with only white space cut off both ends, and it neither starts nor ends with white space |
| Text.TrimEmptyIffAllSpace | src/server/api/routers/pokemon.ts:272 | the trimmed search text is empty exactly when the text is all white space, so such a search does not activate the search facet |
| Text.Contains | src/server/api/routers/pokemon.ts:291 | `includes` holds exactly when the query occurs at some position of the name |
| Seqs.Dedup | src/server/api/routers/pokemon.ts:91 | `Array.from(new Set(s))` has no duplicates and exactly the elements of `s`; on a duplicate-free input it is the input |
| Seqs.DedupKeepsFirstOrder | src/server/api/routers/pokemon.ts:91 | the set lists its elements in the order of their first occurrence in `s` |
| Sorting.SortBy | src/server/api/routers/pokemon.ts:313 | the sort returns a permutation of its input that is ordered by the comparator |
| Sorting.SortByStable | src/server/api/routers/pokemon.ts:313 | the sort is stable: for every key, the elements that compare equal to it come out in their input order |
| Core.DefaultVarietyName | src/server/api/routers/pokemon.ts:36-39 | the pokemon of the first variety flagged default, or the species' own name when none is flagged |
| Core.PickSprite | src/server/api/routers/pokemon.ts:49-53 | official artwork if present, else dream-world art, else the default front sprite; absent only when all three are |
| Core.GetPokemonCore | src/server/api/routers/pokemon.ts:29-74 | empty input gives empty output whatever the upstream holds; otherwise it succeeds exactly when every species and its default variety exist, with one record per name in input order, carrying the species' generation (or "unknown") and the default variety's id, name, types, sprite, stats, abilities, height and weight |
| Evolution.SpeciesNamesFromChainNode | src/server/api/routers/pokemon.ts:147-156 | the recursive walk collects exactly the species names found anywhere in the tree, the root included |
| Evolution.CollectChainNames | src/server/api/routers/pokemon.ts:83-90 | the explicit-stack walk collects exactly the species names of the tree, the root included, and nothing when there is no root |
| Evolution.ChainIdOf | src/server/api/routers/pokemon.ts:77-80 | a chain id is read only from a present, non-empty chain URL that carries a non-zero id |
| Evolution.ResolveMember | src/server/api/routers/pokemon.ts:94-109 | a resolvable member takes the name, id and sprite of its record; an unresolvable one keeps its walked name, gets the species-URL id (or 0) and no sprite; only a missing species rejects |
| Evolution.ResolveAll | src/server/api/routers/pokemon.ts:93-111 | one member per name in order, failing exactly when some species is missing |
| Evolution.GetEvolutionChainForSpecies | src/server/api/routers/pokemon.ts:76-115 | no usable chain id gives an empty family; an unknown chain rejects; otherwise every species of the tree is resolved exactly once and the result is a permutation of those members sorted ascending by id |
| Facets.IndexIds | src/server/api/routers/pokemon.ts:131-135 | every indexed name comes from the species list |
| Facets.IndexIdsLastWins | src/server/api/routers/pokemon.ts:131-135 | the last entry for a name decides whether it has an id, and which |
| Facets.ListedSpecies | src/server/api/routers/pokemon.ts:203-207 | the species of the pokemon a type lists, each once; rejects exactly when a listed pokemon is missing |
| Facets.KeepDefaultTyped | src/server/api/routers/pokemon.ts:220-229 | keeps the name of species `i` exactly when default pokemon `i` has the type |
| Facets.SpeciesNamesForType | src/server/api/routers/pokemon.ts:198-232 | succeeds exactly when the type exists and every pokemon it lists exists together with its species and that species' default variety; an empty listing gives an empty result; the result has no duplicates and holds exactly the records of listed species whose default variety has the type |
| Facets.TypeFacetExact | src/server/api/routers/pokemon.ts:198-232 | with records stored under their own names, a species is in the type facet exactly when it is listed and its default variety has the type |
| Facets.NamesForGeneration | src/server/api/routers/pokemon.ts:117-121 | rejects exactly when the generation is unknown; otherwise gives the generation's species list in upstream order |
| Facets.DistinctChainIds | src/server/api/routers/pokemon.ts:166-177 | the chain ids of the species' non-empty chain URLs, each once, so no chain is fetched twice |
| Facets.ExpandByEvolutionChains | src/server/api/routers/pokemon.ts:158-196 | never rejects: a missing species or chain gives the empty set; otherwise exactly the species of the matched species' distinct chains, without duplicates |
| Facets.BaseMatches | src/server/api/routers/pokemon.ts:290-291 | the indexed species whose name contains the query, each once |
| Facets.SearchSet | src/server/api/routers/pokemon.ts:288-298 | the search facet is the base matches together with their evolution expansion, without duplicates |
| Facets.Intersect | src/server/api/routers/pokemon.ts:283-285 | an intersection keeps exactly the names in both sets, once each, in the order in which they first occur in the first |
| Facets.Candidates | src/server/api/routers/pokemon.ts:266-302 | fails exactly when a given type or generation lookup fails; unconstrained exactly when no facet is active; otherwise exactly the names admitted by every active facet, without duplicates |
| Facets.OrderSpecies | src/server/api/routers/pokemon.ts:305-318 | the ordered list is a permutation of the candidates paired with their index ids (the sentinel when missing), sorted ascending by that id, with no name dropped |
| Facets.MissingNamesSortLast | src/server/api/routers/pokemon.ts:311-313 | when all index ids are below `MAX_SAFE_INTEGER`, names missing from the index come after every indexed name |
| Router.TypeOptions | src/server/api/routers/pokemon.ts:240-242 | the type options are a permutation of the listed types, ordered by label, each label the title form of its value |
| Router.OrderGenerations | src/server/api/routers/pokemon.ts:244-251 | the generation options are a permutation of the listed generations, ordered by the id in their URL |
| Router.GenerationsFollowUrlIds | src/server/api/routers/pokemon.ts:243-250 | a generation with a smaller URL id always comes first, whatever the labels |
| Router.Filters | src/server/api/routers/pokemon.ts:235-253 | types sorted by label and a permutation of the type list; generations in URL-id order, one per listed generation |
| Router.OrderCandidates | src/server/api/routers/pokemon.ts:308-318 | orders the candidate set, or every indexed species when unconstrained, by id as a permutation |
| Router.List | src/server/api/routers/pokemon.ts:255-332 | fails when a facet fails; otherwise succeeds exactly when every ordered candidate resolves, and then `total` equals the number of ordered candidates and item `i` is the record of candidate `i` |
| Router.ListOrdersAdmittedSpecies | src/server/api/routers/pokemon.ts:305-320 | with some facet active, the ordered list is sorted by id and holds exactly the admitted species |
| Router.ByName | src/server/api/routers/pokemon.ts:334-342 | succeeds exactly when the name resolves and its species either has no usable chain id or has a known chain whose walked family all resolves; the result carries that name's record; the family is the tree's species names, each once, and the evolutions are a permutation of their resolved members sorted by id, empty when there is no usable chain id |

## Left out

- Network access, the `pokedex-promise-v2` client and its caching are replaced by the `Api` snapshot. For by-name and by-id lookups, network failure and "not found" are the same thing in the model: a missing key.
- The three list endpoints (species list, types list, generations list) are assumed to answer: `Api.speciesList`, `Api.typesList` and `Api.generationsList` are plain sequences. In the code a rejection of any of them propagates: `filters` rejects (lines 236-239), and so does every `list` call that needs the species index (lines 129 and 306-307).
- Concurrency: the `Promise.all` fan-outs are sequential in the model. When several lookups fail, the model reports the first by position, while the code rejects with whichever fails first in time.
- The memoized `speciesIndexPromise` (lines 123-139) is not modelled as shared state. The index is a pure function of the snapshot's species list (`Facets.BuildSpeciesIndex`). That is what every caller sees once the first fetch has succeeded. A first fetch that rejects stays memoized in the code, so every later call rejects too. The model has no such state, since the species list always answers.
- Regular expressions are not modelled as such. `getIdFromUrl` and `toTitle` are specified directly over characters, with `\w` and `\b` taken as ASCII.
- `toLowerCase` is modelled on ASCII letters only. `trim` uses the JavaScript white-space set.
- `localeCompare` is approximated by plain lexicographic order on character codes (`Text.LexLe`).
- JavaScript numbers: ids are unbounded naturals, so precision loss above 2^53 is not modelled. `Number.MAX_SAFE_INTEGER` is the constant `Facets.MaxSafeInteger`.
- Facets.OrderSpecies: the unconstrained branch of `list` reads `speciesIndex.get(s)!`. For a name without an id this compares NaN, and the order becomes implementation-defined. The model gives such names the sentinel id there too, which is one of the orders the code may produce.
- Router.OrderGenerations: a generation whose URL carries no id also gets a NaN comparison in the code. The model places it last, again one of the permitted orders.
- Upstream slot records (`types[].type.name`, `stats[].stat.name`/`base_stat`, `abilities[].ability.name`/`is_hidden`) are given directly by the fields the router copies out of them.
- `console.log`/`console.error`, the tRPC and zod plumbing, and every React component, page and store are presentation and not part of this model.
