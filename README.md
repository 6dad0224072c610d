# Random Risk map generator — a verified Dafny model

This project models the generation pipeline of `RandomWorldGenerator` and
its three model classes `World`, `Edge` and `Country`. The pipeline produces
a Risk-style world from a goal country count:

1. **Grid.** A grid `W` wide and `W + 1` high is built, with one country
   per cell and an edge from every cell to its right neighbour and to the
   neighbour below.
2. **Contraction.** Random neighbours are merged into random countries.
   After each merge the edge list is de-duplicated and its self-loops are
   dropped.
3. **Continent growth.** Continents grow by random region growth from a
   seed over the current continent's neighbour set.
4. **Pruning.** Edges that touch countries outside every continent are
   removed, and so are continents with no neighbour outside themselves.
5. **Finalisation.** The continent countries get final ids `0 .. n - 1`.
   `maxRounds` is computed, and the wastelands and one starting country
   per continent are drawn.

Modules and files:

| file | module | models |
|---|---|---|
| `country.dfy` | `Countries` | `Country.java`: a value identified by its grid cell; ids live in a separate map |
| `edge.dfy` | `Edges` | `Edge.java`: an ordered pair of countries, order-sensitive equality, hash code |
| `world.dfy` | `Worlds` | `World.java`: the `World` class with its six fields, and both `collectNeighborCountries` overloads |
| `sizing.dfy` | `Sizing` | the generator's numeric policies, each an exact integer formula proved equal to the source's truncated arithmetic computed over the reals |
| `grid.dfy` | `Grid` | the edges `initEdges` creates, described independently and counted, and the cells `initCountries` creates |
| `contraction.dfy` | `Contraction` | the edge rewrites of `mergeIntoCountry`, `removeDuplicateAndCircularEdges` and `removeUnusedEdges` |
| `connectivity.dfy` | `Connectivity` | the edge set after a sequence of merges, and the walk argument that every merge on a connected map of three or more countries removes exactly one country |
| `continents.dfy` | `ContinentRules` | what a grown continent is, the continent list's invariants, and `removeUnconnectedContinents` as a filter |
| `generator.dfy` | `Generator` | the `RandomWorldGenerator` class: every step of the pipeline as a method over the grid array and the world's fields |
| `uniqueness.dfy` | `Uniqueness` | duplicate-freedom and cardinality facts that the other modules use |

Modelling choices:

- **Random choices.** Every random pick from a collection is Dafny's `:|`,
  so every proof holds whatever is picked.
- **The growth coin.** The coin that continues continent growth
  (`Math.random() < 0.7`) is an injected function `keepGrowing(pass, step)`, where `step` counts
  the tosses of a pass from 0.
- **The bonus jitter.** The bonus jitter `Math.random()` is an injected
  function `bonusJitter(pass)` with values in `[0, 1)`.
- **Country ids.** `Country.id` is the only mutable part of a country, and
  equality ignores it. Ids are therefore a map `countryIds` held by the
  generator. A country absent from the map has id `-1`.
- **Edges.** An `Edge` is an immutable pair. `mergeIntoCountry`, which
  mutates edge endpoints in place, replaces the pair inside the edge list.
- **The generator.** `RandomWorldGenerator` is a class:
  - the grid is an `array2`;
  - `countriesUsedInContinents` and `countriesNotUsedInContinents` are set
    fields.
- **Step-by-step methods.** Each pipeline step is a method proved against a
  specification function or predicate. The whole pipeline ends in
  `Finalised(world, countryIds)`. That predicate states:
  - sound, connected continents;
  - ids that are `0 .. n - 1` both ways;
  - `maxRounds` computed from the country count;
  - the draw properties.

The model follows the code where the code differs from what its names
and constants suggest (a continent of at most MAX_CONTINENT_SIZE = 6
members, continent ids 1 .. k, a merge loop that always finds a country):

- **Continent size.** A kept continent can have MAX_CONTINENT_SIZE + 1 = 7
  members, because the size test follows the add
  (`RandomWorldGenerator.java:272-278`). `GrownContinent` allows 2 .. 7
  members.
- **Discarded seeds.** A discarded single-country seed stays in
  `countriesUsedInContinents` and is never drawn again (:260, :288-289).
  `MakeContinentPass` shows that this is what makes the pool shrink.
- **Continent ids.** Ids are not renumbered after
  `removeUnconnectedContinents`. The final ids are positive and increasing
  (`ContinentsFinal`), but not necessarily `1 .. k`.
- **Small or negative goals.**
  - A goal of zero or less gives an empty grid. A negative cell count
    makes `Math.sqrt` return NaN, which the cast turns into 0.
  - A goal of one needs two merges on a grid of two cells (see
    `Sizing.SingleCountryGoalOvershoots`). The second random draw then
    comes from an empty set, which the source does not guard against. The
    model reports this as `ok == false` instead of requiring a larger goal.
  - Every other goal succeeds: `GenerateWorld` has `ok` exactly when the
    goal is not one. From a width of 2 the grid has at least 6 cells, at
    most cells - 2 merges are asked for, and a merge on a connected map of
    three or more countries removes exactly one country
    (`Connectivity.MergeRemovesExactlyOne`), so a country is always left to
    draw.
- **The retry branch.** The retry in `combineCountryCells` (:183-187) fires
  when a country's drawn neighbour is the country itself. The edge list
  never holds a self-loop there: the grid has none and every
  de-duplication removes them. The model proves that the branch is never
  taken, instead of looping on it.

## Model

| member | source | states |
|---|---|---|
| Countries.NewCountryIsUnassigned | src/generator/model/Country.java:25-33 | a newly constructed country has id -1 |
| Countries.Equals | src/generator/model/Country.java:35-60 | two countries are equal iff their original grid X and Y coordinates are equal; the id plays no part |
| Countries.EqualsReflexive | src/generator/model/Country.java:37-40 | equals is reflexive |
| Countries.HashCodeAgreesWithEquals | src/generator/model/Country.java:63-70 | equal countries have equal hash codes 31 * (31 + x) + y |
| Edges.ConstructorStoresEndpoints | src/generator/model/Edge.java:28-32 | the constructor stores the left and right country as given |
| Edges.Equals | src/generator/model/Edge.java:35-73 | two edges are equal iff the left endpoints are equal and the right endpoints are equal |
| Edges.EqualsIsOrderSensitive | src/generator/model/Edge.java:49-72 | Edge(a, b) equals Edge(b, a) only when a equals b |
| Edges.EqualsReflexive | src/generator/model/Edge.java:37-40 | equals is reflexive |
| Edges.HashCodeAgreesWithEquals | src/generator/model/Edge.java:76-83 | equal edges have equal hash codes |
| Worlds.World.constructor | src/generator/model/World.java:33-38 | a new world has no continents, ids, edges, starting or wasteland countries, and maxRounds 0 |
| Worlds.World.CollectNeighborCountries | src/generator/model/World.java:50-65 | b is returned iff some edge is (c, b) or (b, c); the world is not changed |
| Worlds.World.CollectContinentNeighborCountries | src/generator/model/World.java:40-48 | returns the union of the neighbour sets of the continent's members; the world is not changed |
| Worlds.NeighborsIff | src/generator/model/World.java:50-65 | b is a neighbour of c iff Edge(c, b) or Edge(b, c) is in the edge list |
| Worlds.AllCountriesIff | src/generator/RandomWorldGenerator.java:140-149 | c is a collected country iff some edge touches c |
| Worlds.EndpointsAreCountries | src/generator/RandomWorldGenerator.java:140-149 | both endpoints of every edge are collected countries |
| Worlds.ContinentNeighborsIff | src/generator/model/World.java:40-48 | b neighbours the continent iff it neighbours one of its members |
| Worlds.MemberNeighborsInContinentNeighbors | src/generator/model/World.java:40-48 | every member's neighbour set is contained in the continent's |
| Worlds.ContinentNeighborsMonotone | src/generator/model/World.java:40-48 | adding members never removes a continent neighbour |
| Worlds.NeighborsSymmetric | src/generator/model/World.java:55-62 | b is a neighbour of a iff a is a neighbour of b |
| Worlds.SelfNeighborIffSelfLoop | src/generator/model/World.java:55-62 | c is its own neighbour iff the self-loop (c, c) is an edge |
| Worlds.NoSelfNeighbor | src/generator/model/World.java:55-62 | without self-loops no country is its own neighbour |
| Worlds.NeighborsAreCountries | src/generator/model/World.java:53-63 | every neighbour is a collected country |
| Worlds.CountriesHaveNeighbors | src/generator/model/World.java:50-65 | every collected country has a neighbour, so the neighbour draw at RandomWorldGenerator.java:181 is never from an empty set |
| Worlds.ContinentNeighborsAreCountries | src/generator/model/World.java:40-48 | every continent neighbour is a collected country |
| Worlds.ReversedEdgeAddsNoNeighbors | src/generator/model/World.java:55-62 | adding the reverse (b, a) of an existing edge (a, b) changes no neighbour set |
| Sizing.Trunc | src/generator/RandomWorldGenerator.java:69 | the (int) cast truncates toward zero: the result is within 1 of the value, on the side of zero |
| Sizing.GridCellCount | src/generator/RandomWorldGenerator.java:69 | the cell count is the truncation of goal * 2.5 * 1.12 over the reals |
| Sizing.ISqrt | src/generator/RandomWorldGenerator.java:70 | r * r <= n < (r + 1) * (r + 1) |
| Sizing.GridWidth | src/generator/RandomWorldGenerator.java:70 | the width is the integer square root of the cell count, and 0 when the cell count is not positive |
| Sizing.CombineCount | src/generator/RandomWorldGenerator.java:176-178 | the number of merges is the least integer not below W * H * 1.5 / 2.5 |
| Sizing.MaxRounds | src/generator/RandomWorldGenerator.java:103-106 | maxRounds is the truncation of n * 2.5 |
| Sizing.WastelandCount | src/generator/RandomWorldGenerator.java:132 | the number of wasteland draws is the truncation of k / 2.4 |
| Sizing.ContinentBonus | src/generator/RandomWorldGenerator.java:112-115 | for a continent of at least 2 members and a jitter in [0, 1) the bonus lies in 0 .. size + 1 |
| Sizing.BonusWithoutJitter | src/generator/RandomWorldGenerator.java:112-115 | a continent of 3 with random 0.375, where the jitter term is exactly 0, gets bonus 2 |
| Sizing.CombineCountFitsGrid | src/generator/RandomWorldGenerator.java:174-178 | from 3 cells on, between 1 and cells - 1 merges are attempted |
| Sizing.SingleCountryGoalOvershoots | src/generator/RandomWorldGenerator.java:174-180 | a goal of one country gives a 1 by 2 grid and asks for 2 merges |
| Sizing.WidthOneOnlyForGoalOne | src/generator/RandomWorldGenerator.java:69-70 | the grid is one column wide iff the goal is one country, and at least two wide iff the goal is at least two |
| Sizing.WideGridHasSixCells | src/generator/RandomWorldGenerator.java:70-71 | a grid at least 2 wide has at least 6 cells |
| Sizing.CombineCountLeavesTwo | src/generator/RandomWorldGenerator.java:176-178 | from 5 cells on, at most cells - 2 merges are asked for |
| Grid.GridEdgesIff | src/generator/RandomWorldGenerator.java:229-248 | an edge is created iff it goes from a grid cell to the cell on its right or the cell below it |
| Grid.GridEdgesNoSelfLoops | src/generator/RandomWorldGenerator.java:229-248 | no created edge is a self-loop |
| Grid.GridEdgesDistinct | src/generator/RandomWorldGenerator.java:229-248 | no edge is created twice |
| Grid.GridEdgesCount | src/generator/RandomWorldGenerator.java:229-248 | exactly (W - 1) * H + W * (H - 1) edges are created |
| Grid.ColumnIsNew | src/generator/RandomWorldGenerator.java:231-247 | no edge of column x was created by an earlier column |
| Grid.ColumnCellsCount | src/generator/RandomWorldGenerator.java:218-227 | column x of the grid has exactly H cells |
| Grid.GridCellsCount | src/generator/RandomWorldGenerator.java:218-227 | the grid has exactly W * H cells |
| Contraction.MergeEdgesAt | src/generator/RandomWorldGenerator.java:298-308 | merging keeps the edge count and position: edge i becomes edge i with each endpoint equal to the merged-away country replaced by the target |
| Contraction.MergedCountries | src/generator/RandomWorldGenerator.java:298-308 | when the merged-away country occurs, the countries afterwards are the old ones without it plus the target; otherwise they are unchanged |
| Contraction.WithoutSelfLoops | src/generator/RandomWorldGenerator.java:384-391 | keeps exactly the non-self-loop edges and keeps a duplicate-free list duplicate-free |
| Contraction.WithoutTouching | src/generator/RandomWorldGenerator.java:419-431 | keeps exactly the edges with neither endpoint among the unused countries |
| Contraction.DeduplicatedHasNoSelfLoops | src/generator/RandomWorldGenerator.java:379-392 | a de-duplicated list has no self-loop |
| Contraction.DeduplicationIdempotent | src/generator/RandomWorldGenerator.java:379-392 | de-duplicating twice gives the same edges, each once, as de-duplicating once |
| Contraction.DeduplicatedCountries | src/generator/RandomWorldGenerator.java:379-392 | de-duplication invents no country |
| Contraction.MergeStepShrinks | src/generator/RandomWorldGenerator.java:189-190 | a merge followed by de-duplication leaves no edge touching the merged-away country and adds no country |
| Connectivity.DeduplicatedIsMergeSet | src/generator/RandomWorldGenerator.java:189-190 | a merge followed by de-duplication leaves exactly the set of merged images of the old edges that are not self-loops |
| Connectivity.MergeSetRemovesCountry | src/generator/RandomWorldGenerator.java:189-190 | no edge of the merged set touches the merged-away country |
| Connectivity.WalkSurvivesMerge | src/generator/RandomWorldGenerator.java:189-190 | a walk between two countries becomes, with the merged-away country replaced, a walk between their images |
| Connectivity.ConnectedAfterMerge | src/generator/RandomWorldGenerator.java:189-190 | a map connected from a root stays connected from the root's image after a merge |
| Connectivity.WalkCrosses | src/generator/RandomWorldGenerator.java:189-190 | a walk from inside a set of countries to outside it uses an edge with exactly one endpoint in the set |
| Connectivity.PairIsLeft | src/generator/RandomWorldGenerator.java:189-190 | on a connected map of three or more countries some edge has exactly one endpoint in the merged pair |
| Connectivity.OthersSurvive | src/generator/RandomWorldGenerator.java:189-190 | every country other than the two merged ones keeps an edge after the merge |
| Connectivity.IntoCountrySurvives | src/generator/RandomWorldGenerator.java:189-190 | on a connected map of three or more countries the country merged into keeps an edge |
| Connectivity.MergeRemovesExactlyOne | src/generator/RandomWorldGenerator.java:180-190 | on a connected map of three or more countries a merge of a neighbour removes exactly that country and leaves the map connected |
| Connectivity.EdgeHasTwoCountries | src/generator/RandomWorldGenerator.java:140-149 | a non-empty edge list without self-loops has at least two countries |
| Connectivity.GridCountries | src/generator/RandomWorldGenerator.java:218-248 | from two rows on, the countries on the grid edges are exactly the grid cells |
| Connectivity.GridConnected | src/generator/RandomWorldGenerator.java:229-248 | from two rows on, every cell is reached from the top-left cell along the grid edges |
| ContinentRules.CountriesInIff | src/generator/RandomWorldGenerator.java:164-172 | a country is a continent country iff some continent lists it |
| ContinentRules.GrowStep | src/generator/RandomWorldGenerator.java:263-273 | adding an unplaced neighbour of the whole region keeps it grown and duplicate-free |
| ContinentRules.DisjointAppend | src/generator/RandomWorldGenerator.java:281-286 | appending a continent with no already placed member keeps the continents pairwise disjoint |
| ContinentRules.GrownMembersAreCountries | src/generator/RandomWorldGenerator.java:256-279 | every member of a grown region of two or more is a collected country |
| ContinentRules.ContinentCountriesAreCountries | src/generator/RandomWorldGenerator.java:250-294 | every continent country is a collected country |
| ContinentRules.DenseIdsIncrease | src/generator/RandomWorldGenerator.java:283 | ids 1 .. k in append order are positive and increasing |
| ContinentRules.KeepContinent | src/generator/RandomWorldGenerator.java:281-286 | keeping a grown continent with id k + 1 and fresh members keeps the list sound and its ids 1 .. k + 1, and adds exactly its members |
| ContinentRules.ExactlyOneContinent | src/generator/RandomWorldGenerator.java:164-172 | in disjoint continents every continent country lies in exactly one continent |
| ContinentRules.ConnectedOnly | src/generator/RandomWorldGenerator.java:401-417 | a continent survives iff it is in the list and its neighbour set is not equal in size to its member set; the list never grows |
| ContinentRules.ConnectedOnlySound | src/generator/RandomWorldGenerator.java:401-417 | the survivors of a sound list are sound |
| ContinentRules.ConnectedOnlyDisjoint | src/generator/RandomWorldGenerator.java:401-417 | the survivors of a pairwise disjoint list are pairwise disjoint |
| ContinentRules.ConnectedOnlyKeepsIdOrder | src/generator/RandomWorldGenerator.java:401-417 | the survivors keep their order and ids, so increasing ids stay increasing |
| ContinentRules.AddAll | src/generator/RandomWorldGenerator.java:169 | adding a list to an insertion-ordered set gives the union, still duplicate-free |
| ContinentRules.CountriesInOrder | src/generator/RandomWorldGenerator.java:164-172 | the continent countries, each once, in continent-then-member order |
| ContinentRules.InContinentOrder | src/generator/RandomWorldGenerator.java:164-172 | for disjoint, duplicate-free continents the ordered set is simply every continent's members in turn |
| ContinentRules.GrownMembersAreNeighbors | src/generator/RandomWorldGenerator.java:401-417 | every member of a grown continent of two or more neighbours the continent, so its neighbour set is at least its member set |
| ContinentRules.UnconnectedIffNoOutsideNeighbor | src/generator/RandomWorldGenerator.java:394-417 | for a grown continent the size test is true iff no neighbour lies outside the continent |
| ContinentRules.GrowthSurvivesPruning | src/generator/RandomWorldGenerator.java:419-431 | removing edges that touch only unused countries keeps a continent's growth record |
| ContinentRules.SoundnessSurvivesPruning | src/generator/RandomWorldGenerator.java:419-431 | removeUnusedEdges keeps the continent list sound |
| ContinentRules.PrunedEdgesStayInContinents | src/generator/RandomWorldGenerator.java:419-431 | after removeUnusedEdges every edge joins two continent countries |
| ContinentRules.OnePerContinentAreDistinct | src/generator/RandomWorldGenerator.java:117-126 | one pick from each of k disjoint continents gives k different countries |
| Generator.ContractStep | src/generator/RandomWorldGenerator.java:178-190 | one merge and de-duplication keeps the merge loop's invariant: the edges are the contracted set, each once and without self-loops, every merge is of neighbours, no merged-away country is left, and from six cells on the map stays connected and loses exactly one country per merge |
| Generator.ContractEdgesStep | src/generator/RandomWorldGenerator.java:180-190 | after one merge of a neighbour and de-duplication the edge list holds, each once and without self-loops, the contracted set one merge further |
| Generator.GridStartsContraction | src/generator/RandomWorldGenerator.java:218-248 | the initial grid satisfies the merge loop's invariant with no merges, and every cell is a country on it |
| Generator.TrackCellsStep | src/generator/RandomWorldGenerator.java:309-318 | after one more merge no cell's country is a merged-away one and, on a wide grid, every cell's country still has an edge |
| Generator.FirstContinentKept | src/generator/RandomWorldGenerator.java:255-273 | the first continent, grown from an unused seed on a map without self-loops, has at least two members: the seed's neighbours are all unused at the start |
| Generator.DrawStep | src/generator/RandomWorldGenerator.java:133-137 | one more draw of a continent country keeps the draw invariant: the wastelands are the old ones plus the drawn ones, and grow by at most one per draw |
| Generator.StoppedWithoutNeighbors | src/generator/RandomWorldGenerator.java:263-269 | growth that found no unused neighbour has stopped by the rule: every neighbour of the continent is used |
| Generator.GrowthNext | src/generator/RandomWorldGenerator.java:263-273 | adding an unused neighbour keeps the growth invariant: a duplicate-free grown region of fresh countries, with used = old used + members |
| Generator.OrderNumberNext | src/generator/RandomWorldGenerator.java:80-87 | numbering the next country of a duplicate-free order with its position keeps the numbering consistent both ways |
| Generator.PruningFinal | src/generator/RandomWorldGenerator.java:401-417 | dropping the unconnected continents from a sound list with ids 1 .. k leaves sound, connected continents with positive increasing ids |
| Generator.NumberingFinal | src/generator/RandomWorldGenerator.java:75-88 | numbering the ordered continent countries by position makes ids 0 .. n - 1, with countriesById[i] having id i and every continent country numbered |
| Generator.DrawingFinal | src/generator/RandomWorldGenerator.java:117-138 | the draws give continent-country wastelands, at most k / 2.4 of them, exactly one starting country per continent, and no starting country is a wasteland |
| Generator.PicksCoverContinents | src/generator/RandomWorldGenerator.java:117-126 | the starting picks are continent countries and every continent has one |
| Generator.RandomWorldGenerator.constructor | src/generator/RandomWorldGenerator.java:67-73 | width and height follow the sizing policy, the grid array is fresh, and the world is empty |
| Generator.RandomWorldGenerator.InitCountries | src/generator/RandomWorldGenerator.java:218-227 | every cell (x, y) holds the country created at (x, y) |
| Generator.RandomWorldGenerator.InitEdges | src/generator/RandomWorldGenerator.java:229-248 | the edge list is extended by exactly the grid edges in creation order |
| Generator.RandomWorldGenerator.InitColumnEdges | src/generator/RandomWorldGenerator.java:233-246 | the inner loop creates the edges of column x in order |
| Generator.RandomWorldGenerator.InitCellEdges | src/generator/RandomWorldGenerator.java:235-245 | one cell contributes its right edge and then its down edge, each only when that cell exists |
| Generator.RandomWorldGenerator.CollectAllCountries | src/generator/RandomWorldGenerator.java:140-149 | returns every endpoint of every edge |
| Generator.RandomWorldGenerator.MergeIntoCountry | src/generator/RandomWorldGenerator.java:296-320 | every edge endpoint equal to the merged-away country becomes the target; when there was at least one edge every grid cell holding it is repointed too, otherwise the grid is unchanged |
| Generator.RandomWorldGenerator.RepointCells | src/generator/RandomWorldGenerator.java:309-318 | every cell holding the country now holds the target, and every other cell is unchanged |
| Generator.RandomWorldGenerator.RemoveDuplicateAndCircularEdges | src/generator/RandomWorldGenerator.java:379-392 | the new list holds no edge twice and exactly the old non-self-loop edges |
| Generator.RandomWorldGenerator.CombineCountryCells | src/generator/RandomWorldGenerator.java:174-192 | succeeds exactly when the grid is not one column wide, after exactly CombineCount merges, each of a neighbour into a country at its step; the edge list then holds, each once and without self-loops, exactly the grid edges contracted by those merges; no merged-away country has an edge, on a wide grid W * H - CombineCount countries remain, every cell holds its own country's image under the merges and never a merged-away one, and on success every cell's country has an edge; on failure no edge is left |
| Generator.RandomWorldGenerator.AssignTemporaryCountryIds | src/generator/RandomWorldGenerator.java:90-101 | every collected country gets a distinct id in 0 .. n - 1; other ids are kept |
| Generator.RandomWorldGenerator.CollectCountriesInContinents | src/generator/RandomWorldGenerator.java:164-172 | returns the continent countries, each once, in continent-then-member order |
| Generator.RandomWorldGenerator.GrowContinent | src/generator/RandomWorldGenerator.java:256-279 | the continent starts at the seed and has 1 .. 7 duplicate-free members of fresh countries, each after the seed a neighbour of the earlier ones; they are all marked used; the coin said keep growing after every add but the last, and when the continent stopped at 6 or fewer members without a losing coin toss, every neighbour of it was already used |
| Generator.RandomWorldGenerator.MakeContinentPass | src/generator/RandomWorldGenerator.java:257-289 | one pass grows a continent from an unused seed under the stop rule above, marks exactly its members used, appends it with id k + 1 and the bonus for its size when it has at least MIN_CONTINENT_SIZE members and otherwise leaves the list as it was; the list stays sound with ids 1 .. k and the unused pool strictly shrinks |
| Generator.RandomWorldGenerator.MakeContinents | src/generator/RandomWorldGenerator.java:250-294 | terminates with a sound list with ids 1 .. k that extends the list it started with; every country is used; the unused set is exactly the countries in no continent; started from nothing on a nonempty map without self-loops, it keeps at least one continent |
| Generator.RandomWorldGenerator.RemoveUnusedEdges | src/generator/RandomWorldGenerator.java:419-431 | removes exactly the edges touching a country in no continent, keeping the order |
| Generator.RandomWorldGenerator.RemoveUnconnectedContinents | src/generator/RandomWorldGenerator.java:401-417 | removes exactly the continents whose neighbour set is the size of their member set, keeping the order and ids |
| Generator.RandomWorldGenerator.AssignFinalCountryIds | src/generator/RandomWorldGenerator.java:75-88 | the k-th country in continent order gets id k and countriesById[k] is that country; other ids and keys are kept |
| Generator.RandomWorldGenerator.CalculateMaxRounds | src/generator/RandomWorldGenerator.java:103-106 | maxRounds is MaxRounds of the number of distinct continent countries |
| Generator.RandomWorldGenerator.ChooseWastelandCountries | src/generator/RandomWorldGenerator.java:128-138 | makes exactly WastelandCount(k) draws, each a continent country, and the wastelands become the old ones plus the drawn ones; so at most WastelandCount(k) are added and none removed |
| Generator.RandomWorldGenerator.ChooseStartingCountries | src/generator/RandomWorldGenerator.java:117-126 | adds one member of every continent to the starting countries, then removes the starting countries from the wastelands |
| Generator.RandomWorldGenerator.BuildContinents | src/generator/RandomWorldGenerator.java:196-203 | the first block of generate succeeds exactly when the grid is not one column wide; the merges are of neighbours, CombineCount of them on success, and the combined edges are the grid edges contracted by them; on success the continents grown on the combined map (ghost `grown`) are sound with ids 1 .. k, nonempty from a width of two on, and leave exactly the unused countries out; the final edges are the combined ones without those touching unused countries, and the final continents are the grown ones still connected, with positive increasing ids; on failure no edge is left |
| Generator.RandomWorldGenerator.NumberCountries | src/generator/RandomWorldGenerator.java:205-206 | the second block numbers the continent countries 0 .. n - 1 both ways, in continent order (the k-th country of `CountriesInOrder` has id k), and sets maxRounds from n |
| Generator.RandomWorldGenerator.FinishWorld | src/generator/RandomWorldGenerator.java:205-209 | the last two blocks of generate turn sound, connected continents into a finalised world numbered in continent order, leaving edges and continents as they were |
| Generator.RandomWorldGenerator.DrawCountries | src/generator/RandomWorldGenerator.java:208-209 | the third block gives the final draw properties |
| Generator.RandomWorldGenerator.Generate | src/generator/RandomWorldGenerator.java:194-216 | a run succeeds exactly when the grid is not one column wide, and then ends in a finalised world: sound, connected continents, ids 0 .. n - 1 both ways in continent order, maxRounds from n, and the draw properties; the world is pinned by `Built`: CombineCount neighbour merges contract the grid map, the final edges and continents are the pruning of the continents grown on it, and on a grid two wide or more there is at least one grown continent; a failed run leaves no edges |
| Generator.RandomWorldGenerator.GenerateWorld | src/generator/RandomWorldGenerator.java:53-57 | the public entry point succeeds exactly when the goal is not one country, and then returns a finalised world, numbered in continent order and pinned by `Built` on the grid the goal sizes, with at least one grown continent for a goal of two or more; a failed run leaves no edges |

## Left out

- Printing: `printCountryLayout`, `printContinentLayout`, `printContinentSummary` and `World.printSetup` only write text to the console.
- Probabilities: the 0.7 continuation probability and the uniform distribution of the random picks are not modelled. Every pick is an arbitrary element and the coin is an arbitrary function, so every property holds for all outcomes.
- The bonus jitter is an arbitrary real in [0, 1). Double rounding in `chooseContinentBonus` is not modelled.
- Double rounding of `goalCountryCount * 2.5 * 1.12` (RandomWorldGenerator.java:69) and of `world.continents.size() / 2.4` (:132) is not modelled: `Sizing.GridCellCount` and `Sizing.WastelandCount` truncate the exact real values, and the model does not state whether the rounded double ever truncates to a different integer.
- `collectContinentsByCountry` has no caller in the pipeline. It is not part of this model.
- `Countries.HashCode`, `Edges.HashCode`: 32-bit wrap-around is not modelled. Java hash codes are used only by the hash collections, whose iteration order the model treats as arbitrary anyway.
- The null-endpoint branches of `Edge.equals` and `hashCode` are not modelled, because no edge has a null endpoint.
- 32-bit overflow of `gridWidth * gridHeight` and of the casts is not modelled. Integers are unbounded.
- The iteration order of hash sets is arbitrary in the model. This applies to `Lists.of(Sets.of(edges))` and the set iterators of the id passes. Only the `LinkedHashSet` of `collectCountriesInContinents` has a defined order, and it is modelled.
- `Country.id` is the map `countryIds` rather than a field of each country. Equality never reads it, so the behaviour is the same.
- `iterator.remove()` filters are modelled by building the list of survivors, in the same order.
- Generator.RandomWorldGenerator.MergeIntoCountry: the source repeats the grid rewrite once per edge. The model does it once, which gives the same grid because the rewrite is idempotent.
- Generator.RandomWorldGenerator.Generate: the blocks of `generate` are the methods `BuildContinents`, `NumberCountries` and `DrawCountries` (the last two inside `FinishWorld`), which call the steps in the source's order. Likewise, the two loops of `initEdges` and one pass of `makeContinents`' outer loop are separate methods.
- Generator.RandomWorldGenerator.MakeContinents: the contract states that the continent list only grows and that a first run on a nonempty map keeps a continent, but not the stop rule of every pass. That is stated per pass by `MakeContinentPass`, whose ghost result is the continent grown in the pass.
- Global connectivity: like the source's own documented limitation, two continents adjacent only to each other survive pruning. The model proves only that no surviving continent lacks an outside neighbour.
