/** The generation pipeline (RandomWorldGenerator.java). Random draws are
    modelled by `:|` (any element of a non-empty collection, so every proof
    holds whatever is drawn); the growth coin and the bonus jitter are
    injected functions. */
module Generator {
  import opened Countries
  import opened Edges
  import opened Uniqueness
  import opened Worlds
  import opened Sizing
  import opened Grid
  import opened Contraction
  import opened Connectivity
  import opened ContinentRules

  /** `ids` extends `ids0` by numbering the countries of `done` with
      distinct ids below `id`, one id per country. */
  ghost predicate NumberedSoFar(ids: map<Country, int>, ids0: map<Country, int>, done: set<Country>, id: int) {
    && id == |done|
    && (forall c :: c in ids <==> c in ids0 || c in done)
    && (forall c :: c in done ==> 0 <= ids[c] < id)
    && (forall c, d :: c in done && d in done && c != d ==> ids[c] != ids[d])
    && (forall c :: c in ids0 && c !in done ==> ids[c] == ids0[c])
  }

  /** Numbering one more country with the next id keeps the numbering. */
  lemma NumberNext(ids: map<Country, int>, ids0: map<Country, int>, done: set<Country>, id: int, country: Country)
    requires NumberedSoFar(ids, ids0, done, id) && country !in done
    ensures NumberedSoFar(ids[country := id], ids0, done + {country}, id + 1)
  {
  }

  /** A region being grown from countries outside `used0`: duplicate-free,
      grown through neighbours, made of countries, and `used` is `used0`
      plus its members. */
  ghost predicate GrowthSoFar(edges: seq<Edge>, members: seq<Country>, used0: set<Country>, used: set<Country>) {
    && NoDuplicates(members) && GrownFrom(edges, members)
    && used == used0 + Elements(members)
    && Elements(members) <= AllCountries(edges) && Elements(members) !! used0
  }

  /** Adding an unused neighbour of the region keeps the growth invariant. */
  lemma GrowthNext(edges: seq<Edge>, members: seq<Country>, used0: set<Country>, used: set<Country>, next: Country)
    requires GrowthSoFar(edges, members, used0, used)
    requires next in ContinentNeighbors(edges, members) && next !in used
    ensures GrowthSoFar(edges, members + [next], used0, used + {next})
  {
    ContinentNeighborsAreCountries(edges, members);
    GrowStep(edges, members, next);
    assert Elements(members + [next]) == Elements(members) + {next};
  }

  /** Why the growth of `members` in pass `pass` stopped: the coin came up
      "keep growing" after every add but the last, and when the continent
      neither outgrew MAX_CONTINENT_SIZE nor lost the last coin toss, no
      neighbour of it was left outside `used`. */
  ghost predicate GrowthStopped(edges: seq<Edge>, members: seq<Country>, used: set<Country>,
                                keepGrowing: (nat, nat) -> bool, pass: nat)
  {
    && CoinsKept(members, keepGrowing, pass)
    && (|members| <= MaxContinentSize && (|members| < 2 || keepGrowing(pass, |members| - 2)) ==>
          ContinentNeighbors(edges, members) <= used)
  }

  /** The coin said "keep growing" after every add but the last. */
  ghost predicate CoinsKept(members: seq<Country>, keepGrowing: (nat, nat) -> bool, pass: nat) {
    forall step: nat :: step + 2 < |members| ==> keepGrowing(pass, step)
  }

  /** The first continent grown from an unused seed on a map without
      self-loops reaches two members, so it is kept: the seed has a
      neighbour, and that neighbour is not used yet. */
  lemma FirstContinentKept(edges: seq<Edge>, members: seq<Country>, usedBefore: set<Country>,
                           unusedBefore: set<Country>, used: set<Country>,
                           keepGrowing: (nat, nat) -> bool, pass: nat)
    requires NoSelfLoops(edges) && |members| >= 1
    requires usedBefore == {} && unusedBefore == AllCountries(edges) - usedBefore && members[0] in unusedBefore
    requires used == usedBefore + Elements(members)
    requires GrowthStopped(edges, members, used, keepGrowing, pass)
    ensures |members| >= 2
  {
    if |members| == 1 {
      var seed := members[0];
      assert members[..0] == [];
      assert ContinentNeighbors(edges, members) == Neighbors(edges, seed);
      CountriesHaveNeighbors(edges, seed);
      NoSelfNeighbor(edges, seed);
      assert false;
    }
  }

  /** Growth that ran out of unused neighbours has stopped by the rule. */
  lemma StoppedWithoutNeighbors(edges: seq<Edge>, members: seq<Country>, used: set<Country>,
                                keepGrowing: (nat, nat) -> bool, pass: nat)
    requires CoinsKept(members, keepGrowing, pass)
    requires ContinentNeighbors(edges, members) - used == {}
    ensures GrowthStopped(edges, members, used, keepGrowing, pass)
  {
    assert ContinentNeighbors(edges, members) <= used by {
      forall c | c in ContinentNeighbors(edges, members) ensures c in used {
        assert c !in ContinentNeighbors(edges, members) - used;
      }
    }
  }

  /** Growth that outgrew MAX_CONTINENT_SIZE or lost the coin toss after
      its last add has stopped by the rule. */
  lemma StoppedBySizeOrCoin(edges: seq<Edge>, members: seq<Country>, used: set<Country>,
                            keepGrowing: (nat, nat) -> bool, pass: nat)
    requires CoinsKept(members, keepGrowing, pass) && |members| >= 2
    requires |members| > MaxContinentSize || !keepGrowing(pass, |members| - 2)
    ensures GrowthStopped(edges, members, used, keepGrowing, pass)
  {
  }

  /** Adding a member after a winning coin toss keeps the coin record. */
  lemma CoinNext(members: seq<Country>, next: Country, keepGrowing: (nat, nat) -> bool, pass: nat)
    requires CoinsKept(members, keepGrowing, pass)
    requires |members| < 2 || keepGrowing(pass, |members| - 2)
    ensures CoinsKept(members + [next], keepGrowing, pass)
  {
  }

  /** The wasteland draws so far: each from `placed`, and the wastelands
      are the earlier ones plus the drawn countries, so they gain no more
      countries than there were draws. */
  ghost predicate DrawnSoFar(wastelands0: set<Country>, wastelands: set<Country>, draws: seq<Country>,
                             placed: set<Country>)
  {
    && (forall k :: 0 <= k < |draws| ==> draws[k] in placed)
    && Elements(draws) <= placed
    && wastelands == wastelands0 + Elements(draws)
    && |wastelands - wastelands0| <= |draws|
  }

  /** One more draw from `placed` keeps the record of the draws. */
  lemma DrawStep(wastelands0: set<Country>, wastelands: set<Country>, draws: seq<Country>,
                 placed: set<Country>, drawn: Country)
    requires DrawnSoFar(wastelands0, wastelands, draws, placed) && drawn in placed
    ensures DrawnSoFar(wastelands0, wastelands + {drawn}, draws + [drawn], placed)
  {
    assert Elements(draws + [drawn]) == Elements(draws) + {drawn};
    SubsetCardinality((wastelands + {drawn}) - wastelands0, (wastelands - wastelands0) + {drawn});
  }

  /** `ids` and `byId` extend `ids0` and `byId0` by numbering the first
      `id` countries of `order` with their positions, both ways. */
  ghost predicate OrderNumbered(ids: map<Country, int>, byId: map<int, Country>,
                                ids0: map<Country, int>, byId0: map<int, Country>,
                                order: seq<Country>, id: nat)
  {
    && id <= |order|
    && (forall c :: c in ids <==> c in ids0 || c in order[..id])
    && (forall k :: k in byId <==> k in byId0 || 0 <= k < id)
    && (forall k :: 0 <= k < id ==> byId[k] == order[k] && order[k] in ids && ids[order[k]] == k)
    && (forall k :: k in byId0 && !(0 <= k < id) ==> byId[k] == byId0[k])
    && (forall c :: c in ids0 && c !in order[..id] ==> ids[c] == ids0[c])
  }

  /** Numbering the next country of a duplicate-free order with its
      position keeps the numbering. */
  lemma OrderNumberNext(ids: map<Country, int>, byId: map<int, Country>,
                        ids0: map<Country, int>, byId0: map<int, Country>,
                        order: seq<Country>, id: nat)
    requires NoDuplicates(order) && OrderNumbered(ids, byId, ids0, byId0, order, id) && id < |order|
    ensures OrderNumbered(ids[order[id] := id], byId[id := order[id]], ids0, byId0, order, id + 1)
  {
    assert order[..id + 1] == order[..id] + [order[id]];
  }

  /** The merge loop's invariant after `merges`, starting from the edge set
      `edges0` of a grid of `cells` cells: the edge list holds the contracted
      edge set, each edge once and no self-loop; no merged-away country is
      left; every merge removed at least one country; and from six cells on
      the graph stays connected from `root` and every merge removed exactly
      one country. */
  ghost predicate ContractedSoFar(edges0: set<Edge>, cells: nat, edges: seq<Edge>, merges: seq<Merge>, root: Country) {
    && NoSelfLoops(edges) && NoDuplicates(edges)
    && ValidMerges(edges0, merges)
    && Elements(edges) == Contracted(edges0, merges)
    && (forall m :: m in merges ==> m.country !in AllCountries(edges))
    && |AllCountries(edges)| + |merges| <= cells
    && (cells >= 6 ==> ConnectedFrom(edges, root) && |AllCountries(edges)| + |merges| == cells)
  }

  /** The initial grid starts the merge loop: nothing merged yet, one
      country per cell, connected from the top-left cell. */
  lemma GridStartsContraction(gridWidth: nat)
    ensures ContractedSoFar(Elements(GridEdges(gridWidth, gridWidth + 1)), gridWidth * (gridWidth + 1),
                            GridEdges(gridWidth, gridWidth + 1), [], Country(0, 0))
    ensures forall x, y :: 0 <= x < gridWidth && 0 <= y < gridWidth + 1 ==>
      Country(x, y) in AllCountries(GridEdges(gridWidth, gridWidth + 1))
  {
    var height := gridWidth + 1;
    var edges := GridEdges(gridWidth, height);
    GridEdgesNoSelfLoops(gridWidth, height);
    GridEdgesDistinct(gridWidth, height);
    if gridWidth == 0 {
      assert edges == [];
      assert AllCountries(edges) == {};
    } else {
      GridCountries(gridWidth, height);
      GridCellsCount(gridWidth, height);
      GridConnected(gridWidth, height);
      forall x, y | 0 <= x < gridWidth && 0 <= y < height ensures Country(x, y) in AllCountries(edges) {
        assert Country(x, y) in GridCells(gridWidth, height);
      }
    }
  }

  /** One merge of a neighbour into a country, followed by deduplication,
      keeps the merge loop's invariant; from six cells on, while at least
      three countries are left, every country is still present or was
      replaced by the country merged into. */
  lemma ContractStep(edges0: set<Edge>, cells: nat, edges: seq<Edge>, merges: seq<Merge>, root: Country,
                     country: Country, intoCountry: Country, output: seq<Edge>)
    requires ContractedSoFar(edges0, cells, edges, merges, root)
    requires intoCountry in AllCountries(edges) && country in Neighbors(edges, intoCountry)
    requires DeduplicatedFrom(MergeEdges(edges, country, intoCountry), output)
    requires cells >= 6 ==> |merges| + 3 <= cells
    ensures ContractedSoFar(edges0, cells, output, merges + [Merge(country, intoCountry)],
                            Replace(root, country, intoCountry))
    ensures cells >= 6 ==>
      forall c :: c in AllCountries(edges) ==> Replace(c, country, intoCountry) in AllCountries(output)
  {
    var extended := merges + [Merge(country, intoCountry)];
    assert extended[..|merges|] == merges;
    ContractEdgesStep(edges0, edges, merges, country, intoCountry, output);
    NoSelfNeighbor(edges, intoCountry);
    NeighborsAreCountries(edges, intoCountry);
    MergeStepShrinks(edges, country, intoCountry, output);
    SubsetCardinality(AllCountries(output), AllCountries(edges) - {country});
    assert |AllCountries(edges) - {country}| == |AllCountries(edges)| - 1;
    if cells >= 6 {
      MergeRemovesExactlyOne(edges, root, country, intoCountry, output);
    }
  }

  /** The edge half of ContractStep: after the merge and de-duplication the
      edge list holds, each once and without self-loops, the contracted set
      one merge further, and that merge is of neighbours. */
  lemma ContractEdgesStep(edges0: set<Edge>, edges: seq<Edge>, merges: seq<Merge>,
                          country: Country, intoCountry: Country, output: seq<Edge>)
    requires NoSelfLoops(edges) && ValidMerges(edges0, merges) && Elements(edges) == Contracted(edges0, merges)
    requires country in Neighbors(edges, intoCountry)
    requires DeduplicatedFrom(MergeEdges(edges, country, intoCountry), output)
    ensures NoSelfLoops(output) && NoDuplicates(output)
    ensures ValidMerges(edges0, merges + [Merge(country, intoCountry)])
    ensures Elements(output) == Contracted(edges0, merges + [Merge(country, intoCountry)])
  {
    var extended := merges + [Merge(country, intoCountry)];
    assert extended[..|merges|] == merges;
    NoSelfNeighbor(edges, intoCountry);
    NeighborsIff(edges, intoCountry, country);
    assert Edge(country, intoCountry) in Elements(edges) || Edge(intoCountry, country) in Elements(edges);
    DeduplicatedHasNoSelfLoops(MergeEdges(edges, country, intoCountry), output);
    DeduplicatedIsMergeSet(edges, country, intoCountry, output);
  }

  /** What the cells of the grid became after `merges`: never a merged-away
      country, and, when `wide`, always a country that still has an edge. */
  ghost predicate CellsTracked(gridWidth: nat, gridHeight: nat, wide: bool, merges: seq<Merge>, edges: seq<Edge>) {
    && (forall x, y, m :: 0 <= x < gridWidth && 0 <= y < gridHeight && m in merges ==>
          ReplaceAll(Country(x, y), merges) != m.country)
    && (wide ==> forall x, y :: 0 <= x < gridWidth && 0 <= y < gridHeight ==>
          ReplaceAll(Country(x, y), merges) in AllCountries(edges))
  }

  /** Merging a neighbour into a country that was never merged away keeps
      the cells tracked. */
  lemma TrackCellsStep(gridWidth: nat, gridHeight: nat, wide: bool, merges: seq<Merge>, edges: seq<Edge>,
                       country: Country, intoCountry: Country, output: seq<Edge>)
    requires CellsTracked(gridWidth, gridHeight, wide, merges, edges)
    requires country != intoCountry && forall m :: m in merges ==> m.country != intoCountry
    requires wide ==> forall c :: c in AllCountries(edges) ==> Replace(c, country, intoCountry) in AllCountries(output)
    ensures CellsTracked(gridWidth, gridHeight, wide, merges + [Merge(country, intoCountry)], output)
  {
    var extended := merges + [Merge(country, intoCountry)];
    assert extended[..|merges|] == merges;
    forall x, y, m | 0 <= x < gridWidth && 0 <= y < gridHeight && m in extended
      ensures ReplaceAll(Country(x, y), extended) != m.country
    {
      if m in merges {
        assert ReplaceAll(Country(x, y), merges) != m.country;
      }
    }
    if wide {
      forall x, y | 0 <= x < gridWidth && 0 <= y < gridHeight
        ensures ReplaceAll(Country(x, y), extended) in AllCountries(output)
      {
        assert ReplaceAll(Country(x, y), merges) in AllCountries(edges);
      }
    }
  }

  /** What a generated world promises: sound, connected continents with
      increasing ids; the continent countries numbered 0 .. n - 1 both ways;
      the round limit from the country count; wastelands drawn from the
      continent countries, at most one per 2.4 continents; exactly one
      starting country per continent; and no starting country is a
      wasteland. */
  ghost predicate Finalised(world: World, countryIds: map<Country, int>)
    reads world
  {
    FinalState(world.edges, world.continents, world.countriesById, world.maxRounds,
               world.startingCountries, world.wastelandCountries, countryIds)
  }

  /** Finalised, on the world's fields as values. */
  ghost predicate FinalState(edges: seq<Edge>, continents: seq<Continent>, countriesById: map<int, Country>,
                             maxRounds: int, starting: set<Country>, wastelands: set<Country>,
                             countryIds: map<Country, int>)
  {
    && ContinentsFinal(edges, continents)
    && NumberedFinal(continents, countriesById, countryIds)
    && maxRounds == MaxRounds(|countriesById|)
    && DrawsFinal(continents, starting, wastelands)
  }

  /** Sound, connected continents whose ids are positive and increasing. */
  ghost predicate ContinentsFinal(edges: seq<Edge>, continents: seq<Continent>) {
    && ContinentsSound(edges, continents)
    && IncreasingIds(continents)
    && (forall i :: 0 <= i < |continents| ==> 1 <= continents[i].id)
    && (forall i :: 0 <= i < |continents| ==> !IsUnconnected(edges, continents[i]))
  }

  /** The continent countries are numbered 0 .. n - 1, and the id map and
      each country's id agree both ways. */
  ghost predicate NumberedFinal(continents: seq<Continent>, countriesById: map<int, Country>,
                                countryIds: map<Country, int>)
  {
    var n := |CountriesIn(continents)|;
    && (forall k :: k in countriesById <==> 0 <= k < n)
    && (forall k :: 0 <= k < n ==>
          countriesById[k] in CountriesIn(continents) && IdOf(countryIds, countriesById[k]) == k)
    && (forall c :: c in CountriesIn(continents) ==>
          0 <= IdOf(countryIds, c) < n && countriesById[IdOf(countryIds, c)] == c)
  }

  /** The continent countries, numbered in continent order: the k-th
      country met walking the continents and their members in order has
      id k. */
  ghost predicate NumberedInOrder(continents: seq<Continent>, countriesById: map<int, Country>) {
    forall k :: 0 <= k < |CountriesInOrder(continents)| ==>
      k in countriesById && countriesById[k] == CountriesInOrder(continents)[k]
  }

  /** How a world was built on a `gridWidth` x `gridHeight` grid: the grid
      map contracted by `merges`, all of the count the grid asks for, gives
      the `combined` country map; the continents grown on it, `grown`, are
      sound and numbered 1 .. n and leave out exactly the unused countries;
      the final edges are the combined ones not touching an unused country,
      and the final continents are the grown ones still connected. */
  ghost predicate Built(gridWidth: nat, gridHeight: nat, merges: seq<Merge>, combined: seq<Edge>,
                        grown: seq<Continent>, edges: seq<Edge>, continents: seq<Continent>)
  {
    && |merges| == CombineCount(gridWidth, gridHeight)
    && ValidMerges(Elements(GridEdges(gridWidth, gridHeight)), merges)
    && Elements(combined) == Contracted(Elements(GridEdges(gridWidth, gridHeight)), merges)
    && NoSelfLoops(combined) && NoDuplicates(combined)
    && ContinentsSound(combined, grown) && DenseIds(grown)
    && edges == WithoutTouching(combined, AllCountries(combined) - CountriesIn(grown))
    && continents == ConnectedOnly(edges, grown)
  }

  /** Wastelands and starting countries are continent countries, there is
      exactly one starting country per continent, at most one wasteland per
      2.4 continents, and the two sets are disjoint. */
  ghost predicate DrawsFinal(continents: seq<Continent>, starting: set<Country>, wastelands: set<Country>) {
    && wastelands <= CountriesIn(continents)
    && |wastelands| <= WastelandCount(|continents|)
    && starting <= CountriesIn(continents)
    && |starting| == |continents|
    && (forall i :: 0 <= i < |continents| ==> exists c :: c in continents[i].countries && c in starting)
    && starting !! wastelands
  }

  /** The continents of a final list are non-empty and pairwise disjoint. */
  lemma FinalContinentsNonEmpty(edges: seq<Edge>, continents: seq<Continent>)
    requires ContinentsFinal(edges, continents)
    ensures forall i :: 0 <= i < |continents| ==> continents[i].countries != []
    ensures PairwiseDisjoint(continents)
  {
  }

  /** The four parts of a final state, established separately, make it. */
  lemma FinalStateHolds(edges: seq<Edge>, continents: seq<Continent>, countriesById: map<int, Country>,
                        maxRounds: int, starting: set<Country>, wastelands: set<Country>,
                        countryIds: map<Country, int>)
    requires ContinentsFinal(edges, continents)
    requires NumberedFinal(continents, countriesById, countryIds)
    requires maxRounds == MaxRounds(|countriesById|)
    requires DrawsFinal(continents, starting, wastelands)
    ensures FinalState(edges, continents, countriesById, maxRounds, starting, wastelands, countryIds)
  {
  }

  /** Dropping the unconnected continents from a sound, densely numbered
      list leaves a final continent list. */
  lemma PruningFinal(edges: seq<Edge>, grown: seq<Continent>)
    requires ContinentsSound(edges, grown) && DenseIds(grown)
    ensures ContinentsFinal(edges, ConnectedOnly(edges, grown))
  {
    var continents := ConnectedOnly(edges, grown);
    ConnectedOnlySound(edges, grown);
    DenseIdsIncrease(grown);
    ConnectedOnlyKeepsIdOrder(edges, grown);
    assert forall i :: 0 <= i < |continents| ==> continents[i] in grown;
  }

  /** Numbering the continent countries in continent order gives a final
      numbering with one id per continent country. */
  lemma NumberingFinal(continents: seq<Continent>, countriesById: map<int, Country>, countryIds: map<Country, int>)
    requires var order := CountriesInOrder(continents);
      && (forall k :: k in countriesById <==> 0 <= k < |order|)
      && (forall k :: 0 <= k < |order| ==> countriesById[k] == order[k])
      && (forall k :: 0 <= k < |order| ==> order[k] in countryIds && countryIds[order[k]] == k)
    ensures NumberedFinal(continents, countriesById, countryIds)
    ensures |countriesById| == |CountriesIn(continents)|
  {
    var order := CountriesInOrder(continents);
    var n := |CountriesIn(continents)|;
    assert Elements(order) == CountriesIn(continents);
    DistinctCardinality(order);
    RangeCardinality(countriesById.Keys, n);
    forall c | c in CountriesIn(continents)
      ensures 0 <= IdOf(countryIds, c) < n && countriesById[IdOf(countryIds, c)] == c
    {
      var k :| 0 <= k < |order| && order[k] == c;
    }
  }

  /** One pick per continent, with the picks removed from the drawn
      wastelands, gives final draws. */
  lemma DrawingFinal(continents: seq<Continent>, picks: seq<Country>, drawn: set<Country>)
    requires PairwiseDisjoint(continents)
    requires drawn <= CountriesIn(continents) && |drawn| <= WastelandCount(|continents|)
    requires |picks| == |continents|
    requires forall i :: 0 <= i < |picks| ==> picks[i] in continents[i].countries
    ensures DrawsFinal(continents, Elements(picks), drawn - Elements(picks))
  {
    OnePerContinentAreDistinct(continents, picks);
    PicksCoverContinents(continents, picks);
    SubsetCardinality(drawn - Elements(picks), drawn);
  }

  /** The picks are continent countries, and every continent has one. */
  lemma PicksCoverContinents(continents: seq<Continent>, picks: seq<Country>)
    requires |picks| == |continents|
    requires forall i :: 0 <= i < |picks| ==> picks[i] in continents[i].countries
    ensures Elements(picks) <= CountriesIn(continents)
    ensures forall i :: 0 <= i < |continents| ==> exists c :: c in continents[i].countries && c in Elements(picks)
  {
    var starting := Elements(picks);
    forall c | c in starting ensures c in CountriesIn(continents) {
      var i :| 0 <= i < |picks| && picks[i] == c;
      CountriesInIff(continents, c);
    }
    forall i | 0 <= i < |continents| ensures exists c :: c in continents[i].countries && c in starting {
      assert picks[i] in starting;
    }
  }

  class RandomWorldGenerator {
    const cellGrid: array2<Country>
    var countriesNotUsedInContinents: set<Country>
    var countriesUsedInContinents: set<Country>
    const gridHeight: nat
    const gridWidth: nat
    const world: World
    /** The `id` field of every Country object; a country missing from the
        map still holds UnassignedId (see Countries.IdOf). */
    var countryIds: map<Country, int>

    /** The grid array has the generator's dimensions. */
    ghost predicate Valid() {
      && cellGrid.Length0 == gridWidth
      && cellGrid.Length1 == gridHeight
      && gridHeight == gridWidth + 1
    }

    /** Every cell holds the country created for it. */
    ghost predicate GridInitialised()
      requires Valid()
      reads cellGrid
    {
      forall x, y :: 0 <= x < gridWidth && 0 <= y < gridHeight ==> cellGrid[x, y] == Country(x, y)
    }

    /** Every cell holds what its own country became after `merges`. */
    ghost predicate CellsFollow(merges: seq<Merge>)
      requires Valid()
      reads cellGrid
    {
      forall x, y :: 0 <= x < gridWidth && 0 <= y < gridHeight ==>
        cellGrid[x, y] == ReplaceAll(Country(x, y), merges)
    }

    /** Sizes the grid from the goal country count. */
    constructor (goalCountryCount: int)
      ensures Valid()
      ensures gridWidth == GridWidth(goalCountryCount) && gridHeight == GridHeight(goalCountryCount)
      ensures fresh(world) && fresh(cellGrid)
      ensures world.edges == [] && world.continents == [] && world.countriesById == map[]
      ensures world.startingCountries == {} && world.wastelandCountries == {}
      ensures countriesUsedInContinents == {} && countryIds == map[]
    {
      var width := GridWidth(goalCountryCount);
      gridWidth := width;
      gridHeight := width + 1;
      cellGrid := new Country[width, width + 1];
      world := new World();
      countriesUsedInContinents := {};
      countriesNotUsedInContinents := {};
      countryIds := map[];
    }

    /** initCountries: one country per cell, created with the cell's coordinates. */
    method InitCountries()
      requires Valid()
      modifies cellGrid
      ensures GridInitialised()
    {
      for x := 0 to gridWidth
        invariant forall i, j :: 0 <= i < x && 0 <= j < gridHeight ==> cellGrid[i, j] == Country(i, j)
      {
        for y := 0 to gridHeight
          invariant forall i, j :: 0 <= i < x && 0 <= j < gridHeight ==> cellGrid[i, j] == Country(i, j)
          invariant forall j :: 0 <= j < y ==> cellGrid[x, j] == Country(x, j)
        {
          cellGrid[x, y] := Country(x, y);
        }
      }
    }

    /** initEdges: appends the right and down edge of every cell, column by column. */
    method InitEdges()
      requires Valid() && GridInitialised()
      modifies world`edges
      ensures world.edges == old(world.edges) + GridEdges(gridWidth, gridHeight)
    {
      var edges := world.edges;
      ghost var start := edges;
      for x := 0 to gridWidth
        invariant edges == start + GridEdgesUpTo(gridWidth, gridHeight, x)
      {
        var columnEdges := InitColumnEdges(x);
        edges := edges + columnEdges;
      }
      world.edges := edges;
    }

    /** The inner loop of initEdges: the edges of cells (x, 0) .. (x, H - 1). */
    method InitColumnEdges(x: nat) returns (columnEdges: seq<Edge>)
      requires Valid() && GridInitialised() && x < gridWidth
      ensures columnEdges == ColumnEdges(gridWidth, gridHeight, x, gridHeight)
    {
      columnEdges := [];
      for y := 0 to gridHeight
        invariant columnEdges == ColumnEdges(gridWidth, gridHeight, x, y)
      {
        var cellEdges := InitCellEdges(x, y);
        columnEdges := columnEdges + cellEdges;
      }
    }

    /** The body of initEdges' inner loop: the edge from cell (x, y) to its
        right neighbour, then the one to the cell below, each only when
        that cell exists. */
    method InitCellEdges(x: nat, y: nat) returns (cellEdges: seq<Edge>)
      requires Valid() && GridInitialised() && x < gridWidth && y < gridHeight
      ensures cellEdges == CellEdges(gridWidth, gridHeight, x, y)
    {
      var nextX := x + 1;
      var nextY := y + 1;
      cellEdges := [];
      if nextX < gridWidth {
        cellEdges := cellEdges + [Edge(cellGrid[x, y], cellGrid[nextX, y])];
      }
      if nextY < gridHeight {
        cellEdges := cellEdges + [Edge(cellGrid[x, y], cellGrid[x, nextY])];
      }
    }

    /** collectAllCountries: every endpoint of every edge. */
    method CollectAllCountries() returns (countries: set<Country>)
      ensures countries == AllCountries(world.edges)
    {
      countries := {};
      for i := 0 to |world.edges|
        invariant countries == AllCountries(world.edges[..i])
      {
        assert world.edges[..i + 1][..i] == world.edges[..i];
        var edge := world.edges[i];
        countries := countries + {edge.leftCountry};
        countries := countries + {edge.rightCountry};
      }
      assert world.edges[..|world.edges|] == world.edges;
    }

    /** mergeIntoCountry: every edge endpoint equal to `country` is repointed
        to `intoCountry`, and so is every grid cell. The source repeats the
        idempotent grid rewrite once per edge; the model performs it once,
        and, like the source, not at all when there is no edge. */
    method MergeIntoCountry(country: Country, intoCountry: Country)
      requires Valid()
      modifies world`edges, cellGrid
      ensures world.edges == MergeEdges(old(world.edges), country, intoCountry)
      ensures forall x, y :: 0 <= x < gridWidth && 0 <= y < gridHeight ==>
        cellGrid[x, y] == if old(world.edges) == [] then old(cellGrid[x, y])
                          else Replace(old(cellGrid[x, y]), country, intoCountry)
    {
      ghost var edges0 := world.edges;
      MergeEdgesAt(edges0, country, intoCountry);
      for i := 0 to |world.edges|
        invariant |world.edges| == |edges0|
        invariant forall k :: 0 <= k < i ==> world.edges[k] == MergeEdge(edges0[k], country, intoCountry)
        invariant forall k :: i <= k < |edges0| ==> world.edges[k] == edges0[k]
        modifies world`edges
      {
        var edge := world.edges[i];
        if edge.leftCountry == country {
          edge := edge.(leftCountry := intoCountry);
        }
        if edge.rightCountry == country {
          edge := edge.(rightCountry := intoCountry);
        }
        world.edges := world.edges[i := edge];
      }
      assert edges0[..|edges0|] == edges0;
      if |world.edges| > 0 {
        RepointCells(country, intoCountry);
      }
    }

    /** The grid half of mergeIntoCountry (:309-318): every cell holding
        `country` now holds `intoCountry`. */
    method RepointCells(country: Country, intoCountry: Country)
      requires Valid()
      modifies cellGrid
      ensures forall x, y :: 0 <= x < gridWidth && 0 <= y < gridHeight ==>
        cellGrid[x, y] == Replace(old(cellGrid[x, y]), country, intoCountry)
    {
      for x := 0 to gridWidth
        invariant forall i, j :: 0 <= i < x && 0 <= j < gridHeight ==>
          cellGrid[i, j] == Replace(old(cellGrid[i, j]), country, intoCountry)
        invariant forall i, j :: x <= i < gridWidth && 0 <= j < gridHeight ==>
          cellGrid[i, j] == old(cellGrid[i, j])
      {
        for y := 0 to gridHeight
          invariant forall i, j :: 0 <= i < x && 0 <= j < gridHeight ==>
            cellGrid[i, j] == Replace(old(cellGrid[i, j]), country, intoCountry)
          invariant forall j :: 0 <= j < y ==>
            cellGrid[x, j] == Replace(old(cellGrid[x, j]), country, intoCountry)
          invariant forall i, j :: x < i < gridWidth && 0 <= j < gridHeight ==>
            cellGrid[i, j] == old(cellGrid[i, j])
          invariant forall j :: y <= j < gridHeight ==> cellGrid[x, j] == old(cellGrid[x, j])
        {
          if cellGrid[x, y] == country {
            cellGrid[x, y] := intoCountry;
          }
        }
      }
    }

    /** removeDuplicateAndCircularEdges: the edge list is rebuilt from a hash
        set of its edges (in the set's unspecified iteration order), then every
        self-loop is removed. */
    method RemoveDuplicateAndCircularEdges()
      modifies world`edges
      ensures DeduplicatedFrom(old(world.edges), world.edges)
    {
      var distinct := set e | e in world.edges;
      var listed: seq<Edge> := [];
      var remaining := distinct;
      while remaining != {}
        invariant remaining <= distinct
        invariant NoDuplicates(listed)
        invariant forall e :: e in listed <==> e in distinct && e !in remaining
        decreases |remaining|
      {
        var edge :| edge in remaining;
        listed := listed + [edge];
        remaining := remaining - {edge};
      }
      var kept: seq<Edge> := [];
      for i := 0 to |listed|
        invariant kept == WithoutSelfLoops(listed[..i])
      {
        assert listed[..i + 1][..i] == listed[..i];
        var edge := listed[i];
        if edge.leftCountry != edge.rightCountry {
          kept := kept + [edge];
        }
      }
      assert listed[..|listed|] == listed;
      world.edges := kept;
    }

    /** combineCountryCells: performs CombineCount merges, each of a random
        neighbour into a random country, followed by deduplication; `merges`
        lists them in order. `ok` is false when the source's random draw at
        :180 would be taken from an empty collection because every edge has
        been merged away; that happens exactly on the one-column grid of a
        goal of one country. The source retries a draw whose neighbour
        equals the country (:183-187); the edge list never holds a self-loop
        here, so that retry can never happen and the model proves it instead
        of looping on it. */
    method CombineCountryCells() returns (ok: bool, ghost merges: seq<Merge>)
      requires Valid() && GridInitialised()
      requires world.edges == GridEdges(gridWidth, gridHeight)
      modifies world`edges, cellGrid
      ensures ok <==> gridWidth != 1
      ensures ok ==> |merges| == CombineCount(gridWidth, gridHeight)
      ensures !ok ==> |merges| < CombineCount(gridWidth, gridHeight) && world.edges == []
      ensures ValidMerges(Elements(GridEdges(gridWidth, gridHeight)), merges)
      ensures Elements(world.edges) == Contracted(Elements(GridEdges(gridWidth, gridHeight)), merges)
      ensures NoSelfLoops(world.edges) && NoDuplicates(world.edges)
      ensures forall m :: m in merges ==> m.country !in AllCountries(world.edges)
      ensures ok && gridWidth >= 2 ==>
        |AllCountries(world.edges)| == gridWidth * gridHeight - CombineCount(gridWidth, gridHeight)
      ensures forall x, y :: 0 <= x < gridWidth && 0 <= y < gridHeight ==>
        cellGrid[x, y] == ReplaceAll(Country(x, y), merges)
      ensures forall x, y, m :: 0 <= x < gridWidth && 0 <= y < gridHeight && m in merges ==>
        cellGrid[x, y] != m.country
      ensures ok ==> forall x, y :: 0 <= x < gridWidth && 0 <= y < gridHeight ==>
        cellGrid[x, y] in AllCountries(world.edges)
    {
      ghost var edges0 := Elements(world.edges);
      ghost var cells := gridWidth * gridHeight;
      GridStartsContraction(gridWidth);
      var combineCount := CombineCount(gridWidth, gridHeight);
      if gridWidth >= 2 {
        WideGridHasSixCells(gridWidth);
        CombineCountLeavesTwo(gridWidth, gridHeight);
      } else if gridWidth == 1 {
        assert cells == 2 && combineCount == 2;
      }
      merges := [];
      ghost var root := Country(0, 0);
      var i := 0;
      while i < combineCount
        invariant 0 <= i <= combineCount && |merges| == i
        invariant i > 0 ==> i + 1 <= cells
        invariant ContractedSoFar(edges0, cells, world.edges, merges, root)
        invariant CellsFollow(merges)
        invariant CellsTracked(gridWidth, gridHeight, cells >= 6, merges, world.edges)
        decreases combineCount - i
      {
        var countries := CollectAllCountries();
        if countries == {} {
          assert world.edges == [];
          return false, merges;
        }
        var barCountry :| barCountry in countries;
        var neighbors := world.CollectNeighborCountries(barCountry);
        CountriesHaveNeighbors(world.edges, barCountry);
        var fooCountry :| fooCountry in neighbors;
        NoSelfNeighbor(world.edges, barCountry);
        EdgeHasTwoCountries(world.edges);
        ghost var edgesBefore := world.edges;
        assert edgesBefore != [];
        label BeforeMerge:
        MergeIntoCountry(fooCountry, barCountry);
        ghost var extended := merges + [Merge(fooCountry, barCountry)];
        assert extended[..|merges|] == merges;
        forall x, y | 0 <= x < gridWidth && 0 <= y < gridHeight
          ensures cellGrid[x, y] == ReplaceAll(Country(x, y), extended)
        {
          assert cellGrid[x, y] == Replace(old@BeforeMerge(cellGrid[x, y]), fooCountry, barCountry);
        }
        assert CellsFollow(extended);
        RemoveDuplicateAndCircularEdges();
        ContractStep(edges0, cells, edgesBefore, merges, root, fooCountry, barCountry, world.edges);
        TrackCellsStep(gridWidth, gridHeight, cells >= 6, merges, edgesBefore, fooCountry, barCountry, world.edges);
        merges := extended;
        root := Replace(root, fooCountry, barCountry);
        i := i + 1;
      }
      return true, merges;
    }

    /** assignTemporaryCountryIds: numbers the remaining countries 0 .. n - 1
        in the (unspecified) iteration order of a hash set. */
    method AssignTemporaryCountryIds()
      modifies this`countryIds
      ensures forall c :: c in countryIds <==> c in old(countryIds) || c in AllCountries(world.edges)
      ensures forall c :: c in AllCountries(world.edges) ==> 0 <= countryIds[c] < |AllCountries(world.edges)|
      ensures forall c, d ::
                c in AllCountries(world.edges) && d in AllCountries(world.edges) && c != d ==>
                countryIds[c] != countryIds[d]
      ensures forall c :: c in old(countryIds) && c !in AllCountries(world.edges) ==> countryIds[c] == old(countryIds)[c]
    {
      var countries := CollectAllCountries();
      var ids := countryIds;
      ghost var ids0 := countryIds;
      var id := 0;
      var remaining := countries;
      ghost var done: set<Country> := {};
      while remaining != {}
        invariant done !! remaining && done + remaining == countries
        invariant NumberedSoFar(ids, ids0, done, id)
        decreases |remaining|
      {
        var country :| country in remaining;
        NumberNext(ids, ids0, done, id, country);
        ids := ids[country := id];
        id := id + 1;
        remaining := remaining - {country};
        done := done + {country};
      }
      assert done == countries;
      countryIds := ids;
    }

    /** collectCountriesInContinents: a LinkedHashSet filled continent by
        continent with addAll, so every continent country once, in
        continent-then-member order. */
    method CollectCountriesInContinents() returns (countries: seq<Country>)
      ensures countries == CountriesInOrder(world.continents)
      ensures NoDuplicates(countries) && Elements(countries) == CountriesIn(world.continents)
    {
      countries := [];
      for i := 0 to |world.continents|
        invariant countries == CountriesInOrder(world.continents[..i])
      {
        assert world.continents[..i + 1][..i] == world.continents[..i];
        var members := world.continents[i].countries;
        ghost var before := countries;
        for j := 0 to |members|
          invariant countries == AddAll(before, members[..j])
        {
          assert members[..j + 1][..j] == members[..j];
          if members[j] !in countries {
            countries := countries + [members[j]];
          }
        }
        assert members[..|members|] == members;
      }
      assert world.continents[..|world.continents|] == world.continents;
    }

    /** One pass of makeContinents' outer loop, up to the size test: grows
        a continent from `seed` by adding random unused neighbours of the
        whole continent. Growth stops when no unused neighbour is left, when
        the continent has grown past MAX_CONTINENT_SIZE (tested after the
        add, so 7 members are possible), or when the coin tossed after the
        add that made `n` members, `keepGrowing(pass, n - 2)`, says so.
        Every added country is marked used. */
    method GrowContinent(seed: Country, keepGrowing: (nat, nat) -> bool, pass: nat) returns (continent: Continent)
      requires seed in AllCountries(world.edges) && seed !in countriesUsedInContinents
      modifies this`countriesUsedInContinents
      ensures 1 <= |continent.countries| <= MaxContinentSize + 1 && continent.countries[0] == seed
      ensures NoDuplicates(continent.countries) && GrownFrom(world.edges, continent.countries)
      ensures countriesUsedInContinents == old(countriesUsedInContinents) + Elements(continent.countries)
      ensures forall c :: c in continent.countries ==>
        c in AllCountries(world.edges) && c !in old(countriesUsedInContinents)
      ensures GrowthStopped(world.edges, continent.countries, countriesUsedInContinents, keepGrowing, pass)
    {
      ghost var edges := world.edges;
      ghost var used0 := countriesUsedInContinents;
      var members := [seed];
      var used := countriesUsedInContinents + {seed};
      var growing := true;
      while growing
        invariant 1 <= |members| <= MaxContinentSize + 1 && members[0] == seed
        invariant growing ==> |members| <= MaxContinentSize
        invariant GrowthSoFar(edges, members, used0, used)
        invariant CoinsKept(members, keepGrowing, pass)
        invariant growing ==> |members| < 2 || keepGrowing(pass, |members| - 2)
        invariant !growing ==> GrowthStopped(edges, members, used, keepGrowing, pass)
        decreases MaxContinentSize + 1 - |members|, growing
      {
        var unusedNeighborCountries := world.CollectContinentNeighborCountries(Continent(members, 0, 0));
        unusedNeighborCountries := unusedNeighborCountries - used;
        if unusedNeighborCountries == {} {
          StoppedWithoutNeighbors(edges, members, used, keepGrowing, pass);
          growing := false;
        } else {
          var nextCountry :| nextCountry in unusedNeighborCountries;
          GrowthNext(edges, members, used0, used, nextCountry);
          CoinNext(members, nextCountry, keepGrowing, pass);
          members := members + [nextCountry];
          used := used + {nextCountry};
          if |members| > MaxContinentSize || !keepGrowing(pass, |members| - 2) {
            StoppedBySizeOrCoin(edges, members, used, keepGrowing, pass);
            growing := false;
          }
        }
      }
      assert forall c :: c in members ==> c in Elements(members);
      continent := Continent(members, 0, 0);
      countriesUsedInContinents := used;
    }

    /** One iteration of makeContinents' outer loop: draws a seed from the
        countries in no continent yet, grows a continent from it, keeps it
        with the next id and a bonus when it has at least
        MIN_CONTINENT_SIZE members, and recomputes the unused countries.
        Every drawn country stays used, so a discarded seed is never drawn
        again and the pool of unused countries shrinks. */
    method MakeContinentPass(keepGrowing: (nat, nat) -> bool, bonusJitter: nat -> real, pass: nat)
      returns (ghost grown: Continent)
      requires forall pass :: 0.0 <= bonusJitter(pass) < 1.0
      requires countriesNotUsedInContinents != {}
      requires countriesNotUsedInContinents == AllCountries(world.edges) - countriesUsedInContinents
      requires ContinentsSound(world.edges, world.continents) && DenseIds(world.continents)
      requires CountriesIn(world.continents) <= countriesUsedInContinents
      modifies this`countriesUsedInContinents, this`countriesNotUsedInContinents, world`continents
      ensures ContinentsSound(world.edges, world.continents) && DenseIds(world.continents)
      ensures old(countriesUsedInContinents) <= countriesUsedInContinents
      ensures CountriesIn(world.continents) <= countriesUsedInContinents
      ensures countriesNotUsedInContinents == AllCountries(world.edges) - countriesUsedInContinents
      ensures |countriesNotUsedInContinents| < |old(countriesNotUsedInContinents)|
      ensures 1 <= |grown.countries| <= MaxContinentSize + 1
      ensures grown.countries[0] in old(countriesNotUsedInContinents)
      ensures NoDuplicates(grown.countries) && GrownFrom(world.edges, grown.countries)
      ensures countriesUsedInContinents == old(countriesUsedInContinents) + Elements(grown.countries)
      ensures GrowthStopped(world.edges, grown.countries, countriesUsedInContinents, keepGrowing, pass)
      ensures world.continents ==
        if |grown.countries| >= MinContinentSize
        then old(world.continents) + [grown.(id := |old(world.continents)| + 1,
                                             bonus := ContinentBonus(|grown.countries|, bonusJitter(pass)))]
        else old(world.continents)
    {
      ghost var edges := world.edges;
      ghost var used0 := countriesUsedInContinents;
      ghost var notUsed0 := countriesNotUsedInContinents;
      var continents := world.continents;
      var seed :| seed in countriesNotUsedInContinents;
      var continent := GrowContinent(seed, keepGrowing, pass);
      grown := continent;
      ghost var used := countriesUsedInContinents;
      assert seed in used && used0 <= used;
      if |continent.countries| > MinContinentSize - 1 {
        continent := continent.(id := |continents| + 1,
                                bonus := ContinentBonus(|continent.countries|, bonusJitter(pass)));
        KeepContinent(edges, continents, continent);
        continents := continents + [continent];
        world.continents := continents;
      }
      assert CountriesIn(continents) <= used;
      var all := CollectAllCountries();
      countriesNotUsedInContinents := all - countriesUsedInContinents;
      assert countriesNotUsedInContinents <= notUsed0 - {seed};
      SubsetCardinality(countriesNotUsedInContinents, notUsed0 - {seed});
    }

    /** makeContinents: while some country is in no continent yet, runs
        another pass. `countriesNotUsedInContinents` ends as every country
        outside the kept continents. */
    method MakeContinents(keepGrowing: (nat, nat) -> bool, bonusJitter: nat -> real)
      requires forall pass :: 0.0 <= bonusJitter(pass) < 1.0
      requires ContinentsSound(world.edges, world.continents) && DenseIds(world.continents)
      requires CountriesIn(world.continents) <= countriesUsedInContinents
      modifies this`countriesUsedInContinents, this`countriesNotUsedInContinents, world`continents
      ensures ContinentsSound(world.edges, world.continents) && DenseIds(world.continents)
      ensures old(countriesUsedInContinents) <= countriesUsedInContinents
      ensures AllCountries(world.edges) <= countriesUsedInContinents
      ensures CountriesIn(world.continents) <= countriesUsedInContinents
      ensures countriesNotUsedInContinents == AllCountries(world.edges) - CountriesIn(world.continents)
      ensures old(world.continents) <= world.continents
      ensures (old(countriesUsedInContinents) == {} && old(world.continents) == [] &&
               AllCountries(world.edges) != {} && NoSelfLoops(world.edges)) ==> world.continents != []
    {
      ghost var firstPass := countriesUsedInContinents == {} && world.continents == [] &&
                             AllCountries(world.edges) != {} && NoSelfLoops(world.edges);
      var all := CollectAllCountries();
      countriesNotUsedInContinents := all - countriesUsedInContinents;
      var pass: nat := 0;
      while countriesNotUsedInContinents != {}
        invariant ContinentsSound(world.edges, world.continents) && DenseIds(world.continents)
        invariant old(countriesUsedInContinents) <= countriesUsedInContinents
        invariant CountriesIn(world.continents) <= countriesUsedInContinents
        invariant countriesNotUsedInContinents == AllCountries(world.edges) - countriesUsedInContinents
        invariant old(world.continents) <= world.continents
        invariant firstPass ==> world.continents != [] || countriesUsedInContinents == {}
        decreases |countriesNotUsedInContinents|
      {
        ghost var usedBefore, unusedBefore := countriesUsedInContinents, countriesNotUsedInContinents;
        ghost var grown := MakeContinentPass(keepGrowing, bonusJitter, pass);
        if firstPass && usedBefore == {} {
          FirstContinentKept(world.edges, grown.countries, usedBefore, unusedBefore, countriesUsedInContinents,
                             keepGrowing, pass);
        }
        pass := pass + 1;
      }
      assert AllCountries(world.edges) <= countriesUsedInContinents by {
        forall c | c in AllCountries(world.edges) ensures c in countriesUsedInContinents {
          assert c !in countriesNotUsedInContinents;
        }
      }
      all := CollectAllCountries();
      var inContinents := CollectCountriesInContinents();
      countriesNotUsedInContinents := all - Elements(inContinents);
    }

    /** removeUnusedEdges: drops every edge with an endpoint in no continent;
        rebuilding the list stands in for removal through the iterator. */
    method RemoveUnusedEdges()
      modifies world`edges
      ensures world.edges == WithoutTouching(old(world.edges), countriesNotUsedInContinents)
    {
      var kept: seq<Edge> := [];
      for i := 0 to |world.edges|
        invariant kept == WithoutTouching(world.edges[..i], countriesNotUsedInContinents)
      {
        assert world.edges[..i + 1][..i] == world.edges[..i];
        var edge := world.edges[i];
        if !(edge.leftCountry in countriesNotUsedInContinents || edge.rightCountry in countriesNotUsedInContinents) {
          kept := kept + [edge];
        }
      }
      assert world.edges[..|world.edges|] == world.edges;
      world.edges := kept;
    }

    /** removeUnconnectedContinents: drops every continent whose neighbour
        set is no larger than its own member list, i.e. one with no edge
        leaving it. */
    method RemoveUnconnectedContinents()
      modifies world`continents
      ensures world.continents == ConnectedOnly(world.edges, old(world.continents))
    {
      var continents := world.continents;
      var kept: seq<Continent> := [];
      for i := 0 to |continents|
        invariant kept == ConnectedOnly(world.edges, continents[..i])
      {
        assert continents[..i + 1][..i] == continents[..i];
        var continent := continents[i];
        var neighborCountries := world.CollectContinentNeighborCountries(continent);
        if |neighborCountries| != |continent.countries| {
          kept := kept + [continent];
        }
      }
      assert continents[..|continents|] == continents;
      world.continents := kept;
    }

    /** assignFinalCountryIds: numbers the continent countries 0 .. n - 1 in
        continent-then-member order and registers each under its id. */
    method AssignFinalCountryIds()
      modifies this`countryIds, world`countriesById
      ensures forall c :: c in countryIds <==> c in old(countryIds) || c in CountriesIn(world.continents)
      ensures forall k :: k in world.countriesById <==>
        k in old(world.countriesById) || 0 <= k < |CountriesInOrder(world.continents)|
      ensures forall k :: 0 <= k < |CountriesInOrder(world.continents)| ==>
        world.countriesById[k] == CountriesInOrder(world.continents)[k]
        && countryIds[CountriesInOrder(world.continents)[k]] == k
      ensures forall k :: k in old(world.countriesById) && !(0 <= k < |CountriesInOrder(world.continents)|) ==>
        world.countriesById[k] == old(world.countriesById)[k]
      ensures forall c :: c in old(countryIds) && c !in CountriesIn(world.continents) ==>
        countryIds[c] == old(countryIds)[c]
    {
      var continentCountries := CollectCountriesInContinents();
      var ids := countryIds;
      var byId := world.countriesById;
      for id := 0 to |continentCountries|
        invariant OrderNumbered(ids, byId, old(countryIds), old(world.countriesById), continentCountries, id)
      {
        OrderNumberNext(ids, byId, old(countryIds), old(world.countriesById), continentCountries, id);
        var country := continentCountries[id];
        ids := ids[country := id];
        byId := byId[id := country];
      }
      assert continentCountries[..|continentCountries|] == continentCountries;
      countryIds := ids;
      world.countriesById := byId;
    }

    /** calculateMaxRounds: two and a half rounds per continent country,
        truncated. */
    method CalculateMaxRounds()
      modifies world`maxRounds
      ensures world.maxRounds == MaxRounds(|CountriesIn(world.continents)|)
    {
      var countries := CollectCountriesInContinents();
      DistinctCardinality(countries);
      world.maxRounds := MaxRounds(|countries|);
    }

    /** chooseWastelandCountries: one draw per 2.4 continents (truncated)
        from the continent countries, returned as `draws`; a country drawn
        twice counts once, so there may be fewer wastelands than draws. */
    method ChooseWastelandCountries() returns (ghost draws: seq<Country>)
      requires forall i :: 0 <= i < |world.continents| ==> world.continents[i].countries != []
      modifies world`wastelandCountries
      ensures |draws| == WastelandCount(|world.continents|)
      ensures forall i :: 0 <= i < |draws| ==> draws[i] in CountriesIn(world.continents)
      ensures world.wastelandCountries == old(world.wastelandCountries) + Elements(draws)
      ensures old(world.wastelandCountries) <= world.wastelandCountries
      ensures world.wastelandCountries - old(world.wastelandCountries) <= CountriesIn(world.continents)
      ensures |world.wastelandCountries - old(world.wastelandCountries)| <= WastelandCount(|world.continents|)
    {
      var continentCountries := CollectCountriesInContinents();
      var wastelandCount := WastelandCount(|world.continents|);
      if wastelandCount > 0 {
        var first := world.continents[0].countries[0];
        CountriesInIff(world.continents, first);
        assert first in continentCountries;
      }
      ghost var placed := Elements(continentCountries);
      var wastelands := world.wastelandCountries;
      draws := [];
      for i := 0 to wastelandCount
        invariant |draws| == i
        invariant DrawnSoFar(old(world.wastelandCountries), wastelands, draws, placed)
      {
        var wastelandCountry :| wastelandCountry in continentCountries;
        assert wastelandCountry in placed;
        DrawStep(old(world.wastelandCountries), wastelands, draws, placed, wastelandCountry);
        wastelands := wastelands + {wastelandCountry};
        draws := draws + [wastelandCountry];
      }
      world.wastelandCountries := wastelands;
    }

    /** chooseStartingCountries: one random member of every continent
        (returned as `picks`), after which no starting country is a
        wasteland. */
    method ChooseStartingCountries() returns (ghost picks: seq<Country>)
      requires forall i :: 0 <= i < |world.continents| ==> world.continents[i].countries != []
      modifies world`startingCountries, world`wastelandCountries
      ensures |picks| == |world.continents|
      ensures forall i :: 0 <= i < |picks| ==> picks[i] in world.continents[i].countries
      ensures world.startingCountries == old(world.startingCountries) + Elements(picks)
      ensures world.wastelandCountries == old(world.wastelandCountries) - world.startingCountries
    {
      picks := [];
      var starting := world.startingCountries;
      for i := 0 to |world.continents|
        invariant |picks| == i
        invariant forall k :: 0 <= k < i ==> picks[k] in world.continents[k].countries
        invariant starting == old(world.startingCountries) + Elements(picks)
      {
        assert world.continents[i].countries[0] in world.continents[i].countries;
        var startingCountry :| startingCountry in world.continents[i].countries;
        assert Elements(picks + [startingCountry]) == Elements(picks) + {startingCountry};
        starting := starting + {startingCountry};
        picks := picks + [startingCountry];
      }
      world.startingCountries := starting;
      world.wastelandCountries := world.wastelandCountries - world.startingCountries;
    }

    /** generate: the whole pipeline on a freshly constructed generator.
        Printing the layouts is left out. `ok` is false when the merge
        phase ran out of countries to draw from. */
    method Generate(keepGrowing: (nat, nat) -> bool, bonusJitter: nat -> real)
      returns (ok: bool, ghost merges: seq<Merge>, ghost combined: seq<Edge>, ghost grown: seq<Continent>)
      requires Valid()
      requires forall pass :: 0.0 <= bonusJitter(pass) < 1.0
      requires world.edges == [] && world.continents == [] && world.countriesById == map[]
      requires world.startingCountries == {} && world.wastelandCountries == {}
      requires countriesUsedInContinents == {}
      modifies this`countriesNotUsedInContinents, this`countriesUsedInContinents, this`countryIds
      modifies world, cellGrid
      ensures ok <==> gridWidth != 1
      ensures ok ==> Finalised(world, countryIds)
      ensures ok ==> Built(gridWidth, gridHeight, merges, combined, grown, world.edges, world.continents)
      ensures ok && gridWidth >= 2 ==> grown != []
      ensures ok ==> NumberedInOrder(world.continents, world.countriesById)
      ensures !ok ==> world.edges == []
    {
      ok, merges, combined, grown := BuildContinents(keepGrowing, bonusJitter);
      if !ok {
        return;
      }
      FinishWorld();
    }

    /** The last two blocks of generate, on the continents the first left:
        the countries are numbered and the draws made; the map itself stays
        as it was. */
    method FinishWorld()
      requires ContinentsFinal(world.edges, world.continents)
      requires world.countriesById == map[]
      requires world.startingCountries == {} && world.wastelandCountries == {}
      modifies this`countryIds, world`countriesById, world`maxRounds
      modifies world`startingCountries, world`wastelandCountries
      ensures Finalised(world, countryIds)
      ensures NumberedInOrder(world.continents, world.countriesById)
    {
      NumberCountries();
      FinalContinentsNonEmpty(world.edges, world.continents);
      DrawCountries();
      FinalStateHolds(world.edges, world.continents, world.countriesById, world.maxRounds,
                      world.startingCountries, world.wastelandCountries, countryIds);
    }

    /** The first block of generate: the grid is built, its cells combined
        into countries, continents grown, and what no continent took pruned. */
    method BuildContinents(keepGrowing: (nat, nat) -> bool, bonusJitter: nat -> real)
      returns (ok: bool, ghost merges: seq<Merge>, ghost combined: seq<Edge>, ghost grown: seq<Continent>)
      requires Valid()
      requires forall pass :: 0.0 <= bonusJitter(pass) < 1.0
      requires world.edges == [] && world.continents == []
      requires countriesUsedInContinents == {}
      modifies this`countriesNotUsedInContinents, this`countriesUsedInContinents, this`countryIds
      modifies world`edges, world`continents, cellGrid
      ensures ok <==> gridWidth != 1
      ensures ValidMerges(Elements(GridEdges(gridWidth, gridHeight)), merges)
      ensures Elements(combined) == Contracted(Elements(GridEdges(gridWidth, gridHeight)), merges)
      ensures NoSelfLoops(combined) && NoDuplicates(combined)
      ensures ok ==> |merges| == CombineCount(gridWidth, gridHeight)
      ensures ok ==> ContinentsSound(combined, grown) && DenseIds(grown)
      ensures ok ==> countriesNotUsedInContinents == AllCountries(combined) - CountriesIn(grown)
      ensures ok && gridWidth >= 2 ==> grown != []
      ensures ok ==> world.edges == WithoutTouching(combined, countriesNotUsedInContinents)
      ensures ok ==> world.continents == ConnectedOnly(world.edges, grown)
      ensures ok ==> ContinentsFinal(world.edges, world.continents)
      ensures !ok ==> world.edges == [] && combined == [] && grown == []
    {
      InitCountries();
      InitEdges();
      ok, merges := CombineCountryCells();
      combined := world.edges;
      grown := [];
      if !ok {
        return;
      }
      if gridWidth >= 2 {
        WideGridHasSixCells(gridWidth);
        CombineCountLeavesTwo(gridWidth, gridHeight);
      }
      AssignTemporaryCountryIds();
      MakeContinents(keepGrowing, bonusJitter);
      grown := world.continents;
      SoundnessSurvivesPruning(world.edges, countriesNotUsedInContinents, grown);
      RemoveUnusedEdges();
      RemoveUnconnectedContinents();
      PruningFinal(world.edges, grown);
    }

    /** The second block of generate: final ids and the round limit. */
    method NumberCountries()
      requires ContinentsFinal(world.edges, world.continents)
      requires world.countriesById == map[]
      modifies this`countryIds, world`countriesById, world`maxRounds
      ensures NumberedFinal(world.continents, world.countriesById, countryIds)
      ensures NumberedInOrder(world.continents, world.countriesById)
      ensures world.maxRounds == MaxRounds(|world.countriesById|)
    {
      AssignFinalCountryIds();
      ghost var order := CountriesInOrder(world.continents);
      assert forall k :: 0 <= k < |order| ==> k in world.countriesById && world.countriesById[k] == order[k];
      NumberingFinal(world.continents, world.countriesById, countryIds);
      CalculateMaxRounds();
    }

    /** The third block of generate: the wasteland and starting draws. */
    method DrawCountries()
      requires forall i :: 0 <= i < |world.continents| ==> world.continents[i].countries != []
      requires PairwiseDisjoint(world.continents)
      requires world.startingCountries == {} && world.wastelandCountries == {}
      modifies world`startingCountries, world`wastelandCountries
      ensures DrawsFinal(world.continents, world.startingCountries, world.wastelandCountries)
    {
      ghost var draws := ChooseWastelandCountries();
      ghost var drawn := world.wastelandCountries;
      ghost var picks := ChooseStartingCountries();
      assert world.startingCountries == Elements(picks);
      DrawingFinal(world.continents, picks, drawn);
    }

    /** The public entry point: a generator for the goal country count runs
        the pipeline, and the world and the countries' ids are the result. */
    static method GenerateWorld(goalCountryCount: int, keepGrowing: (nat, nat) -> bool, bonusJitter: nat -> real)
      returns (world: World, countryIds: map<Country, int>, ok: bool,
               ghost merges: seq<Merge>, ghost combined: seq<Edge>, ghost grown: seq<Continent>)
      requires forall pass :: 0.0 <= bonusJitter(pass) < 1.0
      ensures ok <==> goalCountryCount != 1
      ensures ok ==> Finalised(world, countryIds)
      ensures ok ==> Built(GridWidth(goalCountryCount), GridHeight(goalCountryCount), merges, combined, grown,
                           world.edges, world.continents)
      ensures ok && goalCountryCount >= 2 ==> grown != []
      ensures ok ==> NumberedInOrder(world.continents, world.countriesById)
      ensures !ok ==> world.edges == []
    {
      var generator := new RandomWorldGenerator(goalCountryCount);
      WidthOneOnlyForGoalOne(goalCountryCount);
      ok, merges, combined, grown := generator.Generate(keepGrowing, bonusJitter);
      world := generator.world;
      countryIds := generator.countryIds;
    }
  }
}
