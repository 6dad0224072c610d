/** The rules continents obey (makeContinents, removeUnusedEdges,
    removeUnconnectedContinents and collectCountriesInContinents in
    RandomWorldGenerator.java), stated on values. */
module ContinentRules {
  import opened Countries
  import opened Edges
  import opened Uniqueness
  import opened Worlds
  import opened Sizing
  import opened Contraction

  /** Every country that belongs to some continent of `continents`. */
  function CountriesIn(continents: seq<Continent>): set<Country> {
    if continents == [] then {}
    else CountriesIn(continents[..|continents| - 1]) + Elements(continents[|continents| - 1].countries)
  }

  lemma {:induction false} CountriesInIff(continents: seq<Continent>, c: Country)
    ensures c in CountriesIn(continents)
        <==> exists i :: 0 <= i < |continents| && c in continents[i].countries
  {
    if continents != [] {
      var n := |continents| - 1;
      CountriesInIff(continents[..n], c);
      if c in CountriesIn(continents[..n]) {
        var i :| 0 <= i < n && c in continents[..n][i].countries;
        assert continents[i] == continents[..n][i];
      }
      if exists i :: 0 <= i < |continents| && c in continents[i].countries {
        var i :| 0 <= i < |continents| && c in continents[i].countries;
        if i < n {
          assert continents[i] == continents[..n][i];
        }
      }
    }
  }

  /** Appending a continent adds exactly its members. */
  lemma CountriesInAppend(continents: seq<Continent>, continent: Continent)
    ensures CountriesIn(continents + [continent]) == CountriesIn(continents) + Elements(continent.countries)
  {
    assert (continents + [continent])[..|continents|] == continents;
  }

  /** Region growth: every member after the seed was a neighbour of an
      earlier member when it was added. */
  predicate GrownFrom(edges: seq<Edge>, members: seq<Country>) {
    forall j :: 1 <= j < |members| ==> members[j] in ContinentNeighbors(edges, members[..j])
  }

  /** Adding an unplaced neighbour of the whole region keeps it grown and
      duplicate-free. */
  lemma GrowStep(edges: seq<Edge>, members: seq<Country>, next: Country)
    requires NoDuplicates(members) && GrownFrom(edges, members)
    requires next in ContinentNeighbors(edges, members) && next !in members
    ensures NoDuplicates(members + [next]) && GrownFrom(edges, members + [next])
  {
    var grown := members + [next];
    forall j | 1 <= j < |grown| ensures grown[j] in ContinentNeighbors(edges, grown[..j]) {
      if j < |members| {
        assert grown[..j] == members[..j];
      } else {
        assert grown[..j] == members;
      }
    }
  }

  /** What makeContinents guarantees of each continent it keeps. The upper
      bound is MAX_CONTINENT_SIZE + 1, because the size is tested after the
      country is added. */
  predicate GrownContinent(edges: seq<Edge>, continent: Continent) {
    var members := continent.countries;
    && MinContinentSize <= |members| <= MaxContinentSize + 1
    && NoDuplicates(members)
    && GrownFrom(edges, members)
    && 0 <= continent.bonus <= |members| + 1
  }

  /** No country belongs to two continents. */
  predicate PairwiseDisjoint(continents: seq<Continent>) {
    forall i, j :: 0 <= i < j < |continents| ==>
      forall c :: c in continents[i].countries ==> c !in continents[j].countries
  }

  /** Every continent is a grown continent and no two share a country. */
  predicate ContinentsSound(edges: seq<Edge>, continents: seq<Continent>) {
    && (forall i :: 0 <= i < |continents| ==> GrownContinent(edges, continents[i]))
    && PairwiseDisjoint(continents)
  }

  /** Continent ids are 1 .. k in list order. */
  predicate DenseIds(continents: seq<Continent>) {
    forall i :: 0 <= i < |continents| ==> continents[i].id == i + 1
  }

  /** Continent ids strictly increase along the list. */
  predicate IncreasingIds(continents: seq<Continent>) {
    forall i, j :: 0 <= i < j < |continents| ==> continents[i].id < continents[j].id
  }

  /** Appending a continent none of whose members is already placed keeps the
      continents pairwise disjoint. */
  lemma DisjointAppend(continents: seq<Continent>, continent: Continent)
    requires PairwiseDisjoint(continents)
    requires forall c :: c in continent.countries ==> c !in CountriesIn(continents)
    ensures PairwiseDisjoint(continents + [continent])
  {
    var more := continents + [continent];
    forall i, j | 0 <= i < j < |more|
      ensures forall c :: c in more[i].countries ==> c !in more[j].countries
    {
      if j == |continents| {
        forall c | c in more[i].countries ensures c !in more[j].countries {
          CountriesInIff(continents, c);
        }
      }
    }
  }

  /** Every member of a grown continent of two or more countries lies on
      some edge: a later member is a neighbour, and the seed is a neighbour
      of the second member. */
  lemma GrownMembersAreCountries(edges: seq<Edge>, members: seq<Country>)
    requires |members| >= 2 && GrownFrom(edges, members)
    ensures Elements(members) <= AllCountries(edges)
  {
    forall j | 0 <= j < |members| ensures members[j] in AllCountries(edges) {
      if j == 0 {
        assert members[..1] == [members[0]];
        assert ContinentNeighbors(edges, [members[0]]) == Neighbors(edges, members[0]);
        NeighborsSymmetric(edges, members[0], members[1]);
        NeighborsAreCountries(edges, members[1]);
      } else {
        ContinentNeighborsAreCountries(edges, members[..j]);
      }
    }
  }

  /** Every country of a sound continent list lies on some edge. */
  lemma ContinentCountriesAreCountries(edges: seq<Edge>, continents: seq<Continent>)
    requires ContinentsSound(edges, continents)
    ensures CountriesIn(continents) <= AllCountries(edges)
  {
    forall c | c in CountriesIn(continents) ensures c in AllCountries(edges) {
      CountriesInIff(continents, c);
      var i :| 0 <= i < |continents| && c in continents[i].countries;
      GrownMembersAreCountries(edges, continents[i].countries);
    }
  }

  /** Ids 1 .. k in list order are increasing and positive. */
  lemma DenseIdsIncrease(continents: seq<Continent>)
    requires DenseIds(continents)
    ensures IncreasingIds(continents)
    ensures forall c :: c in continents ==> 1 <= c.id
  {
  }

  /** Appending a grown continent with the next id whose members are new
      keeps the list sound and densely numbered. */
  lemma KeepContinent(edges: seq<Edge>, continents: seq<Continent>, continent: Continent)
    requires ContinentsSound(edges, continents) && DenseIds(continents)
    requires GrownContinent(edges, continent) && continent.id == |continents| + 1
    requires forall c :: c in continent.countries ==> c !in CountriesIn(continents)
    ensures ContinentsSound(edges, continents + [continent]) && DenseIds(continents + [continent])
    ensures CountriesIn(continents + [continent]) == CountriesIn(continents) + Elements(continent.countries)
  {
    DisjointAppend(continents, continent);
    CountriesInAppend(continents, continent);
  }

  /** In pairwise disjoint continents a placed country belongs to exactly one continent. */
  lemma ExactlyOneContinent(continents: seq<Continent>, c: Country)
    requires PairwiseDisjoint(continents) && c in CountriesIn(continents)
    ensures exists i :: 0 <= i < |continents| && c in continents[i].countries
    ensures forall i, j ::
      (0 <= i < |continents| && 0 <= j < |continents|
       && c in continents[i].countries && c in continents[j].countries) ==> i == j
  {
    CountriesInIff(continents, c);
  }

  /** A continent is unconnected when the neighbour set of the whole
      continent is as large as the continent itself. */
  predicate IsUnconnected(edges: seq<Edge>, continent: Continent) {
    |ContinentNeighbors(edges, continent.countries)| == |continent.countries|
  }

  /** The continents that removeUnconnectedContinents keeps, in their order
      and with their ids unchanged. */
  function ConnectedOnly(edges: seq<Edge>, continents: seq<Continent>): (kept: seq<Continent>)
    ensures forall c :: c in kept <==> c in continents && !IsUnconnected(edges, c)
    ensures |kept| <= |continents|
  {
    if continents == [] then []
    else
      var rest := ConnectedOnly(edges, continents[..|continents| - 1]);
      var last := continents[|continents| - 1];
      assert continents == continents[..|continents| - 1] + [last];
      if IsUnconnected(edges, last) then rest else rest + [last]
  }

  /** A continent that shares no country with any continent of `continents`
      shares none with the survivors either. */
  lemma DisjointFromSurvivors(edges: seq<Edge>, continents: seq<Continent>, continent: Continent)
    requires forall i :: 0 <= i < |continents| ==>
      forall c :: c in continents[i].countries ==> c !in continent.countries
    ensures forall c :: c in continent.countries ==> c !in CountriesIn(ConnectedOnly(edges, continents))
  {
    var rest := ConnectedOnly(edges, continents);
    forall c | c in continent.countries ensures c !in CountriesIn(rest) {
      forall i | 0 <= i < |rest| ensures c !in rest[i].countries {
        assert rest[i] in continents;
      }
      CountriesInIff(rest, c);
    }
  }

  /** Dropping continents keeps the survivors sound. */
  lemma ConnectedOnlySound(edges: seq<Edge>, continents: seq<Continent>)
    requires ContinentsSound(edges, continents)
    ensures ContinentsSound(edges, ConnectedOnly(edges, continents))
  {
    var kept := ConnectedOnly(edges, continents);
    forall i | 0 <= i < |kept| ensures GrownContinent(edges, kept[i]) {
      assert kept[i] in continents;
      var j :| 0 <= j < |continents| && continents[j] == kept[i];
    }
    ConnectedOnlyDisjoint(edges, continents);
  }

  /** Dropping continents keeps the survivors pairwise disjoint. */
  lemma {:induction false} ConnectedOnlyDisjoint(edges: seq<Edge>, continents: seq<Continent>)
    requires PairwiseDisjoint(continents)
    ensures PairwiseDisjoint(ConnectedOnly(edges, continents))
  {
    if continents != [] {
      var n := |continents| - 1;
      var prefix := continents[..n];
      var last := continents[n];
      assert PairwiseDisjoint(prefix) by {
        forall i | 0 <= i < n ensures prefix[i] == continents[i] { }
      }
      ConnectedOnlyDisjoint(edges, prefix);
      assert ConnectedOnly(edges, continents)
          == if IsUnconnected(edges, last) then ConnectedOnly(edges, prefix) else ConnectedOnly(edges, prefix) + [last];
      if !IsUnconnected(edges, last) {
        forall i | 0 <= i < n
          ensures forall c :: c in prefix[i].countries ==> c !in last.countries
        {
          assert prefix[i] == continents[i];
        }
        DisjointFromSurvivors(edges, prefix, last);
        DisjointAppend(ConnectedOnly(edges, prefix), last);
      }
    }
  }


  /** Dropping continents renumbers nothing: the survivors keep their ids,
      which still increase along the list but may now have gaps. */
  lemma {:induction false} ConnectedOnlyKeepsIdOrder(edges: seq<Edge>, continents: seq<Continent>)
    requires IncreasingIds(continents)
    ensures IncreasingIds(ConnectedOnly(edges, continents))
  {
    if continents != [] {
      var n := |continents| - 1;
      var prefix := continents[..n];
      var last := continents[n];
      ConnectedOnlyKeepsIdOrder(edges, prefix);
      var rest := ConnectedOnly(edges, prefix);
      forall i | 0 <= i < |rest| ensures rest[i].id < last.id {
        assert rest[i] in prefix;
      }
    }
  }

  /** LinkedHashSet.addAll: each element not yet present is appended, in order. */
  function AddAll(acc: seq<Country>, xs: seq<Country>): (r: seq<Country>)
    ensures forall c :: c in r <==> c in acc || c in xs
    ensures NoDuplicates(acc) ==> NoDuplicates(r)
  {
    if xs == [] then acc
    else
      var sofar := AddAll(acc, xs[..|xs| - 1]);
      var last := xs[|xs| - 1];
      assert xs == xs[..|xs| - 1] + [last];
      if last in sofar then sofar else sofar + [last]
  }

  /** collectCountriesInContinents: the continent countries in
      continent-then-member order, each once. */
  function CountriesInOrder(continents: seq<Continent>): (r: seq<Country>)
    ensures NoDuplicates(r)
    ensures forall c :: c in r <==> c in CountriesIn(continents)
  {
    if continents == [] then []
    else AddAll(CountriesInOrder(continents[..|continents| - 1]), continents[|continents| - 1].countries)
  }

  /** The members of all continents, one continent after the other. */
  function Flatten(continents: seq<Continent>): seq<Country> {
    if continents == [] then []
    else Flatten(continents[..|continents| - 1]) + continents[|continents| - 1].countries
  }

  lemma {:induction false} AddAllFresh(acc: seq<Country>, xs: seq<Country>)
    requires NoDuplicates(xs) && forall c :: c in xs ==> c !in acc
    ensures AddAll(acc, xs) == acc + xs
  {
    if xs != [] {
      var n := |xs| - 1;
      assert xs == xs[..n] + [xs[n]];
      AddAllFresh(acc, xs[..n]);
    }
  }

  /** When every continent lists its members once and no two continents share
      a country, the insertion-ordered set is simply every continent's members
      in turn. */
  lemma {:induction false} InContinentOrder(continents: seq<Continent>)
    requires PairwiseDisjoint(continents)
    requires forall i :: 0 <= i < |continents| ==> NoDuplicates(continents[i].countries)
    ensures CountriesInOrder(continents) == Flatten(continents)
  {
    if continents != [] {
      var n := |continents| - 1;
      var prefix := continents[..n];
      assert PairwiseDisjoint(prefix) by {
        forall i | 0 <= i < n ensures prefix[i] == continents[i] { }
      }
      InContinentOrder(prefix);
      forall c | c in continents[n].countries ensures c !in CountriesInOrder(prefix) {
        forall i | 0 <= i < n ensures c !in prefix[i].countries {
          assert continents[i] == prefix[i];
        }
        CountriesInIff(prefix, c);
      }
      AddAllFresh(CountriesInOrder(prefix), continents[n].countries);
    }
  }

  /** The members of a grown continent of at least two countries are among
      its own neighbours: each later member is adjacent to an earlier one and
      the seed is adjacent to the second member. */
  lemma GrownMembersAreNeighbors(edges: seq<Edge>, members: seq<Country>)
    requires GrownFrom(edges, members) && |members| >= 2
    ensures Elements(members) <= ContinentNeighbors(edges, members)
  {
    forall m | m in Elements(members) ensures m in ContinentNeighbors(edges, members) {
      var j :| 0 <= j < |members| && members[j] == m;
      if j == 0 {
        assert members[1] in ContinentNeighbors(edges, members[..1]);
        ContinentNeighborsIff(edges, members[..1], members[1]);
        NeighborsSymmetric(edges, members[0], members[1]);
        MemberNeighborsInContinentNeighbors(edges, members, 1);
      } else {
        ContinentNeighborsMonotone(edges, members[..j], members);
      }
    }
  }

  /** For a grown continent, the source's size test at :411 detects exactly
      the continents with no neighbour outside themselves. */
  lemma UnconnectedIffNoOutsideNeighbor(edges: seq<Edge>, continent: Continent)
    requires GrownFrom(edges, continent.countries) && |continent.countries| >= 2
    requires NoDuplicates(continent.countries)
    ensures IsUnconnected(edges, continent)
        <==> ContinentNeighbors(edges, continent.countries) <= Elements(continent.countries)
  {
    var members := Elements(continent.countries);
    var neighbors := ContinentNeighbors(edges, continent.countries);
    GrownMembersAreNeighbors(edges, continent.countries);
    DistinctCardinality(continent.countries);
    assert neighbors == members + (neighbors - members);
    assert |neighbors| == |members| + |neighbors - members|;
    if |neighbors| == |members| {
      assert neighbors - members == {};
    }
  }

  /** Removing the edges that touch unplaced countries keeps every link
      between countries of a continent, so its growth record survives. */
  lemma GrowthSurvivesPruning(edges: seq<Edge>, unused: set<Country>, members: seq<Country>)
    requires GrownFrom(edges, members)
    requires forall m :: m in members ==> m !in unused
    ensures GrownFrom(WithoutTouching(edges, unused), members)
  {
    var kept := WithoutTouching(edges, unused);
    forall j | 1 <= j < |members| ensures members[j] in ContinentNeighbors(kept, members[..j]) {
      var prefix := members[..j];
      ContinentNeighborsIff(edges, prefix, members[j]);
      var i :| 0 <= i < j && members[j] in Neighbors(edges, prefix[i]);
      NeighborsIff(edges, prefix[i], members[j]);
      NeighborsIff(kept, prefix[i], members[j]);
      ContinentNeighborsIff(kept, prefix, members[j]);
    }
  }

  /** Soundness of continents survives removeUnusedEdges. */
  lemma SoundnessSurvivesPruning(edges: seq<Edge>, unused: set<Country>, continents: seq<Continent>)
    requires ContinentsSound(edges, continents)
    requires forall c :: c in CountriesIn(continents) ==> c !in unused
    ensures ContinentsSound(WithoutTouching(edges, unused), continents)
  {
    forall i | 0 <= i < |continents|
      ensures GrownContinent(WithoutTouching(edges, unused), continents[i])
    {
      forall m | m in continents[i].countries ensures m !in unused {
        CountriesInIff(continents, m);
      }
      GrowthSurvivesPruning(edges, unused, continents[i].countries);
    }
  }

  /** When `unused` holds exactly the countries outside every continent, the
      pruned edge list touches only countries inside continents. */
  lemma PrunedEdgesStayInContinents(edges: seq<Edge>, continents: seq<Continent>, unused: set<Country>)
    requires unused == AllCountries(edges) - CountriesIn(continents)
    ensures forall e :: e in WithoutTouching(edges, unused) ==>
      e.leftCountry in CountriesIn(continents) && e.rightCountry in CountriesIn(continents)
  {
    forall e | e in WithoutTouching(edges, unused)
      ensures e.leftCountry in CountriesIn(continents) && e.rightCountry in CountriesIn(continents)
    {
      EndpointsAreCountries(edges, e);
    }
  }

  /** One country drawn from each of pairwise disjoint continents gives as
      many different countries as there are continents. */
  lemma OnePerContinentAreDistinct(continents: seq<Continent>, picks: seq<Country>)
    requires PairwiseDisjoint(continents) && |picks| == |continents|
    requires forall i :: 0 <= i < |picks| ==> picks[i] in continents[i].countries
    ensures NoDuplicates(picks)
    ensures |Elements(picks)| == |continents|
  {
    forall i, j | 0 <= i < j < |picks| ensures picks[i] != picks[j] {
      assert picks[j] in continents[j].countries;
    }
    DistinctCardinality(picks);
  }
}
