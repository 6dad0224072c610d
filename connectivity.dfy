/** What combineCountryCells does to the country graph (RandomWorldGenerator.java):
    the merges described on edge sets, independently of list order, and the
    connectivity that guarantees every merge removes exactly one country. */
module Connectivity {
  import opened Countries
  import opened Edges
  import opened Uniqueness
  import opened Worlds
  import opened Grid
  import opened Contraction

  /** One merge of combineCountryCells: `country` is merged into `intoCountry`. */
  datatype Merge = Merge(country: Country, intoCountry: Country)

  /** One merge on a set of edges: every edge repointed, self-loops dropped. */
  function MergeSet(edges: set<Edge>, m: Merge): set<Edge> {
    set e | e in edges && !MergeEdge(e, m.country, m.intoCountry).IsSelfLoop()
          :: MergeEdge(e, m.country, m.intoCountry)
  }

  /** The edge set after a sequence of merges, applied in order. */
  function Contracted(edges: set<Edge>, merges: seq<Merge>): set<Edge> {
    if merges == [] then edges
    else MergeSet(Contracted(edges, merges[..|merges| - 1]), merges[|merges| - 1])
  }

  /** Every merge joins two different countries that are neighbours at that point. */
  ghost predicate ValidMerges(edges: set<Edge>, merges: seq<Merge>) {
    merges == [] ||
    (var before := Contracted(edges, merges[..|merges| - 1]);
     var m := merges[|merges| - 1];
     && ValidMerges(edges, merges[..|merges| - 1])
     && m.country != m.intoCountry
     && (Edge(m.country, m.intoCountry) in before || Edge(m.intoCountry, m.country) in before))
  }

  /** The country standing in the place of `c` after a sequence of merges. */
  function ReplaceAll(c: Country, merges: seq<Merge>): Country {
    if merges == [] then c
    else
      var m := merges[|merges| - 1];
      Replace(ReplaceAll(c, merges[..|merges| - 1]), m.country, m.intoCountry)
  }

  /** `a` and `b` are the same country or joined by an edge in either direction. */
  predicate Linked(edges: seq<Edge>, a: Country, b: Country) {
    a == b || Edge(a, b) in edges || Edge(b, a) in edges
  }

  /** `p` is a walk from `a` to `b`: consecutive countries are linked. */
  ghost predicate WalkBetween(edges: seq<Edge>, p: seq<Country>, a: Country, b: Country) {
    && |p| >= 1 && p[0] == a && p[|p| - 1] == b
    && forall i :: 0 <= i < |p| - 1 ==> Linked(edges, p[i], p[i + 1])
  }

  /** Every country can be reached from `root`. */
  ghost predicate ConnectedFrom(edges: seq<Edge>, root: Country) {
    forall c :: c in AllCountries(edges) ==> exists p :: WalkBetween(edges, p, root, c)
  }

  /** A walk with every country replaced as one merge replaces it. */
  function ReplaceAlong(p: seq<Country>, country: Country, intoCountry: Country): (q: seq<Country>)
    ensures |q| == |p|
    ensures forall i :: 0 <= i < |p| ==> q[i] == Replace(p[i], country, intoCountry)
  {
    seq(|p|, i requires 0 <= i < |p| => Replace(p[i], country, intoCountry))
  }

  /** An edge that the merge does not turn into a self-loop survives deduplication. */
  lemma MergedEdgeKept(edges: seq<Edge>, country: Country, intoCountry: Country, output: seq<Edge>, e: Edge)
    requires DeduplicatedFrom(MergeEdges(edges, country, intoCountry), output)
    requires e in edges && !MergeEdge(e, country, intoCountry).IsSelfLoop()
    ensures MergeEdge(e, country, intoCountry) in output
  {
    MergeEdgesAt(edges, country, intoCountry);
    var k :| 0 <= k < |edges| && edges[k] == e;
    assert MergeEdges(edges, country, intoCountry)[k] == MergeEdge(e, country, intoCountry);
  }

  /** Every edge after merge and deduplication is a merged edge of the input. */
  lemma MergedEdgeOrigin(edges: seq<Edge>, country: Country, intoCountry: Country, output: seq<Edge>, f: Edge)
    requires DeduplicatedFrom(MergeEdges(edges, country, intoCountry), output)
    requires f in output
    ensures exists e :: e in edges && f == MergeEdge(e, country, intoCountry) && !f.IsSelfLoop()
  {
    MergeEdgesAt(edges, country, intoCountry);
    var merged := MergeEdges(edges, country, intoCountry);
    var k :| 0 <= k < |merged| && merged[k] == f;
    assert edges[k] in edges;
  }

  /** The list-level merge followed by removeDuplicateAndCircularEdges leaves
      exactly the edge set of the set-level merge. */
  lemma DeduplicatedIsMergeSet(edges: seq<Edge>, country: Country, intoCountry: Country, output: seq<Edge>)
    requires DeduplicatedFrom(MergeEdges(edges, country, intoCountry), output)
    ensures Elements(output) == MergeSet(Elements(edges), Merge(country, intoCountry))
  {
    var merged := MergeSet(Elements(edges), Merge(country, intoCountry));
    forall f | f in Elements(output) ensures f in merged {
      MergedEdgeOrigin(edges, country, intoCountry, output, f);
      var e :| e in edges && f == MergeEdge(e, country, intoCountry) && !f.IsSelfLoop();
      assert e in Elements(edges);
    }
    forall f | f in merged ensures f in Elements(output) {
      var e :| e in Elements(edges) && !MergeEdge(e, country, intoCountry).IsSelfLoop()
               && f == MergeEdge(e, country, intoCountry);
      MergedEdgeKept(edges, country, intoCountry, output, e);
    }
  }

  /** A set-level merge leaves no edge that touches the merged-away country. */
  lemma MergeSetRemovesCountry(edges: set<Edge>, m: Merge, f: Edge)
    requires m.country != m.intoCountry && f in MergeSet(edges, m)
    ensures !f.Touches(m.country)
  {
    var e :| e in edges && !MergeEdge(e, m.country, m.intoCountry).IsSelfLoop()
             && f == MergeEdge(e, m.country, m.intoCountry);
  }

  /** A walk stays a walk after a merge and deduplication, with its countries replaced. */
  lemma WalkSurvivesMerge(edges: seq<Edge>, country: Country, intoCountry: Country, output: seq<Edge>,
                          p: seq<Country>, a: Country, b: Country)
    requires DeduplicatedFrom(MergeEdges(edges, country, intoCountry), output)
    requires WalkBetween(edges, p, a, b)
    ensures WalkBetween(output, ReplaceAlong(p, country, intoCountry),
                        Replace(a, country, intoCountry), Replace(b, country, intoCountry))
  {
    var q := ReplaceAlong(p, country, intoCountry);
    forall i | 0 <= i < |q| - 1 ensures Linked(output, q[i], q[i + 1]) {
      assert Linked(edges, p[i], p[i + 1]);
      if q[i] != q[i + 1] {
        if Edge(p[i], p[i + 1]) in edges {
          MergedEdgeKept(edges, country, intoCountry, output, Edge(p[i], p[i + 1]));
        } else if Edge(p[i + 1], p[i]) in edges {
          MergedEdgeKept(edges, country, intoCountry, output, Edge(p[i + 1], p[i]));
        }
      }
    }
  }

  /** A walk from inside `s` to outside it, or the reverse, uses an edge
      with one endpoint inside and one outside. */
  lemma {:induction false} WalkCrosses(edges: seq<Edge>, p: seq<Country>, a: Country, b: Country, s: set<Country>)
    requires WalkBetween(edges, p, a, b) && (a in s <==> b !in s)
    ensures exists e :: e in edges && (e.leftCountry in s <==> e.rightCountry !in s)
  {
    var n := |p| - 1;
    assert n >= 1;
    var prefix := p[..n];
    assert Linked(edges, p[n - 1], p[n]);
    if (p[n - 1] in s) == (b in s) {
      assert WalkBetween(edges, prefix, a, p[n - 1]) by {
        forall i | 0 <= i < |prefix| - 1 ensures Linked(edges, prefix[i], prefix[i + 1]) {
          assert Linked(edges, p[i], p[i + 1]);
        }
      }
      WalkCrosses(edges, prefix, a, p[n - 1], s);
    } else if Edge(p[n - 1], p[n]) in edges {
      var e := Edge(p[n - 1], p[n]);
      assert e.leftCountry in s <==> e.rightCountry !in s;
    } else {
      var e := Edge(p[n], p[n - 1]);
      assert e in edges && (e.leftCountry in s <==> e.rightCountry !in s);
    }
  }

  /** After merging `country` into `intoCountry`, every other country keeps an edge. */
  lemma OthersSurvive(edges: seq<Edge>, country: Country, intoCountry: Country, output: seq<Edge>, c: Country)
    requires NoSelfLoops(edges) && DeduplicatedFrom(MergeEdges(edges, country, intoCountry), output)
    requires c in AllCountries(edges) && c != country && c != intoCountry
    ensures c in AllCountries(output)
  {
    AllCountriesIff(edges, c);
    var e :| e in edges && e.Touches(c);
    var f := MergeEdge(e, country, intoCountry);
    assert f.Touches(c) && !f.IsSelfLoop();
    MergedEdgeKept(edges, country, intoCountry, output, e);
    EndpointsAreCountries(output, f);
  }

  /** In a connected graph of at least three countries, the country merged
      into keeps an edge: some edge leaves the merged pair. */
  lemma IntoCountrySurvives(edges: seq<Edge>, root: Country, country: Country, intoCountry: Country, output: seq<Edge>)
    requires ConnectedFrom(edges, root)
    requires DeduplicatedFrom(MergeEdges(edges, country, intoCountry), output)
    requires country != intoCountry && country in AllCountries(edges) && intoCountry in AllCountries(edges)
    requires |AllCountries(edges)| >= 3
    ensures intoCountry in AllCountries(output)
  {
    var pair := {country, intoCountry};
    var e := PairIsLeft(edges, root, country, intoCountry, pair);
    CrossingEdgeKeepsInto(edges, country, intoCountry, output, pair, e);
  }

  /** In a connected graph of at least three countries some edge has
      exactly one endpoint in a given pair of countries. */
  lemma PairIsLeft(edges: seq<Edge>, root: Country, country: Country, intoCountry: Country, pair: set<Country>)
    returns (e: Edge)
    requires ConnectedFrom(edges, root)
    requires pair == {country, intoCountry}
    requires country in AllCountries(edges) && intoCountry in AllCountries(edges)
    requires |AllCountries(edges)| >= 3
    ensures e in edges && (e.leftCountry in pair <==> e.rightCountry !in pair)
  {
    var other := ThirdCountry(AllCountries(edges), country, intoCountry);
    var target;
    if root in pair {
      target := other;
    } else {
      target := intoCountry;
    }
    var p :| WalkBetween(edges, p, root, target);
    WalkCrosses(edges, p, root, target, pair);
    e :| e in edges && (e.leftCountry in pair <==> e.rightCountry !in pair);
  }

  /** A set of at least three countries has one that is neither of two given ones. */
  lemma ThirdCountry(all: set<Country>, country: Country, intoCountry: Country) returns (other: Country)
    requires |all| >= 3
    ensures other in all && other != country && other != intoCountry
  {
    var pair := {country, intoCountry};
    var others := all - pair;
    assert all <= others + pair;
    SubsetCardinality(all, others + pair);
    other :| other in others;
  }

  /** An edge with exactly one endpoint in the merged pair becomes an edge
      from `intoCountry` to a third country. */
  lemma CrossingEdgeKeepsInto(edges: seq<Edge>, country: Country, intoCountry: Country, output: seq<Edge>,
                              pair: set<Country>, e: Edge)
    requires DeduplicatedFrom(MergeEdges(edges, country, intoCountry), output)
    requires pair == {country, intoCountry}
    requires e in edges && (e.leftCountry in pair <==> e.rightCountry !in pair)
    ensures intoCountry in AllCountries(output)
  {
    var f := MergeEdge(e, country, intoCountry);
    if e.leftCountry == country || e.leftCountry == intoCountry {
      assert f == Edge(intoCountry, e.rightCountry);
    } else {
      assert f == Edge(e.leftCountry, intoCountry);
    }
    MergedEdgeKept(edges, country, intoCountry, output, e);
    EndpointsAreCountries(output, f);
  }

  /** A merge keeps the graph connected, from the root as the merge replaces it. */
  lemma ConnectedAfterMerge(edges: seq<Edge>, root: Country, country: Country, intoCountry: Country, output: seq<Edge>)
    requires ConnectedFrom(edges, root)
    requires country != intoCountry && intoCountry in AllCountries(edges)
    requires DeduplicatedFrom(MergeEdges(edges, country, intoCountry), output)
    ensures ConnectedFrom(output, Replace(root, country, intoCountry))
  {
    MergeStepShrinks(edges, country, intoCountry, output);
    forall c | c in AllCountries(output)
      ensures exists q :: WalkBetween(output, q, Replace(root, country, intoCountry), c)
    {
      var p :| WalkBetween(edges, p, root, c);
      WalkSurvivesMerge(edges, country, intoCountry, output, p, root, c);
    }
  }

  /** In a connected graph of at least three countries, merging a neighbour
      into a country removes exactly that neighbour from the countries and
      keeps the graph connected. */
  lemma MergeRemovesExactlyOne(edges: seq<Edge>, root: Country, country: Country, intoCountry: Country, output: seq<Edge>)
    requires NoSelfLoops(edges) && ConnectedFrom(edges, root) && |AllCountries(edges)| >= 3
    requires intoCountry in AllCountries(edges) && country in Neighbors(edges, intoCountry)
    requires DeduplicatedFrom(MergeEdges(edges, country, intoCountry), output)
    ensures AllCountries(output) == AllCountries(edges) - {country}
    ensures ConnectedFrom(output, Replace(root, country, intoCountry))
  {
    NoSelfNeighbor(edges, intoCountry);
    NeighborsAreCountries(edges, intoCountry);
    MergeStepShrinks(edges, country, intoCountry, output);
    IntoCountrySurvives(edges, root, country, intoCountry, output);
    forall c | c in AllCountries(edges) - {country} ensures c in AllCountries(output) {
      if c != intoCountry {
        OthersSurvive(edges, country, intoCountry, output, c);
      }
    }
    ConnectedAfterMerge(edges, root, country, intoCountry, output);
  }

  /** A non-empty edge list without self-loops has at least two countries. */
  lemma EdgeHasTwoCountries(edges: seq<Edge>)
    requires NoSelfLoops(edges) && edges != []
    ensures |AllCountries(edges)| >= 2
  {
    var e := edges[0];
    EndpointsAreCountries(edges, e);
    assert {e.leftCountry, e.rightCountry} <= AllCountries(edges);
    SubsetCardinality({e.leftCountry, e.rightCountry}, AllCountries(edges));
  }

  /** The countries of the initial grid are exactly its cells (from two rows on). */
  lemma GridCountries(gridWidth: nat, gridHeight: nat)
    requires gridHeight >= 2
    ensures AllCountries(GridEdges(gridWidth, gridHeight)) == GridCells(gridWidth, gridHeight)
  {
    var edges := GridEdges(gridWidth, gridHeight);
    forall c | c in AllCountries(edges) ensures c in GridCells(gridWidth, gridHeight) {
      AllCountriesIff(edges, c);
      var e :| e in edges && e.Touches(c);
      GridEdgesIff(gridWidth, gridHeight, e);
    }
    forall c | c in GridCells(gridWidth, gridHeight) ensures c in AllCountries(edges) {
      var x, y := c.originalGridCellX, c.originalGridCellY;
      var e := if y + 1 < gridHeight then Edge(c, Country(x, y + 1)) else Edge(Country(x, y - 1), c);
      GridEdgesIff(gridWidth, gridHeight, e);
      EndpointsAreCountries(edges, e);
    }
  }

  /** The walk from the top-left cell along the first row to column x, then down to row y. */
  function GridWalk(x: nat, y: nat): seq<Country> {
    seq(x + y + 1, i requires 0 <= i < x + y + 1 => if i <= x then Country(i, 0) else Country(x, i - x))
  }

  /** Every cell of the initial grid is reached from the top-left cell. */
  lemma GridConnected(gridWidth: nat, gridHeight: nat)
    requires gridHeight >= 2
    ensures ConnectedFrom(GridEdges(gridWidth, gridHeight), Country(0, 0))
  {
    var edges := GridEdges(gridWidth, gridHeight);
    GridCountries(gridWidth, gridHeight);
    forall c | c in AllCountries(edges) ensures exists p :: WalkBetween(edges, p, Country(0, 0), c) {
      var x, y := c.originalGridCellX, c.originalGridCellY;
      var p := GridWalk(x, y);
      forall i | 0 <= i < |p| - 1 ensures Linked(edges, p[i], p[i + 1]) {
        GridEdgesIff(gridWidth, gridHeight, Edge(p[i], p[i + 1]));
      }
      assert WalkBetween(edges, p, Country(0, 0), c);
    }
  }
}
