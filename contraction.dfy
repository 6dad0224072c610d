/** Randomised edge contraction (mergeIntoCountry and
    removeDuplicateAndCircularEdges in RandomWorldGenerator.java), stated on
    edge lists. */
module Contraction {
  import opened Countries
  import opened Edges
  import opened Uniqueness
  import opened Worlds

  /** No edge joins a country to itself. */
  predicate NoSelfLoops(edges: seq<Edge>) {
    forall e :: e in edges ==> !e.IsSelfLoop()
  }

  /** The country that stands in the place of `c` after merging `country` into `intoCountry`. */
  function Replace(c: Country, country: Country, intoCountry: Country): Country {
    if c == country then intoCountry else c
  }

  /** One edge after the merge: each endpoint equal to `country` is repointed. */
  function MergeEdge(e: Edge, country: Country, intoCountry: Country): Edge {
    Edge(Replace(e.leftCountry, country, intoCountry), Replace(e.rightCountry, country, intoCountry))
  }

  /** The edge list after the merge, edge by edge. */
  function MergeEdges(edges: seq<Edge>, country: Country, intoCountry: Country): seq<Edge> {
    if edges == [] then []
    else
      var last := edges[|edges| - 1];
      MergeEdges(edges[..|edges| - 1], country, intoCountry) + [MergeEdge(last, country, intoCountry)]
  }

  /** Merging keeps the number of edges and rewrites each edge in its place. */
  lemma {:induction false} MergeEdgesAt(edges: seq<Edge>, country: Country, intoCountry: Country)
    ensures |MergeEdges(edges, country, intoCountry)| == |edges|
    ensures forall i :: 0 <= i < |edges| ==>
      MergeEdges(edges, country, intoCountry)[i] == MergeEdge(edges[i], country, intoCountry)
  {
    if edges != [] {
      MergeEdgesAt(edges[..|edges| - 1], country, intoCountry);
    }
  }

  /** After merging `country` into a different `intoCountry`, `country` is no
      endpoint any more; if it was one before, `intoCountry` now is, and every
      other endpoint is unchanged. */
  lemma {:induction false} MergedCountries(edges: seq<Edge>, country: Country, intoCountry: Country)
    requires country != intoCountry
    ensures AllCountries(MergeEdges(edges, country, intoCountry))
         == if country in AllCountries(edges)
            then (AllCountries(edges) - {country}) + {intoCountry}
            else AllCountries(edges)
  {
    if edges != [] {
      var n := |edges| - 1;
      MergedCountries(edges[..n], country, intoCountry);
      MergeEdgesAt(edges[..n], country, intoCountry);
      assert MergeEdges(edges, country, intoCountry)[..n] == MergeEdges(edges[..n], country, intoCountry);
    }
  }

  /** The source's removeDuplicateAndCircularEdges promises: the result holds
      no edge twice, and holds exactly the input's edges that are not self-loops. */
  ghost predicate DeduplicatedFrom(input: seq<Edge>, output: seq<Edge>) {
    && NoDuplicates(output)
    && forall e :: e in output <==> e in input && !e.IsSelfLoop()
  }

  /** The list with its self-loops removed, order kept. */
  function WithoutSelfLoops(edges: seq<Edge>): (kept: seq<Edge>)
    ensures forall e :: e in kept <==> e in edges && !e.IsSelfLoop()
    ensures NoDuplicates(edges) ==> NoDuplicates(kept)
  {
    if edges == [] then []
    else
      var rest := WithoutSelfLoops(edges[..|edges| - 1]);
      var last := edges[|edges| - 1];
      assert edges == edges[..|edges| - 1] + [last];
      if last.IsSelfLoop() then rest
      else
        assert NoDuplicates(edges) ==> last !in edges[..|edges| - 1];
        rest + [last]
  }

  /** The list without the edges that touch a country of `unused`, order kept. */
  function WithoutTouching(edges: seq<Edge>, unused: set<Country>): (kept: seq<Edge>)
    ensures forall e :: e in kept <==> e in edges && e.leftCountry !in unused && e.rightCountry !in unused
    ensures |kept| <= |edges|
  {
    if edges == [] then []
    else
      var rest := WithoutTouching(edges[..|edges| - 1], unused);
      var last := edges[|edges| - 1];
      assert edges == edges[..|edges| - 1] + [last];
      if last.leftCountry in unused || last.rightCountry in unused then rest
      else rest + [last]
  }

  /** A deduplicated list has no self-loop. */
  lemma DeduplicatedHasNoSelfLoops(input: seq<Edge>, output: seq<Edge>)
    requires DeduplicatedFrom(input, output)
    ensures NoSelfLoops(output)
  {
  }

  /** Deduplicating twice gives the same edges, each once, as deduplicating
      once: the second result is a permutation of the first (the source takes
      the order from a hash set, so the order itself is not fixed). */
  lemma DeduplicationIdempotent(input: seq<Edge>, once: seq<Edge>, twice: seq<Edge>)
    requires DeduplicatedFrom(input, once) && DeduplicatedFrom(once, twice)
    ensures multiset(twice) == multiset(once)
    ensures |twice| == |once|
  {
    SameElementsSameMultiset(twice, once);
    assert |multiset(twice)| == |multiset(once)|;
  }

  /** Deduplication invents no country. */
  lemma DeduplicatedCountries(input: seq<Edge>, output: seq<Edge>)
    requires DeduplicatedFrom(input, output)
    ensures AllCountries(output) <= AllCountries(input)
  {
    forall c | c in AllCountries(output) ensures c in AllCountries(input) {
      AllCountriesIff(output, c);
      var e :| e in output && e.Touches(c);
      AllCountriesIff(input, c);
    }
  }

  /** One counted merge followed by deduplication removes the merged-away
      country from every edge and adds no country. */
  lemma MergeStepShrinks(edges: seq<Edge>, country: Country, intoCountry: Country, output: seq<Edge>)
    requires country != intoCountry && intoCountry in AllCountries(edges)
    requires DeduplicatedFrom(MergeEdges(edges, country, intoCountry), output)
    ensures AllCountries(output) <= AllCountries(edges) - {country}
    ensures forall e :: e in output ==> !e.Touches(country)
  {
    MergedCountries(edges, country, intoCountry);
    DeduplicatedCountries(MergeEdges(edges, country, intoCountry), output);
    forall e | e in output ensures !e.Touches(country) {
      EndpointsAreCountries(output, e);
    }
  }
}
