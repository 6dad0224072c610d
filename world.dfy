/** The world aggregate and its adjacency queries (World.java). */
module Worlds {
  import opened Countries
  import opened Edges

  /** A group of countries scored together. The member list holds no country
      twice; `id` and `bonus` are set when the generator keeps the continent. */
  datatype Continent = Continent(countries: seq<Country>, id: int, bonus: int)

  /** What one edge contributes to the neighbours of `c`: its other endpoint
      when `c` is its left and/or its right endpoint. */
  function EdgeNeighbors(e: Edge, c: Country): set<Country> {
    (if e.leftCountry == c then {e.rightCountry} else {})
    + (if e.rightCountry == c then {e.leftCountry} else {})
  }

  /** The neighbours of `c` in `edges`, accumulated edge by edge. */
  function Neighbors(edges: seq<Edge>, c: Country): set<Country> {
    if edges == [] then {}
    else Neighbors(edges[..|edges| - 1], c) + EdgeNeighbors(edges[|edges| - 1], c)
  }

  /** Every endpoint of every edge. */
  function AllCountries(edges: seq<Edge>): set<Country> {
    if edges == [] then {}
    else
      var last := edges[|edges| - 1];
      AllCountries(edges[..|edges| - 1]) + {last.leftCountry, last.rightCountry}
  }

  /** The neighbours of a list of countries, accumulated member by member. */
  function ContinentNeighbors(edges: seq<Edge>, members: seq<Country>): set<Country> {
    if members == [] then {}
    else ContinentNeighbors(edges, members[..|members| - 1]) + Neighbors(edges, members[|members| - 1])
  }

  /** b is a neighbour of c exactly when an edge (c, b) or (b, c) exists. */
  lemma {:induction false} NeighborsIff(edges: seq<Edge>, c: Country, b: Country)
    ensures b in Neighbors(edges, c) <==> Edge(c, b) in edges || Edge(b, c) in edges
  {
    if edges != [] {
      var n := |edges| - 1;
      assert edges == edges[..n] + [edges[n]];
      NeighborsIff(edges[..n], c, b);
    }
  }

  /** A country is collected exactly when it is an endpoint of some edge. */
  lemma {:induction false} AllCountriesIff(edges: seq<Edge>, c: Country)
    ensures c in AllCountries(edges) <==> exists e :: e in edges && e.Touches(c)
  {
    if edges != [] {
      var n := |edges| - 1;
      assert edges == edges[..n] + [edges[n]];
      AllCountriesIff(edges[..n], c);
      if c in AllCountries(edges[..n]) {
        var e :| e in edges[..n] && e.Touches(c);
        assert e in edges;
      }
      if c == edges[n].leftCountry || c == edges[n].rightCountry {
        assert edges[n].Touches(c);
      }
    }
  }

  /** Every endpoint of an edge in the list is collected. */
  lemma EndpointsAreCountries(edges: seq<Edge>, e: Edge)
    requires e in edges
    ensures e.leftCountry in AllCountries(edges) && e.rightCountry in AllCountries(edges)
  {
    AllCountriesIff(edges, e.leftCountry);
    AllCountriesIff(edges, e.rightCountry);
  }

  /** The neighbours of a list are the union of its members' neighbours. */
  lemma {:induction false} ContinentNeighborsIff(edges: seq<Edge>, members: seq<Country>, b: Country)
    ensures b in ContinentNeighbors(edges, members)
        <==> exists i :: 0 <= i < |members| && b in Neighbors(edges, members[i])
  {
    if members != [] {
      var n := |members| - 1;
      ContinentNeighborsIff(edges, members[..n], b);
      if b in ContinentNeighbors(edges, members[..n]) {
        var i :| 0 <= i < n && b in Neighbors(edges, members[..n][i]);
        assert members[..n][i] == members[i];
      }
      if exists i :: 0 <= i < |members| && b in Neighbors(edges, members[i]) {
        var i :| 0 <= i < |members| && b in Neighbors(edges, members[i]);
        if i < n {
          assert members[..n][i] == members[i];
        }
      }
    }
  }

  /** A member's neighbours are among the neighbours of the whole list. */
  lemma MemberNeighborsInContinentNeighbors(edges: seq<Edge>, members: seq<Country>, i: int)
    requires 0 <= i < |members|
    ensures Neighbors(edges, members[i]) <= ContinentNeighbors(edges, members)
  {
    forall b | b in Neighbors(edges, members[i])
      ensures b in ContinentNeighbors(edges, members)
    {
      ContinentNeighborsIff(edges, members, b);
    }
  }

  /** Adding members can only add neighbours. */
  lemma ContinentNeighborsMonotone(edges: seq<Edge>, members: seq<Country>, more: seq<Country>)
    requires forall m :: m in members ==> m in more
    ensures ContinentNeighbors(edges, members) <= ContinentNeighbors(edges, more)
  {
    forall b | b in ContinentNeighbors(edges, members)
      ensures b in ContinentNeighbors(edges, more)
    {
      ContinentNeighborsIff(edges, members, b);
      var i :| 0 <= i < |members| && b in Neighbors(edges, members[i]);
      assert members[i] in more;
      var j :| 0 <= j < |more| && more[j] == members[i];
      ContinentNeighborsIff(edges, more, b);
    }
  }

  /** Neighbourhood is symmetric, whatever the orientation of the stored edges. */
  lemma NeighborsSymmetric(edges: seq<Edge>, a: Country, b: Country)
    ensures b in Neighbors(edges, a) <==> a in Neighbors(edges, b)
  {
    NeighborsIff(edges, a, b);
    NeighborsIff(edges, b, a);
  }

  /** A country is its own neighbour exactly when a self-loop on it exists. */
  lemma SelfNeighborIffSelfLoop(edges: seq<Edge>, c: Country)
    ensures c in Neighbors(edges, c) <==> Edge(c, c) in edges
  {
    NeighborsIff(edges, c, c);
  }

  /** Without self-loops no country is its own neighbour. */
  lemma NoSelfNeighbor(edges: seq<Edge>, c: Country)
    requires forall e :: e in edges ==> !e.IsSelfLoop()
    ensures c !in Neighbors(edges, c)
  {
    SelfNeighborIffSelfLoop(edges, c);
  }

  /** Every neighbour is an endpoint of some edge, so it is a collected country. */
  lemma NeighborsAreCountries(edges: seq<Edge>, c: Country)
    ensures Neighbors(edges, c) <= AllCountries(edges)
  {
    forall b | b in Neighbors(edges, c) ensures b in AllCountries(edges) {
      NeighborsIff(edges, c, b);
      if Edge(c, b) in edges {
        EndpointsAreCountries(edges, Edge(c, b));
      } else {
        EndpointsAreCountries(edges, Edge(b, c));
      }
    }
  }

  /** A collected country has at least one neighbour (possibly itself). */
  lemma CountriesHaveNeighbors(edges: seq<Edge>, c: Country)
    requires c in AllCountries(edges)
    ensures Neighbors(edges, c) != {}
  {
    AllCountriesIff(edges, c);
    var e :| e in edges && e.Touches(c);
    if e.leftCountry == c {
      NeighborsIff(edges, c, e.rightCountry);
    } else {
      NeighborsIff(edges, c, e.leftCountry);
    }
  }

  /** The neighbours of a list lie among the collected countries. */
  lemma ContinentNeighborsAreCountries(edges: seq<Edge>, members: seq<Country>)
    ensures ContinentNeighbors(edges, members) <= AllCountries(edges)
  {
    forall b | b in ContinentNeighbors(edges, members) ensures b in AllCountries(edges) {
      ContinentNeighborsIff(edges, members, b);
      var i :| 0 <= i < |members| && b in Neighbors(edges, members[i]);
      NeighborsAreCountries(edges, members[i]);
    }
  }

  /** Storing the reverse of an existing edge changes no neighbour set. */
  lemma ReversedEdgeAddsNoNeighbors(edges: seq<Edge>, a: Country, b: Country, c: Country)
    requires Edge(a, b) in edges
    ensures Neighbors(edges + [Edge(b, a)], c) == Neighbors(edges, c)
  {
    var more := edges + [Edge(b, a)];
    assert more[..|more| - 1] == edges;
    assert EdgeNeighbors(Edge(b, a), c) <= Neighbors(edges, c) by {
      NeighborsIff(edges, c, a);
      NeighborsIff(edges, c, b);
    }
  }

  /** The world aggregate. The generator updates these fields in place. */
  class World {
    var continents: seq<Continent>
    var countriesById: map<int, Country>
    var edges: seq<Edge>
    var maxRounds: int
    var startingCountries: set<Country>
    var wastelandCountries: set<Country>

    constructor ()
      ensures continents == [] && countriesById == map[] && edges == []
      ensures maxRounds == 0 && startingCountries == {} && wastelandCountries == {}
    {
      continents := [];
      countriesById := map[];
      edges := [];
      maxRounds := 0;
      startingCountries := {};
      wastelandCountries := {};
    }

    /** The neighbours of one country: the other endpoint of every edge it is
        on. Reads the edge list and changes nothing. */
    method CollectNeighborCountries(country: Country) returns (neighborCountries: set<Country>)
      ensures neighborCountries == Neighbors(edges, country)
      ensures forall b :: b in neighborCountries <==> Edge(country, b) in edges || Edge(b, country) in edges
    {
      neighborCountries := {};
      for i := 0 to |edges|
        invariant neighborCountries == Neighbors(edges[..i], country)
      {
        assert edges[..i + 1][..i] == edges[..i];
        var edge := edges[i];
        if edge.leftCountry == country {
          neighborCountries := neighborCountries + {edge.rightCountry};
        }
        if edge.rightCountry == country {
          neighborCountries := neighborCountries + {edge.leftCountry};
        }
      }
      assert edges[..|edges|] == edges;
      forall b ensures b in neighborCountries <==> Edge(country, b) in edges || Edge(b, country) in edges {
        NeighborsIff(edges, country, b);
      }
    }

    /** The neighbours of a whole continent: the union of its members'
        neighbours, members adjacent to each other included. */
    method CollectContinentNeighborCountries(continent: Continent) returns (neighborCountries: set<Country>)
      ensures neighborCountries == ContinentNeighbors(edges, continent.countries)
    {
      neighborCountries := {};
      var members := continent.countries;
      for i := 0 to |members|
        invariant neighborCountries == ContinentNeighbors(edges, members[..i])
      {
        assert members[..i + 1][..i] == members[..i];
        var countryNeighbors := CollectNeighborCountries(members[i]);
        neighborCountries := neighborCountries + countryNeighbors;
      }
      assert members[..|members|] == members;
    }
  }
}
