/** An adjacency between two countries (Edge.java). */
module Edges {
  import Countries

  /** An ordered pair of countries. The source mutates endpoints in place
      during merging; the model replaces the whole pair inside the edge list. */
  datatype Edge = Edge(leftCountry: Countries.Country, rightCountry: Countries.Country) {
    /** Both endpoints are the same country. */
    predicate IsSelfLoop() {
      leftCountry == rightCountry
    }

    /** `c` is one of the two endpoints. */
    predicate Touches(c: Countries.Country) {
      leftCountry == c || rightCountry == c
    }
  }

  /** Edge.equals: left endpoint against left endpoint, then right against right. */
  function Equals(e: Edge, other: Edge): (r: bool)
    ensures r <==> e.leftCountry == other.leftCountry && e.rightCountry == other.rightCountry
    ensures r <==> e == other
  {
    if !Countries.Equals(e.leftCountry, other.leftCountry) then false
    else if !Countries.Equals(e.rightCountry, other.rightCountry) then false
    else true
  }

  /** Edge.hashCode, without the 32-bit wrap-around. */
  function HashCode(e: Edge): int {
    31 * (31 * 1 + Countries.HashCode(e.leftCountry)) + Countries.HashCode(e.rightCountry)
  }

  /** The constructor stores both endpoints as given. */
  lemma ConstructorStoresEndpoints(a: Countries.Country, b: Countries.Country)
    ensures Edge(a, b).leftCountry == a && Edge(a, b).rightCountry == b
  {
  }

  /** Equality is order-sensitive: an edge equals its reverse only when it is a self-loop. */
  lemma EqualsIsOrderSensitive(a: Countries.Country, b: Countries.Country)
    ensures Equals(Edge(a, b), Edge(b, a)) <==> a == b
  {
  }

  /** equals is reflexive. */
  lemma EqualsReflexive(e: Edge)
    ensures Equals(e, e)
  {
  }

  /** Equal edges have equal hash codes. */
  lemma HashCodeAgreesWithEquals(e: Edge, other: Edge)
    requires Equals(e, other)
    ensures HashCode(e) == HashCode(other)
  {
  }
}
