/** A territory of the generated world (Country.java). */
module Countries {

  /** The id every country holds until one of the id passes assigns it one. */
  const UnassignedId: int := -1

  /** A country is identified by the grid cell it was created at. Its mutable
      `id` is not part of the value: the id passes produce a separate map
      (see IdOf), so equality, hashing and set membership never depend on it. */
  datatype Country = Country(originalGridCellX: int, originalGridCellY: int)

  /** The id of `c` under an id assignment; a country that was never assigned
      one still has the initial value. */
  function IdOf(ids: map<Country, int>, c: Country): int {
    if c in ids then ids[c] else UnassignedId
  }

  /** Country.equals: first the X coordinates, then the Y coordinates. */
  function Equals(c: Country, other: Country): (r: bool)
    ensures r <==> c == other
  {
    if c.originalGridCellX != other.originalGridCellX then false
    else if c.originalGridCellY != other.originalGridCellY then false
    else true
  }

  /** Country.hashCode, without the 32-bit wrap-around. */
  function HashCode(c: Country): int {
    31 * (31 * 1 + c.originalGridCellX) + c.originalGridCellY
  }

  /** A fresh country, before any id pass, has the initial id. */
  lemma NewCountryIsUnassigned(x: int, y: int)
    ensures IdOf(map[], Country(x, y)) == UnassignedId
  {
  }

  /** equals is reflexive. */
  lemma EqualsReflexive(c: Country)
    ensures Equals(c, c)
  {
  }

  /** Equal countries have equal hash codes. */
  lemma HashCodeAgreesWithEquals(c: Country, other: Country)
    requires Equals(c, other)
    ensures HashCode(c) == HashCode(other)
  {
  }
}
