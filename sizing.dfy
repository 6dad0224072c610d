/** The generator's numeric policies (RandomWorldGenerator.java). The source
    computes them in double precision and truncates with an `(int)` cast;
    each is written here as an exact integer formula and proved equal to the
    truncation of the same formula over the reals. */
module Sizing {

  /** MAX_CONTINENT_SIZE: growth stops once a continent is larger than this. */
  const MaxContinentSize: int := 6
  /** MIN_CONTINENT_SIZE: smaller continents are discarded. */
  const MinContinentSize: int := 2

  /** Java's `(int)` cast of a double: truncation toward zero. */
  function Trunc(v: real): (r: int)
    ensures v >= 0.0 ==> r as real <= v < r as real + 1.0
    ensures v < 0.0 ==> r as real - 1.0 < v <= r as real
  {
    if v >= 0.0 then v.Floor else -((-v).Floor)
  }

  /** The number of grid cells for a goal country count:
      `(int) (goal * GRID_CELL_COMBINES_PER_COUNTRY * UNUSED_COUNTRY_OVERAGE)`,
      that is goal * 2.5 * 1.12 = 14 * goal / 5, truncated toward zero. */
  function GridCellCount(goalCountryCount: int): (cells: int)
    ensures cells == Trunc(goalCountryCount as real * 2.5 * 1.12)
  {
    var g := goalCountryCount;
    var exact := g as real * 2.5 * 1.12;
    assert exact == (14 * g) as real / 5.0;
    if g >= 0 then
      var q := 14 * g / 5;
      assert (14 * g) as real == 5.0 * q as real + (14 * g % 5) as real;
      q
    else
      var q := 14 * -g / 5;
      assert (14 * -g) as real == 5.0 * q as real + (14 * -g % 5) as real;
      -q
  }

  /** The integer square root, as `(int) Math.sqrt(n)` computes it for n >= 0. */
  function ISqrt(n: nat): (r: nat)
    ensures r * r <= n < (r + 1) * (r + 1)
  {
    if n == 0 then 0
    else
      var s := ISqrt(n - 1);
      if (s + 1) * (s + 1) <= n then s + 1 else s
  }

  /** gridWidth: the integer square root of the cell count; a negative cell
      count makes Math.sqrt return NaN, which the cast turns into 0. */
  function GridWidth(goalCountryCount: int): (w: nat)
    ensures GridCellCount(goalCountryCount) <= 0 ==> w == 0
    ensures GridCellCount(goalCountryCount) > 0 ==>
      w * w <= GridCellCount(goalCountryCount) < (w + 1) * (w + 1)
  {
    var cells := GridCellCount(goalCountryCount);
    if cells <= 0 then 0 else ISqrt(cells)
  }

  /** gridHeight is one more than gridWidth, so the grid is never square. */
  function GridHeight(goalCountryCount: int): nat {
    GridWidth(goalCountryCount) + 1
  }

  /** The number of successful merges of combineCountryCells: the loop
      `for (i = 0; i < combineCount; i++)` with
      combineCount = w * h * (2.5 - 1) / 2.5 runs until i is the least
      integer not below combineCount, i.e. the ceiling of 3 * w * h / 5. */
  function CombineCount(gridWidth: nat, gridHeight: nat): (n: nat)
    ensures !(n as real < (gridWidth * gridHeight) as real * (2.5 - 1.0) / 2.5)
    ensures n > 0 ==> (n - 1) as real < (gridWidth * gridHeight) as real * (2.5 - 1.0) / 2.5
  {
    var cells := gridWidth * gridHeight;
    var n := (3 * cells + 4) / 5;
    assert (cells as real) * (2.5 - 1.0) / 2.5 == (3 * cells) as real / 5.0;
    assert 5 * n <= 3 * cells + 4 < 5 * n + 5;
    n
  }

  /** calculateMaxRounds: `(int) (countryCount * 2.5)`. */
  function MaxRounds(countryCount: nat): (rounds: nat)
    ensures rounds == Trunc(countryCount as real * 2.5)
  {
    var q := 5 * countryCount / 2;
    assert (5 * countryCount) as real == 2.0 * q as real + (5 * countryCount % 2) as real;
    q
  }

  /** chooseWastelandCountries: `(int) (continentCount / 2.4)`. */
  function WastelandCount(continentCount: nat): (count: nat)
    ensures count == Trunc(continentCount as real / 2.4)
  {
    var q := 5 * continentCount / 12;
    assert continentCount as real / 2.4 == (5 * continentCount) as real / 12.0;
    assert (5 * continentCount) as real == 12.0 * q as real + (5 * continentCount % 12) as real;
    q
  }

  /** chooseContinentBonus:
      `(int) ((size - 1) + (-1.5 + random * 4))` with random drawn from [0, 1).
      For a kept continent (size at least 2) the bonus lies in 0 .. size + 1. */
  function ContinentBonus(size: int, random: real): (bonus: int)
    ensures size >= MinContinentSize && 0.0 <= random < 1.0 ==> 0 <= bonus <= size + 1
  {
    Trunc((size - 1) as real + (-1.5 + random * 4.0))
  }

  /** A continent of 3 whose jitter term -1.5 + random * 4 is exactly 0 gets bonus 2. */
  lemma BonusWithoutJitter()
    ensures ContinentBonus(3, 0.375) == 2
  {
  }

  /** Every merge removes a country, so at most cells - 1 merges can succeed.
      From three cells on the merge count stays below that bound. */
  lemma CombineCountFitsGrid(gridWidth: nat, gridHeight: nat)
    requires gridWidth * gridHeight >= 3
    ensures 1 <= CombineCount(gridWidth, gridHeight) <= gridWidth * gridHeight - 1
  {
    var cells := gridWidth * gridHeight;
    assert CombineCount(gridWidth, gridHeight) == (3 * cells + 4) / 5;
  }

  /** A goal of one country gives a 1 by 2 grid whose two cells would need two
      merges: the second merge finds no country left to draw. */
  lemma SingleCountryGoalOvershoots()
    ensures GridWidth(1) == 1 && GridHeight(1) == 2
    ensures CombineCount(1, 2) == 2
  {
    assert GridCellCount(1) == 2;
  }

  /** From five cells on, at least two countries are left after all merges. */
  lemma CombineCountLeavesTwo(gridWidth: nat, gridHeight: nat)
    requires gridWidth * gridHeight >= 5
    ensures CombineCount(gridWidth, gridHeight) <= gridWidth * gridHeight - 2
  {
    var cells := gridWidth * gridHeight;
    assert CombineCount(gridWidth, gridHeight) == (3 * cells + 4) / 5;
  }

  /** A grid at least two wide has at least six cells. */
  lemma WideGridHasSixCells(gridWidth: nat)
    requires gridWidth >= 2
    ensures gridWidth * (gridWidth + 1) >= 6
  {
    assert gridWidth * (gridWidth + 1) == gridWidth * gridWidth + gridWidth;
    assert gridWidth * gridWidth >= 2 * gridWidth;
  }

  /** Only a goal of exactly one country gives a grid one cell wide: a goal
      of two or more already asks for five cells, so two columns at least,
      and a goal below one for none. */
  lemma WidthOneOnlyForGoalOne(goalCountryCount: int)
    ensures GridWidth(goalCountryCount) == 1 <==> goalCountryCount == 1
    ensures GridWidth(goalCountryCount) >= 2 <==> goalCountryCount >= 2
  {
    var g := goalCountryCount;
    if g >= 2 {
      assert 14 * g >= 28;
      assert GridCellCount(g) >= 5;
    } else if g == 1 {
      assert GridCellCount(1) == 2;
    } else {
      assert GridCellCount(g) <= 0;
    }
  }
}
