/** The rectangular grid the generator starts from (initCountries and
    initEdges in RandomWorldGenerator.java): one country per cell and an edge
    from every cell to its right neighbour and to the neighbour below it. */
module Grid {
  import opened Countries
  import opened Edges
  import opened Uniqueness

  /** The edges initEdges adds for cell (x, y): first to (x + 1, y), then to
      (x, y + 1), each only when that cell exists. */
  function CellEdges(gridWidth: int, gridHeight: int, x: int, y: int): seq<Edge> {
    (if x + 1 < gridWidth then [Edge(Country(x, y), Country(x + 1, y))] else [])
    + (if y + 1 < gridHeight then [Edge(Country(x, y), Country(x, y + 1))] else [])
  }

  /** The edges of cells (x, 0) .. (x, y - 1), in the inner loop's order. */
  function ColumnEdges(gridWidth: int, gridHeight: int, x: int, y: nat): seq<Edge> {
    if y == 0 then []
    else ColumnEdges(gridWidth, gridHeight, x, y - 1) + CellEdges(gridWidth, gridHeight, x, y - 1)
  }

  /** The edges of columns 0 .. x - 1, in the outer loop's order. */
  function GridEdgesUpTo(gridWidth: int, gridHeight: nat, x: nat): seq<Edge> {
    if x == 0 then []
    else GridEdgesUpTo(gridWidth, gridHeight, x - 1) + ColumnEdges(gridWidth, gridHeight, x - 1, gridHeight)
  }

  /** Every edge initEdges creates, in creation order. */
  function GridEdges(gridWidth: nat, gridHeight: nat): seq<Edge> {
    GridEdgesUpTo(gridWidth, gridHeight, gridWidth)
  }

  /** The independent description of a grid edge: it starts at a cell of the
      grid and ends at that cell's right neighbour or the neighbour below. */
  predicate IsGridEdge(gridWidth: int, gridHeight: int, e: Edge) {
    var x := e.leftCountry.originalGridCellX;
    var y := e.leftCountry.originalGridCellY;
    && 0 <= x < gridWidth && 0 <= y < gridHeight
    && ((x + 1 < gridWidth && e.rightCountry == Country(x + 1, y))
        || (y + 1 < gridHeight && e.rightCountry == Country(x, y + 1)))
  }

  lemma {:induction false} ColumnEdgesIff(gridWidth: int, gridHeight: int, x: int, y: nat, e: Edge)
    requires 0 <= x < gridWidth && y <= gridHeight
    ensures e in ColumnEdges(gridWidth, gridHeight, x, y)
        <==> IsGridEdge(gridWidth, gridHeight, e)
             && e.leftCountry.originalGridCellX == x && e.leftCountry.originalGridCellY < y
  {
    if y > 0 {
      ColumnEdgesIff(gridWidth, gridHeight, x, y - 1, e);
    }
  }

  lemma {:induction false} GridEdgesUpToIff(gridWidth: int, gridHeight: nat, x: nat, e: Edge)
    requires x <= gridWidth
    ensures e in GridEdgesUpTo(gridWidth, gridHeight, x)
        <==> IsGridEdge(gridWidth, gridHeight, e) && e.leftCountry.originalGridCellX < x
  {
    if x > 0 {
      var previous := GridEdgesUpTo(gridWidth, gridHeight, x - 1);
      var column := ColumnEdges(gridWidth, gridHeight, x - 1, gridHeight);
      assert GridEdgesUpTo(gridWidth, gridHeight, x) == previous + column;
      assert e in previous + column <==> e in previous || e in column;
      GridEdgesUpToIff(gridWidth, gridHeight, x - 1, e);
      ColumnEdgesIff(gridWidth, gridHeight, x - 1, gridHeight, e);
    }
  }

  /** An edge is created exactly when it joins a cell to its right or lower neighbour. */
  lemma GridEdgesIff(gridWidth: nat, gridHeight: nat, e: Edge)
    ensures e in GridEdges(gridWidth, gridHeight) <==> IsGridEdge(gridWidth, gridHeight, e)
  {
    GridEdgesUpToIff(gridWidth, gridHeight, gridWidth, e);
  }

  /** The grid has no self-loop. */
  lemma GridEdgesNoSelfLoops(gridWidth: nat, gridHeight: nat)
    ensures forall e :: e in GridEdges(gridWidth, gridHeight) ==> !e.IsSelfLoop()
  {
    forall e | e in GridEdges(gridWidth, gridHeight) ensures !e.IsSelfLoop() {
      GridEdgesIff(gridWidth, gridHeight, e);
    }
  }

  lemma {:induction false} ColumnEdgesDistinct(gridWidth: int, gridHeight: int, x: int, y: nat)
    requires 0 <= x < gridWidth && y <= gridHeight
    ensures NoDuplicates(ColumnEdges(gridWidth, gridHeight, x, y))
  {
    if y > 0 {
      ColumnEdgesDistinct(gridWidth, gridHeight, x, y - 1);
      var cell := CellEdges(gridWidth, gridHeight, x, y - 1);
      forall e | e in ColumnEdges(gridWidth, gridHeight, x, y - 1) ensures e !in cell {
        ColumnEdgesIff(gridWidth, gridHeight, x, y - 1, e);
      }
      ConcatDistinct(ColumnEdges(gridWidth, gridHeight, x, y - 1), cell);
    }
  }

  lemma {:induction false} GridEdgesUpToDistinct(gridWidth: int, gridHeight: nat, x: nat)
    requires x <= gridWidth
    ensures NoDuplicates(GridEdgesUpTo(gridWidth, gridHeight, x))
  {
    if x > 0 {
      var previous := GridEdgesUpTo(gridWidth, gridHeight, x - 1);
      var column := ColumnEdges(gridWidth, gridHeight, x - 1, gridHeight);
      assert GridEdgesUpTo(gridWidth, gridHeight, x) == previous + column;
      GridEdgesUpToDistinct(gridWidth, gridHeight, x - 1);
      ColumnEdgesDistinct(gridWidth, gridHeight, x - 1, gridHeight);
      ColumnIsNew(gridWidth, gridHeight, x - 1);
      ConcatDistinct(previous, column);
    }
  }

  /** No edge of column x was created by an earlier column. */
  lemma ColumnIsNew(gridWidth: int, gridHeight: nat, x: nat)
    requires x < gridWidth
    ensures forall e :: e in GridEdgesUpTo(gridWidth, gridHeight, x) ==> e !in ColumnEdges(gridWidth, gridHeight, x, gridHeight)
  {
    forall e | e in GridEdgesUpTo(gridWidth, gridHeight, x) ensures e !in ColumnEdges(gridWidth, gridHeight, x, gridHeight) {
      GridEdgesUpToIff(gridWidth, gridHeight, x, e);
      ColumnEdgesIff(gridWidth, gridHeight, x, gridHeight, e);
    }
  }

  /** No edge is created twice. */
  lemma GridEdgesDistinct(gridWidth: nat, gridHeight: nat)
    ensures NoDuplicates(GridEdges(gridWidth, gridHeight))
  {
    GridEdgesUpToDistinct(gridWidth, gridHeight, gridWidth);
  }

  lemma {:induction false} ColumnEdgesCount(gridWidth: int, gridHeight: int, x: int, y: nat)
    requires 1 <= gridHeight && y <= gridHeight
    ensures |ColumnEdges(gridWidth, gridHeight, x, y)|
         == y * (if x + 1 < gridWidth then 1 else 0) + (if y < gridHeight then y else gridHeight - 1)
  {
    if y > 0 {
      ColumnEdgesCount(gridWidth, gridHeight, x, y - 1);
      var right := if x + 1 < gridWidth then 1 else 0;
      assert y * right == (y - 1) * right + right;
    }
  }

  lemma {:induction false} GridEdgesUpToCount(gridWidth: int, gridHeight: nat, x: nat)
    requires 1 <= gridWidth && 1 <= gridHeight && x <= gridWidth
    ensures |GridEdgesUpTo(gridWidth, gridHeight, x)|
         == gridHeight * (if x < gridWidth then x else gridWidth - 1) + x * (gridHeight - 1)
  {
    if x > 0 {
      var previous := GridEdgesUpTo(gridWidth, gridHeight, x - 1);
      var column := ColumnEdges(gridWidth, gridHeight, x - 1, gridHeight);
      assert GridEdgesUpTo(gridWidth, gridHeight, x) == previous + column;
      assert |previous + column| == |previous| + |column|;
      GridEdgesUpToCount(gridWidth, gridHeight, x - 1);
      ColumnEdgesCount(gridWidth, gridHeight, x - 1, gridHeight);
      assert x * (gridHeight - 1) == (x - 1) * (gridHeight - 1) + (gridHeight - 1);
      if x < gridWidth {
        assert gridHeight * x == gridHeight * (x - 1) + gridHeight;
      }
    }
  }

  /** initEdges creates (W - 1) * H horizontal and W * (H - 1) vertical edges. */
  lemma GridEdgesCount(gridWidth: nat, gridHeight: nat)
    requires 1 <= gridWidth && 1 <= gridHeight
    ensures |GridEdges(gridWidth, gridHeight)| == (gridWidth - 1) * gridHeight + gridWidth * (gridHeight - 1)
  {
    GridEdgesUpToCount(gridWidth, gridHeight, gridWidth);
  }

  /** The countries initCountries creates in column x, one per row. */
  function ColumnCells(x: int, gridHeight: nat): set<Country> {
    set y | 0 <= y < gridHeight :: Country(x, y)
  }

  /** The countries initCountries creates, one per cell. */
  function GridCells(gridWidth: nat, gridHeight: nat): set<Country> {
    set x, y | 0 <= x < gridWidth && 0 <= y < gridHeight :: Country(x, y)
  }

  /** A column of the grid holds one country per row. */
  lemma {:induction false} ColumnCellsCount(x: int, gridHeight: nat)
    ensures |ColumnCells(x, gridHeight)| == gridHeight
  {
    if gridHeight > 0 {
      var rest := ColumnCells(x, gridHeight - 1);
      assert ColumnCells(x, gridHeight) == rest + {Country(x, gridHeight - 1)};
      ColumnCellsCount(x, gridHeight - 1);
    }
  }

  /** The grid holds one country per cell: W * H of them. */
  lemma {:induction false} GridCellsCount(gridWidth: nat, gridHeight: nat)
    ensures |GridCells(gridWidth, gridHeight)| == gridWidth * gridHeight
  {
    if gridWidth > 0 {
      var rest := GridCells(gridWidth - 1, gridHeight);
      var column := ColumnCells(gridWidth - 1, gridHeight);
      assert GridCells(gridWidth, gridHeight) == rest + column;
      assert rest * column == {};
      GridCellsCount(gridWidth - 1, gridHeight);
      ColumnCellsCount(gridWidth - 1, gridHeight);
      assert gridWidth * gridHeight == (gridWidth - 1) * gridHeight + gridHeight;
    }
  }
}
