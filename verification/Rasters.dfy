/** The grid of analysis cells and what is counted over it. */
module Rasters {
  import opened Wrappers
  import opened Plane
  import opened Boxes

  datatype Grid = Grid(minX: real, minY: real, resolution: real, columns: nat, rows: nat)

  datatype Cell = Cell(row: nat, column: nat)

  function Ceil(a: real): (c: int)
    ensures a <= c as real < a + 1.0
  {
    -((-a).Floor)
  }

  function GridOf(bounds: Box, resolution: real): Grid
    requires resolution > 0.0 && bounds.maxX > bounds.minX && bounds.maxY > bounds.minY
  {
    var width, height := bounds.maxX - bounds.minX, bounds.maxY - bounds.minY;
    PositiveQuotient(width, resolution);
    PositiveQuotient(height, resolution);
    Grid(bounds.minX, bounds.minY, resolution, Ceil(width / resolution), Ceil(height / resolution))
  }

  lemma PositiveQuotient(a: real, b: real)
    requires a > 0.0 && b > 0.0
    ensures a / b > 0.0
  {
  }

  function Centre(g: Grid, c: Cell): Point {
    Point(g.minX + (c.column as real + 0.5) * g.resolution, g.minY + (c.row as real + 0.5) * g.resolution)
  }

  function SquareAround(p: Point, side: real): Box {
    var half := side / 2.0;
    Box(p.x - half, p.y - half, p.x + half, p.y + half)
  }

  function EdgeX(g: Grid, column: int): real {
    g.minX + column as real * g.resolution
  }

  function EdgeY(g: Grid, row: int): real {
    g.minY + row as real * g.resolution
  }

  function CellBox(g: Grid, c: Cell): Box {
    Box(EdgeX(g, c.column), EdgeY(g, c.row), EdgeX(g, c.column + 1), EdgeY(g, c.row + 1))
  }

  /** A cell is the square of one resolution around its centre. */
  lemma CellIsSquare(g: Grid, c: Cell)
    ensures CellBox(g, c) == SquareAround(Centre(g, c), g.resolution)
  {
    var r, i, j := g.resolution, c.column as real, c.row as real;
    AxisOfCell(g.minX, i, r);
    AxisOfCell(g.minY, j, r);
    assert EdgeX(g, c.column) == g.minX + i * r && EdgeX(g, c.column + 1) == g.minX + (i + 1.0) * r;
    assert EdgeY(g, c.row) == g.minY + j * r && EdgeY(g, c.row + 1) == g.minY + (j + 1.0) * r;
  }

  lemma AxisOfCell(o: real, k: real, r: real)
    ensures o + (k + 0.5) * r - r / 2.0 == o + k * r
    ensures o + (k + 0.5) * r + r / 2.0 == o + (k + 1.0) * r
  {
  }

  ghost function Cells(g: Grid): set<Cell> {
    set row: nat, column: nat | row < g.rows && column < g.columns :: Cell(row, column)
  }

  /** For every cell, whether its centre is inside the boundary and how many tracks sweep it. */
  datatype Raster = Raster(grid: Grid, inside: Cell -> bool, passes: Cell -> nat)
  {
    ghost function InsideOf(cells: set<Cell>): set<Cell> {
      set c | c in cells && inside(c)
    }

    /** The inside cells swept by at least `n` tracks. */
    ghost function SweptOf(cells: set<Cell>, n: nat): set<Cell> {
      set c | c in cells && inside(c) && passes(c) >= n
    }

    ghost function GapOf(cells: set<Cell>): set<Cell> {
      set c | c in cells && inside(c) && passes(c) == 0
    }

    ghost function GapBoxesOf(cells: set<Cell>): set<Box> {
      set c | c in GapOf(cells) :: CellBox(grid, c)
    }

    ghost function AllInside(): set<Cell> { InsideOf(Cells(grid)) }

    ghost function AllSwept(n: nat): set<Cell> { SweptOf(Cells(grid), n) }

    ghost function AllGap(): set<Cell> { GapOf(Cells(grid)) }

    ghost function GapHull(): Option<Box> { Hull(GapBoxesOf(Cells(grid))) }

    /** The running counts of the double loop agree with the cells seen so far. */
    ghost predicate Tally(cells: set<Cell>, insideCount: nat, covered: nat, overlap: nat, hull: Option<Box>) {
      && insideCount == |InsideOf(cells)|
      && covered == |SweptOf(cells, 1)|
      && overlap == |SweptOf(cells, 2)|
      && IsHull(hull, GapBoxesOf(cells))
    }

    lemma TallyStart()
      ensures Tally({}, 0, 0, 0, None)
    {
    }

    lemma TallySkips(cells: set<Cell>, c: Cell, insideCount: nat, covered: nat, overlap: nat, hull: Option<Box>)
      requires Tally(cells, insideCount, covered, overlap, hull) && !inside(c)
      ensures Tally(cells + {c}, insideCount, covered, overlap, hull)
    {
      assert InsideOf(cells + {c}) == InsideOf(cells);
      assert SweptOf(cells + {c}, 1) == SweptOf(cells, 1);
      assert SweptOf(cells + {c}, 2) == SweptOf(cells, 2);
      assert GapOf(cells + {c}) == GapOf(cells);
    }

    lemma TallyCounts(cells: set<Cell>, c: Cell, insideCount: nat, covered: nat, overlap: nat, hull: Option<Box>)
      requires Tally(cells, insideCount, covered, overlap, hull) && inside(c) && c !in cells
      ensures Tally(cells + {c}, insideCount + 1,
                    covered + if passes(c) > 0 then 1 else 0,
                    overlap + if passes(c) > 1 then 1 else 0,
                    if passes(c) == 0 then Grow(hull, CellBox(grid, c)) else hull)
    {
      InsideGrows(cells, c);
      SweptGrows(cells, c, 1);
      SweptGrows(cells, c, 2);
      GapGrows(cells, c, hull);
    }

    lemma InsideGrows(cells: set<Cell>, c: Cell)
      requires inside(c) && c !in cells
      ensures |InsideOf(cells + {c})| == |InsideOf(cells)| + 1
    {
      assert InsideOf(cells + {c}) == InsideOf(cells) + {c};
    }

    lemma GapGrows(cells: set<Cell>, c: Cell, hull: Option<Box>)
      requires IsHull(hull, GapBoxesOf(cells)) && inside(c)
      ensures IsHull(if passes(c) == 0 then Grow(hull, CellBox(grid, c)) else hull, GapBoxesOf(cells + {c}))
    {
      if passes(c) == 0 {
        assert GapOf(cells + {c}) == GapOf(cells) + {c};
        GrowKeepsHull(hull, GapBoxesOf(cells), CellBox(grid, c));
        assert GapBoxesOf(cells + {c}) == GapBoxesOf(cells) + {CellBox(grid, c)};
      } else {
        assert GapOf(cells + {c}) == GapOf(cells);
      }
    }

    lemma SweptGrows(cells: set<Cell>, c: Cell, n: nat)
      requires inside(c) && c !in cells
      ensures |SweptOf(cells + {c}, n)| == |SweptOf(cells, n)| + if passes(c) >= n then 1 else 0
    {
      assert SweptOf(cells + {c}, n) == SweptOf(cells, n) + if passes(c) >= n then {c} else {};
    }
  }

  // ---- the order in which the double loop visits the cells ----

  ghost function Seen(g: Grid, row: nat, column: nat): set<Cell> {
    set c | c in Cells(g) && (c.row < row || (c.row == row && c.column < column))
  }

  lemma NextSeen(g: Grid, row: nat, column: nat)
    requires row < g.rows && column < g.columns
    ensures Cell(row, column) !in Seen(g, row, column)
    ensures Seen(g, row, column + 1) == Seen(g, row, column) + {Cell(row, column)}
  {
    assert Cell(row, column) in Cells(g);
  }

  lemma NextRow(g: Grid, row: nat)
    requires row < g.rows
    ensures Seen(g, row, g.columns) == Seen(g, row + 1, 0)
  {
  }

  lemma AllSeen(g: Grid)
    ensures Seen(g, 0, 0) == {} && Seen(g, g.rows, 0) == Cells(g)
  {
  }
}
