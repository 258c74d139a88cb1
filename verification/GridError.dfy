/** What a verdict on a cell's centre says about every point of the cell. */
module GridError {
  import opened Plane
  import opened Rings
  import opened Tracks
  import opened Boxes
  import opened Rasters
  import opened Coverage
  import opened Scores
  import opened Transects

  predicate InCell(g: Grid, c: Cell, p: Point) {
    InBox(CellBox(g, c), p)
  }

  // The cell of one coordinate.
  lemma CellOfCoordinate(lo: real, hi: real, r: real, x: real) returns (k: nat)
    requires r > 0.0 && lo < hi && lo <= x <= hi
    ensures k < Ceil((hi - lo) / r) && lo + k as real * r <= x <= lo + (k + 1) as real * r
  {
    var q, n := (x - lo) / r, Ceil((hi - lo) / r);
    Divided(x - lo, r);
    Divided(hi - lo, r);
    PositiveQuotient(hi - lo, r);
    NonNegativeQuotient(x - lo, r);
    QuotientOrder(x - lo, hi - lo, r);
    // The far edge belongs to the last cell.
    k := if q.Floor < n then q.Floor else n - 1;
    TimesBetween(k, q, r, x - lo);
  }

  lemma QuotientOrder(a: real, b: real, r: real)
    requires a <= b && r > 0.0
    ensures a / r <= b / r
  {
    Divided(a, r);
    Divided(b, r);
  }

  lemma TimesBetween(k: int, q: real, r: real, d: real)
    requires r > 0.0 && k as real <= q <= (k + 1) as real && d == q * r
    ensures k as real * r <= d <= (k + 1) as real * r
  {
    NonNegativeProduct(q - k as real, r);
    NonNegativeProduct((k + 1) as real - q, r);
  }

  predicate InInterior(g: Grid, c: Cell, p: Point) {
    var b := CellBox(g, c);
    b.minX < p.x < b.maxX && b.minY < p.y < b.maxY
  }

  /** A point in the interior of a cell is in no other cell. */
  lemma CellsApart(g: Grid, c: Cell, d: Cell, p: Point)
    requires g.resolution > 0.0 && InCell(g, c, p) && InInterior(g, d, p)
    ensures c == d
  {
    hide EdgeX, EdgeY;
    EdgeOrder(g, d.column + 1, c.column);
    EdgeOrder(g, c.column + 1, d.column);
    EdgeOrder(g, d.row + 1, c.row);
    EdgeOrder(g, c.row + 1, d.row);
  }

  /** The cells tile the bounding box: every point of it lies in a cell, and in the interior
      of no other. */
  lemma CellsTile(b: Box, resolution: real, p: Point) returns (c: Cell)
    requires resolution > 0.0 && HasArea(b) && InBox(b, p)
    ensures c in Cells(GridOf(b, resolution)) && InCell(GridOf(b, resolution), c, p)
    ensures forall d :: InInterior(GridOf(b, resolution), d, p) ==> d == c
  {
    var column := CellOfCoordinate(b.minX, b.maxX, resolution, p.x);
    var row := CellOfCoordinate(b.minY, b.maxY, resolution, p.y);
    c := Cell(row, column);
    hide InCell, InInterior, Ceil;
    BetweenEdges(GridOf(b, resolution), c, p);
    forall d | InInterior(GridOf(b, resolution), d, p)
      ensures d == c
    {
      CellsApart(GridOf(b, resolution), c, d, p);
    }
  }

  lemma BetweenEdges(g: Grid, c: Cell, p: Point)
    requires g.minX + c.column as real * g.resolution <= p.x <= g.minX + (c.column + 1) as real * g.resolution
    requires g.minY + c.row as real * g.resolution <= p.y <= g.minY + (c.row + 1) as real * g.resolution
    ensures InCell(g, c, p)
  {
  }

  lemma SquareWithin(d: real, half: real)
    requires -half <= d <= half
    ensures Square(d) <= Square(half)
  {
    if d >= 0.0 {
      SquareMonotone(d, half);
    } else {
      SquareMonotone(-d, half);
      SquareOfOpposite(d);
    }
  }

  /** A slack at least half the cell's diagonal. */
  predicate CoversDiagonal(slack: real, resolution: real) {
    slack >= 0.0 && 2.0 * Square(slack) >= Square(resolution)
  }

  /** Every point of a cell is within the slack of its centre. */
  lemma CellRadius(g: Grid, c: Cell, p: Point, slack: real)
    requires g.resolution > 0.0 && InCell(g, c, p) && CoversDiagonal(slack, g.resolution)
    ensures Dist2(p, Centre(g, c)) <= Square(slack) && Dist2(Centre(g, c), p) <= Square(slack)
  {
    CellIsSquare(g, c);
    hide CellBox, Centre, Square;
    var o, half := Centre(g, c), g.resolution / 2.0;
    SquareWithin(p.x - o.x, half);
    SquareWithin(p.y - o.y, half);
    SquareWithin(o.x - p.x, half);
    SquareWithin(o.y - p.y, half);
    SquareOfHalf(g.resolution);
  }

  lemma SquareOfHalf(r: real)
    ensures 4.0 * Square(r / 2.0) == Square(r)
  {
  }

  lemma TrackReachWidens(track: Track, p: Point, o: Point, slack: real)
    requires TrackCovers(track, o) && slack >= 0.0 && Dist2(p, o) <= Square(slack)
    ensures TrackCovers(track.(swath := track.swath + 2.0 * slack), p)
  {
    var wider := track.(swath := track.swath + 2.0 * slack);
    TrackCoversPointwise(track, o);
    var k, i :| 0 <= k < |track.lines| && 1 <= i < |track.lines[k]|
                && SomePointInReach(o, track.lines[k][i - 1], track.lines[k][i], track.swath);
    var t: real :| 0.0 <= t <= 1.0 && InReach(o, At(track.lines[k][i - 1], track.lines[k][i], t), track.swath);
    ReachWidens(p, o, At(track.lines[k][i - 1], track.lines[k][i], t), track.swath, slack);
    assert SomePointInReach(p, wider.lines[k][i - 1], wider.lines[k][i], wider.swath);
    TrackCoversPointwise(wider, p);
  }

  /** The sandwich. If the centre is swept, every point of the cell is swept by the
      swath widened by twice the slack; if the centre is not swept, no point of the cell
      is swept by the swath narrowed by as much. */
  lemma CellSandwich(g: Grid, c: Cell, p: Point, track: Track, slack: real)
    requires g.resolution > 0.0 && InCell(g, c, p) && CoversDiagonal(slack, g.resolution)
    ensures TrackCovers(track, Centre(g, c)) ==> TrackCovers(track.(swath := track.swath + 2.0 * slack), p)
    ensures !TrackCovers(track, Centre(g, c)) ==> !TrackCovers(track.(swath := track.swath - 2.0 * slack), p)
  {
    hide TrackCovers, Centre, Dist2;
    CellRadius(g, c, p, slack);
    if TrackCovers(track, Centre(g, c)) {
      TrackReachWidens(track, p, Centre(g, c), slack);
    }
    var narrower := track.(swath := track.swath - 2.0 * slack);
    if TrackCovers(narrower, p) {
      TrackReachWidens(narrower, Centre(g, c), p, slack);
      assert narrower.(swath := narrower.swath + 2.0 * slack) == track;
    }
  }

  /** A whole resolution is slack enough. */
  lemma ResolutionIsSlack(resolution: real)
    requires resolution > 0.0
    ensures CoversDiagonal(resolution, resolution)
  {
    PositiveSquare(resolution, resolution);
  }

  /** The sandwich with a whole resolution of slack. */
  lemma ResolutionSandwich(g: Grid, c: Cell, p: Point, track: Track)
    requires g.resolution > 0.0 && InCell(g, c, p)
    ensures TrackCovers(track, Centre(g, c)) ==> TrackCovers(track.(swath := track.swath + 2.0 * g.resolution), p)
    ensures !TrackCovers(track, Centre(g, c)) ==> !TrackCovers(track.(swath := track.swath - 2.0 * g.resolution), p)
  {
    hide TrackCovers, Centre, InCell, CoversDiagonal;
    ResolutionIsSlack(g.resolution);
    CellSandwich(g, c, p, track, g.resolution);
  }

  /** A zero gap ratio is a statement about the whole region: every point of the bounding
      box lies in a cell, and if that cell's centre is inside the boundary the point is
      within half of some track's swath plus the slack. */
  lemma ZeroGapCoversRegion(boundary: Polygon, tracks: seq<Track>, resolution: real, p: Point, slack: real)
    returns (c: Cell)
    requires Score(boundary, tracks, resolution).Ok? && Score(boundary, tracks, resolution).value.gap == 0.0
    requires InBox(BoundsOf(boundary), p) && CoversDiagonal(slack, resolution)
    ensures InCell(Scored(boundary, tracks, resolution).grid, c, p)
    ensures PolygonContains(boundary, Centre(Scored(boundary, tracks, resolution).grid, c)) ==>
              exists k :: 0 <= k < |tracks| && TrackCovers(tracks[k].(swath := tracks[k].swath + 2.0 * slack), p)
  {
    hide TrackCovers, InCell, CoversDiagonal, PolygonContains, Centre, Summary, Area;
    var s := Scored(boundary, tracks, resolution);
    c := CellsTile(BoundsOf(boundary), resolution, p);
    GapIsZero(boundary, tracks, resolution);
    if PolygonContains(boundary, Centre(s.grid, c)) {
      assert c !in s.AllGap();
      assert s.inside(c) && s.passes(c) != 0;
      SomeSweeper(tracks, Centre(s.grid, c));
      var k :| 0 <= k < |tracks| && TrackCovers(tracks[k], Centre(s.grid, c));
      CellSandwich(s.grid, c, p, tracks[k], slack);
    }
  }

  lemma SomeSweeper(tracks: seq<Track>, p: Point)
    requires Passes(tracks, p) != 0
    ensures exists k :: 0 <= k < |tracks| && TrackCovers(tracks[k], p)
  {
    var k :| k in Sweepers(tracks, p);
  }
}
