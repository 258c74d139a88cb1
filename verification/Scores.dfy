/** What a coverage score means: its ratios, its hull, and what it does not depend on. */
module Scores {
  import opened Wrappers
  import opened Plane
  import opened Rings
  import opened Shuffles
  import opened Tracks
  import opened Boxes
  import opened Rasters
  import opened Coverage

  ghost function BoundsOf(boundary: Polygon): Box
    requires Hull(VertexBoxes(boundary)).Some?
  {
    Hull(VertexBoxes(boundary)).value
  }

  /** The raster behind a successful score. */
  ghost function Scored(boundary: Polygon, tracks: seq<Track>, resolution: real): Raster
    requires Score(boundary, tracks, resolution).Ok?
  {
    RasterOf(boundary, tracks, GridOf(BoundsOf(boundary), resolution))
  }

  /** A successful score is the summary of its raster. */
  lemma ScoreIsSummary(boundary: Polygon, tracks: seq<Track>, resolution: real)
    requires Score(boundary, tracks, resolution).Ok?
    ensures var s := Scored(boundary, tracks, resolution);
            && resolution > 0.0 && s.grid.resolution == resolution && s.AllInside() != {}
            && Score(boundary, tracks, resolution).value == Summary(Area(boundary), s, BoundsOf(boundary))
  {
  }

  // ---- ratios ----

  lemma InsideSplits(s: Raster)
    ensures |s.AllInside()| == |s.AllSwept(1)| + |s.AllGap()|
    ensures |s.AllSwept(2)| <= |s.AllSwept(1)|
  {
    assert s.AllInside() == s.AllSwept(1) + s.AllGap();
    assert s.AllSwept(1) !! s.AllGap();
    SubsetIsSmaller(s.AllSwept(2), s.AllSwept(1));
  }

  lemma RatioOrder(a: nat, b: nat, n: nat)
    requires a <= b && n > 0
    ensures a as real / n as real <= b as real / n as real
  {
  }

  lemma RatioFacts(covered: nat, overlap: nat, gap: nat, n: nat)
    requires overlap <= covered && covered + gap == n && n > 0
    ensures 0.0 <= overlap as real / n as real <= covered as real / n as real <= 1.0
    ensures (1.0 - covered as real / n as real) * n as real == gap as real
    ensures 1.0 - covered as real / n as real == 0.0 <==> gap == 0
    ensures covered as real / n as real * n as real == covered as real
    ensures overlap as real / n as real * n as real == overlap as real
  {
    Divided(overlap as real, n as real);
    RatioOrder(0, overlap, n);
    RatioOrder(overlap, covered, n);
    RatioOrder(covered, n, n);
    var q := covered as real / n as real;
    assert q * n as real == covered as real;
    assert (1.0 - q) * n as real == gap as real;
    if gap == 0 {
      CancelFactor(q, 1.0, n as real);
    }
  }

  /** Overlap, coverage and gap are the fractions of the inside cells that are swept twice,
      swept and not swept. */
  ghost predicate RatiosHold(res: CoverageResult, s: Raster) {
    && 0.0 <= res.overlap <= res.coverage <= 1.0
    && res.coverage + res.gap == 1.0
    && (res.gap == 0.0 <==> s.AllGap() == {})
    && res.sampleCells == |s.AllInside()|
    && res.overlap * res.sampleCells as real == |s.AllSwept(2)| as real
    && res.coverage * res.sampleCells as real == |s.AllSwept(1)| as real
    && res.gap * res.sampleCells as real == |s.AllGap()| as real
  }

  lemma ReportRatios(
      area: real, inside: nat, covered: nat, overlap: nat, gap: nat, bounds: Box, hull: Option<Box>, resolution: real)
    requires overlap <= covered && covered + gap == inside && inside > 0
    ensures var res := Report(area, inside, covered, overlap, bounds, hull, resolution);
            && 0.0 <= res.overlap <= res.coverage <= 1.0 && res.coverage + res.gap == 1.0
            && (res.gap == 0.0 <==> gap == 0) && res.sampleCells == inside
            && res.overlap * inside as real == overlap as real
            && res.coverage * inside as real == covered as real
            && res.gap * inside as real == gap as real
  {
    hide GapArtifacts;
    RatioFacts(covered, overlap, gap, inside);
  }

  lemma SummaryRatios(area: real, s: Raster, bounds: Box)
    requires s.AllInside() != {}
    ensures RatiosHold(Summary(area, s, bounds), s)
  {
    hide Report, Raster.AllInside, Raster.AllSwept, Raster.AllGap, Raster.GapHull;
    InsideSplits(s);
    ReportRatios(area, |s.AllInside()|, |s.AllSwept(1)|, |s.AllSwept(2)|, |s.AllGap()|, bounds, s.GapHull(),
                 s.grid.resolution);
  }

  /** Every successful score has ratios in range. */
  lemma RatiosInRange(boundary: Polygon, tracks: seq<Track>, resolution: real)
    requires Score(boundary, tracks, resolution).Ok?
    ensures RatiosHold(Score(boundary, tracks, resolution).value, Scored(boundary, tracks, resolution))
  {
    SummaryRatios(Area(boundary), Scored(boundary, tracks, resolution), BoundsOf(boundary));
  }

  lemma GapIsZero(boundary: Polygon, tracks: seq<Track>, resolution: real)
    requires Score(boundary, tracks, resolution).Ok?
    ensures Score(boundary, tracks, resolution).value.gap == 0.0
            <==> Scored(boundary, tracks, resolution).AllGap() == {}
  {
    RatiosInRange(boundary, tracks, resolution);
  }

  // ---- what the ratios count ----

  /** Two different tracks sweep the point. */
  ghost predicate SweptTwice(tracks: seq<Track>, p: Point) {
    exists i, j :: 0 <= i < j < |tracks| && TrackCovers(tracks[i], p) && TrackCovers(tracks[j], p)
  }

  lemma TwoPasses(tracks: seq<Track>, p: Point)
    ensures Passes(tracks, p) >= 2 <==> SweptTwice(tracks, p)
  {
    hide TrackCovers;
    var sweepers := Sweepers(tracks, p);
    if i, j :| 0 <= i < j < |tracks| && TrackCovers(tracks[i], p) && TrackCovers(tracks[j], p) {
      assert i in sweepers && j in sweepers;
      TwoMembersMakeTwo(sweepers, i, j);
    }
    if |sweepers| >= 2 {
      var i, j := TwoMembers(sweepers);
    }
  }

  lemma TwoMembersMakeTwo(s: set<nat>, i: nat, j: nat)
    requires i in s && j in s && i != j
    ensures |s| >= 2
  {
    SubsetIsSmaller({i, j}, s);
  }

  lemma TwoMembers(s: set<nat>) returns (i: nat, j: nat)
    requires |s| >= 2
    ensures i in s && j in s && i < j
  {
    var a :| a in s;
    assert |s - {a}| >= 1;
    var b :| b in s - {a};
    i, j := if a < b then a else b, if a < b then b else a;
  }

  lemma SomePass(tracks: seq<Track>, p: Point)
    ensures Passes(tracks, p) >= 1 <==> exists i :: 0 <= i < |tracks| && TrackCovers(tracks[i], p)
  {
    hide TrackCovers;
    var sweepers := Sweepers(tracks, p);
    if i :| 0 <= i < |tracks| && TrackCovers(tracks[i], p) {
      assert i in sweepers;
      SubsetIsSmaller({i}, sweepers);
    }
    if |sweepers| >= 1 {
      var i :| i in sweepers;
    }
  }

  /** The cells the ratios count: those whose centre some track sweeps, those whose centre two
      tracks sweep, and those whose centre none sweeps. */
  lemma SweptCells(boundary: Polygon, tracks: seq<Track>, resolution: real, c: Cell)
    requires Score(boundary, tracks, resolution).Ok?
    ensures var s := Scored(boundary, tracks, resolution); var p := Centre(s.grid, c);
            && (c in s.AllInside() <==> c in Cells(s.grid) && PolygonContains(boundary, p))
            && (c in s.AllSwept(1) <==>
                  c in s.AllInside() && exists i :: 0 <= i < |tracks| && TrackCovers(tracks[i], p))
            && (c in s.AllSwept(2) <==> c in s.AllInside() && SweptTwice(tracks, p))
            && (c in s.AllGap() <==>
                  c in s.AllInside() && forall i :: 0 <= i < |tracks| ==> !TrackCovers(tracks[i], p))
  {
    hide TrackCovers, Score, SweptTwice, Passes;
    var s := Scored(boundary, tracks, resolution);
    SomePass(tracks, Centre(s.grid, c));
    TwoPasses(tracks, Centre(s.grid, c));
  }

  // A ratio vanishes with what it counts.
  lemma ZeroRatio(x: real, n: nat, count: nat)
    requires n > 0 && x * n as real == count as real
    ensures x == 0.0 <==> count == 0
  {
    if count == 0 {
      CancelFactor(x, 0.0, n as real);
    }
  }

  lemma EqualRatios(x: real, y: real, n: nat, count: nat)
    requires n > 0 && x * n as real == count as real && y * n as real == count as real
    ensures x == y
  {
    CancelFactor(x, y, n as real);
  }

  /** The ratios are shares of `inside` cells. */
  predicate Shares(res: CoverageResult, inside: nat, covered: nat, overlap: nat) {
    && res.sampleCells == inside > 0
    && res.overlap * inside as real == overlap as real
    && res.coverage * inside as real == covered as real
  }

  lemma RatiosShare(res: CoverageResult, s: Raster)
    requires RatiosHold(res, s) && s.AllInside() != {}
    ensures Shares(res, |s.AllInside()|, |s.AllSwept(1)|, |s.AllSwept(2)|)
  {
    hide Raster.AllInside, Raster.AllSwept, Raster.AllGap;
    assert res.sampleCells == |s.AllInside()|;
  }

  lemma RatiosAreShares(boundary: Polygon, tracks: seq<Track>, resolution: real)
    requires Score(boundary, tracks, resolution).Ok?
    ensures var s := Scored(boundary, tracks, resolution);
            Shares(Score(boundary, tracks, resolution).value, |s.AllInside()|, |s.AllSwept(1)|, |s.AllSwept(2)|)
  {
    hide Score, Scored, Summary, RatiosHold, Shares, Raster.AllInside, Raster.AllSwept, Raster.AllGap;
    ScoreIsSummary(boundary, tracks, resolution);
    RatiosInRange(boundary, tracks, resolution);
    RatiosShare(Score(boundary, tracks, resolution).value, Scored(boundary, tracks, resolution));
  }

  lemma NoOverlapShare(res: CoverageResult, inside: nat, covered: nat, overlap: nat)
    requires Shares(res, inside, covered, overlap)
    ensures res.overlap == 0.0 <==> overlap == 0
  {
    ZeroRatio(res.overlap, inside, overlap);
  }

  lemma SameShares(once: CoverageResult, twice: CoverageResult, inside: nat, covered: nat, overlap: nat)
    requires Shares(once, inside, covered, overlap) && Shares(twice, inside, covered, covered)
    ensures twice.overlap == twice.coverage == once.coverage
  {
    EqualRatios(twice.overlap, twice.coverage, inside, covered);
    EqualRatios(once.coverage, twice.coverage, inside, covered);
  }

  /** There is overlap exactly when two tracks sweep some inside centre. */
  lemma OverlapExactly(boundary: Polygon, tracks: seq<Track>, resolution: real)
    requires Score(boundary, tracks, resolution).Ok?
    ensures var res, s := Score(boundary, tracks, resolution).value, Scored(boundary, tracks, resolution);
            res.overlap == 0.0 <==> forall c :: c in s.AllInside() ==> !SweptTwice(tracks, Centre(s.grid, c))
  {
    hide Score, Scored, Raster.AllInside, Raster.AllSwept, SweptTwice, Centre, Shares;
    RatiosAreShares(boundary, tracks, resolution);
    var res, s := Score(boundary, tracks, resolution).value, Scored(boundary, tracks, resolution);
    NoOverlapShare(res, |s.AllInside()|, |s.AllSwept(1)|, |s.AllSwept(2)|);
    forall c: Cell
      ensures c in s.AllSwept(2) <==> c in s.AllInside() && SweptTwice(tracks, Centre(s.grid, c))
    {
      SweptCells(boundary, tracks, resolution, c);
    }
    if s.AllSwept(2) != {} {
      var c :| c in s.AllSwept(2);
    }
  }

  /** One track alone never overlaps. */
  lemma OneTrackNoOverlap(boundary: Polygon, track: Track, resolution: real)
    requires Score(boundary, [track], resolution).Ok?
    ensures Score(boundary, [track], resolution).value.overlap == 0.0
  {
    hide Score, Scored, TrackCovers, Centre;
    OverlapExactly(boundary, [track], resolution);
  }

  lemma DoubledCells(boundary: Polygon, tracks: seq<Track>, g: Grid)
    ensures var s, s' := RasterOf(boundary, tracks, g), RasterOf(boundary, tracks + tracks, g);
            s'.AllInside() == s.AllInside() && s'.AllSwept(2) == s'.AllSwept(1) == s.AllSwept(1)
  {
    hide Passes, PolygonContains, Centre;
    forall p: Point
      ensures Passes(tracks + tracks, p) == 2 * Passes(tracks, p)
    {
      PassesConcat(tracks, tracks, p);
    }
  }

  /** Counting every track twice makes all that is covered overlap, and covers nothing more. */
  lemma DoubledTracks(boundary: Polygon, tracks: seq<Track>, resolution: real)
    requires Score(boundary, tracks, resolution).Ok?
    ensures Score(boundary, tracks + tracks, resolution).Ok?
    ensures var once := Score(boundary, tracks, resolution).value;
            var twice := Score(boundary, tracks + tracks, resolution).value;
            twice.overlap == twice.coverage == once.coverage
  {
    DoubledCells(boundary, tracks, Scored(boundary, tracks, resolution).grid);
    DoubledIsScored(boundary, tracks, resolution);
    hide Score, Scored, Raster.AllInside, Raster.AllSwept, Shares;
    RatiosAreShares(boundary, tracks, resolution);
    RatiosAreShares(boundary, tracks + tracks, resolution);
    var s := Scored(boundary, tracks, resolution);
    SameShares(Score(boundary, tracks, resolution).value, Score(boundary, tracks + tracks, resolution).value,
               |s.AllInside()|, |s.AllSwept(1)|, |s.AllSwept(2)|);
  }

  lemma DoubledIsScored(boundary: Polygon, tracks: seq<Track>, resolution: real)
    requires Score(boundary, tracks, resolution).Ok?
    ensures Score(boundary, tracks + tracks, resolution).Ok?
    ensures Scored(boundary, tracks + tracks, resolution)
         == RasterOf(boundary, tracks + tracks, Scored(boundary, tracks, resolution).grid)
  {
    DoubledCells(boundary, tracks, Scored(boundary, tracks, resolution).grid);
  }

  // ---- the hull of the uncovered cells ----

  /** A rectangle of cells, both ends included. */
  datatype Span = Span(west: nat, east: nat, south: nat, north: nat)
  {
    ghost predicate Holds(c: Cell) {
      west <= c.column <= east && south <= c.row <= north
    }

    function Size(): int {
      (east - west + 1) * (north - south + 1)
    }

    function ToBox(g: Grid): Box {
      Box(EdgeX(g, west), EdgeY(g, south), EdgeX(g, east + 1), EdgeY(g, north + 1))
    }
  }

  lemma ScaledOrder(o: real, a: int, b: int, r: real)
    requires r > 0.0
    ensures o + a as real * r <= o + b as real * r <==> a <= b
  {
    if a < b {
      PositiveProduct(b as real - a as real, r);
    } else if b < a {
      PositiveProduct(a as real - b as real, r);
    }
  }

  lemma EdgeOrder(g: Grid, a: int, b: int)
    requires g.resolution > 0.0
    ensures EdgeX(g, a) <= EdgeX(g, b) <==> a <= b
    ensures EdgeY(g, a) <= EdgeY(g, b) <==> a <= b
  {
    var r := g.resolution;
    assert EdgeX(g, a) == g.minX + a as real * r && EdgeX(g, b) == g.minX + b as real * r;
    assert EdgeY(g, a) == g.minY + a as real * r && EdgeY(g, b) == g.minY + b as real * r;
    ScaledOrder(g.minX, a, b, r);
    ScaledOrder(g.minY, a, b, r);
  }

  /** Every side of the hull belongs to an uncovered cell. */
  lemma HullSides(s: Raster) returns (west: Cell, east: Cell, south: Cell, north: Cell)
    requires s.AllGap() != {}
    ensures {west, east, south, north} <= s.AllGap() && s.GapHull().Some?
    ensures s.GapHull().value == Box(CellBox(s.grid, west).minX, CellBox(s.grid, south).minY,
                                     CellBox(s.grid, east).maxX, CellBox(s.grid, north).maxY)
  {
    var boxes := s.GapBoxesOf(Cells(s.grid));
    var any :| any in s.AllGap();
    assert CellBox(s.grid, any) in boxes;
    var b := s.GapHull().value;
    west := CellWithBox(s, (q: Box) => q.minX == b.minX);
    east := CellWithBox(s, (q: Box) => q.maxX == b.maxX);
    south := CellWithBox(s, (q: Box) => q.minY == b.minY);
    north := CellWithBox(s, (q: Box) => q.maxY == b.maxY);
  }

  lemma CellWithBox(s: Raster, touches: Box -> bool) returns (c: Cell)
    requires exists q :: q in s.GapBoxesOf(Cells(s.grid)) && touches(q)
    ensures c in s.AllGap() && touches(CellBox(s.grid, c))
  {
    var q :| q in s.GapBoxesOf(Cells(s.grid)) && touches(q);
    c :| c in s.AllGap() && CellBox(s.grid, c) == q;
  }

  /** The hull is a whole number of cells each way, and holds every uncovered cell. */
  lemma HullIsSpan(s: Raster, west: Cell, east: Cell, south: Cell, north: Cell) returns (span: Span)
    requires s.grid.resolution > 0.0 && {west, east, south, north} <= s.AllGap() && s.GapHull().Some?
    requires s.GapHull().value == Box(CellBox(s.grid, west).minX, CellBox(s.grid, south).minY,
                                      CellBox(s.grid, east).maxX, CellBox(s.grid, north).maxY)
    ensures span == Span(west.column, east.column, south.row, north.row)
    ensures s.GapHull().value == span.ToBox(s.grid)
    ensures forall c :: c in s.AllGap() ==> span.Holds(c)
  {
    var g := s.grid;
    span := Span(west.column, east.column, south.row, north.row);
    forall c | c in s.AllGap()
      ensures span.Holds(c)
    {
      assert CellBox(g, c) in s.GapBoxesOf(Cells(g));
      SpanHoldsContained(g, span, c);
    }
  }

  lemma SpanHoldsContained(g: Grid, span: Span, c: Cell)
    requires g.resolution > 0.0 && Contains(span.ToBox(g), CellBox(g, c))
    ensures span.Holds(c)
  {
    hide EdgeX, EdgeY;
    EdgeOrder(g, span.west, c.column);
    EdgeOrder(g, c.column + 1, span.east + 1);
    EdgeOrder(g, span.south, c.row);
    EdgeOrder(g, c.row + 1, span.north + 1);
  }

  lemma {:induction false} RowSize(row: nat, west: nat, east: nat, cells: set<Cell>)
    requires west <= east + 1
    requires forall c :: c in cells <==> c.row == row && west <= c.column <= east
    ensures |cells| == east - west + 1
    decreases east + 1 - west
  {
    if west == east + 1 {
      assert cells == {};
    } else {
      var first := Cell(row, west);
      RowSize(row, west + 1, east, cells - {first});
    }
  }

  ghost function RowCells(row: nat, west: nat, east: nat): set<Cell> {
    set column: nat | west <= column <= east :: Cell(row, column)
  }

  lemma RowCellsSize(row: nat, west: nat, east: nat)
    requires west <= east + 1
    ensures |RowCells(row, west, east)| == east - west + 1
  {
    RowSize(row, west, east, RowCells(row, west, east));
  }

  ghost function SpanCells(span: Span): set<Cell>
    decreases span.north + 1 - span.south
  {
    if span.south > span.north then {}
    else RowCells(span.south, span.west, span.east) + SpanCells(span.(south := span.south + 1))
  }

  lemma {:induction false} SpanCellsHeld(span: Span, c: Cell)
    ensures c in SpanCells(span) <==> span.Holds(c)
    decreases span.north + 1 - span.south
  {
    if span.south <= span.north {
      SpanCellsHeld(span.(south := span.south + 1), c);
      assert c == Cell(c.row, c.column);
      assert c in RowCells(span.south, span.west, span.east)
             <==> c.row == span.south && span.west <= c.column <= span.east;
    }
  }

  lemma {:induction false} SpanSize(span: Span, width: nat, height: nat)
    requires width == span.east - span.west + 1 && height == span.north - span.south + 1
    ensures |SpanCells(span)| == Repeated(width, height)
    decreases height
  {
    hide RowCells;
    if height > 0 {
      var row, above := RowCells(span.south, span.west, span.east), span.(south := span.south + 1);
      SpanSize(above, width, height - 1);
      RowCellsSize(span.south, span.west, span.east);
      FirstRowApart(span);
      assert |row + SpanCells(above)| == |row| + |SpanCells(above)|;
    }
  }

  lemma FirstRowApart(span: Span)
    requires span.south <= span.north
    ensures RowCells(span.south, span.west, span.east) !! SpanCells(span.(south := span.south + 1))
  {
    var above := span.(south := span.south + 1);
    forall c | c in SpanCells(above)
      ensures c !in RowCells(span.south, span.west, span.east)
    {
      SpanCellsHeld(above, c);
    }
  }

  /** Multiplication by counting rows. */
  function Repeated(width: nat, height: nat): nat {
    if height == 0 then 0 else width + Repeated(width, height - 1)
  }

  lemma {:induction false} RepeatedIsProduct(width: nat, height: nat)
    ensures Repeated(width, height) == width * height
  {
    if height > 0 {
      RepeatedIsProduct(width, height - 1);
      assert width * height == width + width * (height - 1);
    }
  }

  /** A raster's hull, when something is uncovered. */
  lemma RasterHullExact(s: Raster) returns (span: Span)
    requires s.grid.resolution > 0.0 && s.AllGap() != {}
    ensures s.GapHull() == Some(span.ToBox(s.grid))
    ensures forall c :: c in s.AllGap() ==> span.Holds(c)
    ensures span.west <= span.east && span.south <= span.north
    ensures |s.AllGap()| <= span.Size()
  {
    var west, east, south, north := HullSides(s);
    span := HullIsSpan(s, west, east, south, north);
    assert span.Holds(west) && span.Holds(south);
    forall c | c in s.AllGap()
      ensures c in SpanCells(span)
    {
      SpanCellsHeld(span, c);
    }
    SpanSize(span, span.east - span.west + 1, span.north - span.south + 1);
    RepeatedIsProduct(span.east - span.west + 1, span.north - span.south + 1);
    SubsetIsSmaller(s.AllGap(), SpanCells(span));
  }

  /** The reported hull: it exists exactly when something is uncovered, it is the
      tightest rectangle of cells, and the fragment flag means fewer than four cells. */
  ghost predicate HullReported(res: CoverageResult, s: Raster, span: Span) {
    && (s.GapHull().None? <==> res.gap == 0.0)
    && (res.gap == 0.0 ==> res.fragments == 0)
    && (res.gap != 0.0 ==>
          && s.GapHull() == Some(span.ToBox(s.grid))
          && (forall c :: c in s.AllGap() ==> span.Holds(c))
          && |s.AllGap()| <= span.Size()
          && HullArea(s.GapHull().value) == span.Size() as real * Square(s.grid.resolution)
          && (res.fragments == if span.Size() < 4 then 1 else 0)
          && res.gapRing == Corners(s.GapHull().value))
  }

  lemma SummaryHull(area: real, s: Raster, bounds: Box) returns (span: Span)
    requires s.AllInside() != {} && s.grid.resolution > 0.0
    ensures HullReported(Summary(area, s, bounds), s, span)
  {
    hide Summary, GapArtifacts, HullArea, Square, Corners, RatiosHold, Span.Size, Span.ToBox, Raster.GapHull;
    var res := Summary(area, s, bounds);
    GapRatioSign(area, s, bounds);
    SummaryArtifacts(area, s, bounds);
    span := Span(0, 0, 0, 0);
    if s.AllGap() == {} {
      NothingToBox(bounds, s, res.gap);
    } else {
      span := RasterHullExact(s);
      SpanArea(s.grid, span);
      ArtifactsOfHull(bounds, s.GapHull().value, s.grid.resolution, res.gap, span.Size());
    }
  }

  lemma GapRatioSign(area: real, s: Raster, bounds: Box)
    requires s.AllInside() != {}
    ensures var gap := Summary(area, s, bounds).gap;
            gap >= 0.0 && (gap == 0.0 <==> s.AllGap() == {})
  {
    SummaryRatios(area, s, bounds);
  }

  lemma NothingToBox(bounds: Box, s: Raster, ratio: real)
    requires s.AllGap() == {}
    ensures s.GapHull() == None
    ensures GapArtifacts(bounds, s.GapHull(), s.grid.resolution, ratio).fragments == 0
  {
    assert s.GapBoxesOf(Cells(s.grid)) == {};
  }

  lemma SummaryArtifacts(area: real, s: Raster, bounds: Box)
    requires s.AllInside() != {}
    ensures var res := Summary(area, s, bounds);
            GapArtifacts(bounds, s.GapHull(), s.grid.resolution, res.gap)
            == Artifacts(res.gapRing, res.recommended, res.fragments)
  {
  }

  lemma ArtifactsOfHull(bounds: Box, hull: Box, resolution: real, ratio: real, n: int)
    requires resolution > 0.0 && ratio > 0.0 && HullArea(hull) == n as real * Square(resolution)
    ensures var a := GapArtifacts(bounds, Some(hull), resolution, ratio);
            a.gapRing == Corners(hull) && a.fragments == if n < 4 then 1 else 0
  {
    FragmentMeansSmall(n, resolution);
  }

  /** Every successful score reports the hull exactly. */
  lemma HullExact(boundary: Polygon, tracks: seq<Track>, resolution: real) returns (span: Span)
    requires Score(boundary, tracks, resolution).Ok?
    ensures HullReported(Score(boundary, tracks, resolution).value, Scored(boundary, tracks, resolution), span)
  {
    span := SummaryHull(Area(boundary), Scored(boundary, tracks, resolution), BoundsOf(boundary));
  }

  function HullArea(b: Box): real {
    (b.maxX - b.minX) * (b.maxY - b.minY)
  }

  function Corners(b: Box): Ring {
    [Point(b.minX, b.minY), Point(b.maxX, b.minY), Point(b.maxX, b.maxY), Point(b.minX, b.maxY), Point(b.minX, b.minY)]
  }

  lemma SpanArea(g: Grid, span: Span)
    requires span.west <= span.east && span.south <= span.north
    ensures HullArea(span.ToBox(g)) == span.Size() as real * Square(g.resolution)
  {
    var nx, ny, r := span.east - span.west + 1, span.north - span.south + 1, g.resolution;
    ScaledWidth(g.minX, span.west, span.east, r);
    ScaledWidth(g.minY, span.south, span.north, r);
    ProductOfCounts(nx, ny, r);
  }

  lemma ScaledWidth(o: real, lo: nat, hi: nat, r: real)
    ensures o + (hi + 1) as real * r - (o + lo as real * r) == (hi - lo + 1) as real * r
  {
  }

  lemma ProductOfCounts(a: int, b: int, r: real)
    ensures (a as real * r) * (b as real * r) == (a * b) as real * Square(r)
  {
    assert (a * b) as real == a as real * b as real;
  }

  lemma FragmentMeansSmall(n: int, r: real)
    requires r > 0.0
    ensures n as real * Square(r) < r * r * 4.0 <==> n < 4
  {
    PositiveSquare(r, r);
    assert r * r * 4.0 == 4.0 * Square(r);
    ScaledOrder(0.0, 4, n, Square(r));
  }

  // ---- what the score depends on ----

  /** Two rasters over one grid that agree cell by cell have the same summary. */
  lemma SameCellsSameSummary(area: real, s: Raster, s': Raster, bounds: Box)
    requires s.grid == s'.grid
    requires forall c :: c in Cells(s.grid) ==> s.inside(c) == s'.inside(c) && s.passes(c) == s'.passes(c)
    ensures s.AllInside() == s'.AllInside()
    ensures s.AllInside() != {} ==> Summary(area, s, bounds) == Summary(area, s', bounds)
  {
    assert s.AllInside() == s'.AllInside();
    assert s.AllSwept(1) == s'.AllSwept(1);
    assert s.AllSwept(2) == s'.AllSwept(2);
    assert s.AllGap() == s'.AllGap();
    assert s.GapBoxesOf(Cells(s.grid)) == s'.GapBoxesOf(Cells(s.grid));
  }

  /** The score depends on the tracks only through the number of passes over each point. */
  lemma SamePassesSameScore(boundary: Polygon, tracks: seq<Track>, tracks': seq<Track>, resolution: real)
    requires tracks == [] <==> tracks' == []
    requires forall p :: Passes(tracks, p) == Passes(tracks', p)
    ensures Score(boundary, tracks, resolution) == Score(boundary, tracks', resolution)
  {
    if resolution > 0.0 && tracks != [] && Hull(VertexBoxes(boundary)).Some? && HasArea(BoundsOf(boundary)) {
      var g := GridOf(BoundsOf(boundary), resolution);
      SameCellsSameSummary(Area(boundary), RasterOf(boundary, tracks, g), RasterOf(boundary, tracks', g),
                           BoundsOf(boundary));
    }
  }

  /** The order of the tracks does not matter. */
  lemma ScorePermutes(boundary: Polygon, tracks: seq<Track>, shuffled: seq<Track>, resolution: real)
    requires multiset(tracks) == multiset(shuffled)
    ensures Score(boundary, tracks, resolution) == Score(boundary, shuffled, resolution)
  {
    forall p
      ensures Passes(tracks, p) == Passes(shuffled, p)
    {
      PassesPermute(tracks, shuffled, p);
    }
    assert |multiset(tracks)| == |tracks| && |multiset(shuffled)| == |shuffled|;
    SamePassesSameScore(boundary, tracks, shuffled, resolution);
  }

  /** Replacing a track by one that sweeps the same points, such as one with its lines
      reordered, sailed backwards or given more vertices, changes nothing. */
  lemma ScoreDependsOnSweep(boundary: Polygon, tracks: seq<Track>, k: nat, track: Track, resolution: real)
    requires k < |tracks| && forall p :: TrackCovers(track, p) == TrackCovers(tracks[k], p)
    ensures Score(boundary, tracks[k := track], resolution) == Score(boundary, tracks, resolution)
  {
    forall p
      ensures Passes(tracks[k := track], p) == Passes(tracks, p)
    {
      assert TrackCovers(track, p) == TrackCovers(tracks[k], p);
      assert Sweepers(tracks[k := track], p) == Sweepers(tracks, p);
    }
    SamePassesSameScore(boundary, tracks[k := track], tracks, resolution);
  }

  /** More tracks and wider swaths never lower coverage or overlap. */
  lemma ScoreMonotone(boundary: Polygon, tracks: seq<Track>, wider: seq<Track>, resolution: real)
    requires Outdone(tracks, wider) && Score(boundary, tracks, resolution).Ok?
    ensures Score(boundary, wider, resolution).Ok?
    ensures var a, b := Score(boundary, tracks, resolution).value, Score(boundary, wider, resolution).value;
            a.coverage <= b.coverage && a.overlap <= b.overlap && b.gap <= a.gap && a.sampleCells == b.sampleCells
    ensures Scored(boundary, wider, resolution).AllGap() <= Scored(boundary, tracks, resolution).AllGap()
  {
    var g := GridOf(BoundsOf(boundary), resolution);
    var s, s' := RasterOf(boundary, tracks, g), RasterOf(boundary, wider, g);
    assert s.AllInside() == s'.AllInside();
    forall c | c in Cells(g)
      ensures s.passes(c) <= s'.passes(c)
    {
      PassesMonotone(tracks, wider, Centre(g, c));
    }
    SubsetIsSmaller(s.AllSwept(1), s'.AllSwept(1));
    SubsetIsSmaller(s.AllSwept(2), s'.AllSwept(2));
    RatioOrder(|s.AllSwept(1)|, |s'.AllSwept(1)|, |s.AllInside()|);
    RatioOrder(|s.AllSwept(2)|, |s'.AllSwept(2)|, |s.AllInside()|);
  }
}
