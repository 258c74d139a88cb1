/** Generating parallel transects, and scoring them as a track. */
module Transects {
  import opened Wrappers
  import opened Plane
  import opened Rings
  import opened Tracks
  import opened Boxes
  import opened Rasters
  import opened Coverage
  import opened Scores
  import opened AxisLines

  datatype PlanError = LineSpacingInvalid | NoTransects

  predicate Horizontal(heading: real) {
    (heading >= 45.0 && heading < 135.0) || (heading >= 225.0 && heading < 315.0)
  }

  /** Offset of the k-th line from the low edge. */
  function Offset(spacing: real, k: int): real {
    spacing / 2.0 + k as real * spacing
  }

  /** The number of offsets below the extent: the first line not below it is not emitted. */
  function LineCount(extent: real, spacing: real): (n: nat)
    requires spacing > 0.0
  {
    var n := Ceil((extent - spacing / 2.0) / spacing);
    if n < 0 then 0 else n
  }

  lemma LineCountExact(extent: real, spacing: real, k: nat)
    requires spacing > 0.0
    ensures k < LineCount(extent, spacing) <==> Offset(spacing, k) < extent
  {
    var e := extent - spacing / 2.0;
    var q := e / spacing;
    Divided(e, spacing);
    assert q * spacing == e;
    var n := Ceil(q);
    assert k < n <==> (k as real) < q;
    if (k as real) < q {
      PositiveProduct(q - k as real, spacing);
    } else {
      NonNegativeProduct(k as real - q, spacing);
    }
  }

  function TransectLine(b: Box, heading: real, offset: real): Line {
    if Horizontal(heading) then [Point(b.minX, b.minY + offset), Point(b.maxX, b.minY + offset)]
    else [Point(b.minX + offset, b.minY), Point(b.minX + offset, b.maxY)]
  }

  /** The box's extent across the lines. */
  function Extent(b: Box, heading: real): real {
    if Horizontal(heading) then b.maxY - b.minY else b.maxX - b.minX
  }

  function TransectLines(b: Box, heading: real, spacing: real): (lines: seq<Line>)
    requires spacing > 0.0
    ensures |lines| == LineCount(Extent(b, heading), spacing)
  {
    seq(LineCount(Extent(b, heading), spacing), (k: nat) => TransectLine(b, heading, Offset(spacing, k)))
  }

  function Generated(bounds: Option<Box>, heading: real, spacing: real): Result<seq<Line>, PlanError>
    requires spacing > 0.0
  {
    match bounds
    case None => Err(LineSpacingInvalid)
    case Some(b) =>
      if spacing > Max(b.maxX - b.minX, b.maxY - b.minY) then Err(LineSpacingInvalid)
      else if TransectLines(b, heading, spacing) == [] then Err(NoTransects)
      else Ok(TransectLines(b, heading, spacing))
  }

  /** The geometry of `Generate`: the accumulator steps by the spacing until it is no
      longer below the far edge. The request binding admits only positive spacings. */
  method Generate(boundary: Polygon, heading: real, spacing: real) returns (result: Result<seq<Line>, PlanError>)
    requires spacing > 0.0
    ensures result == Generated(Hull(VertexBoxes(boundary)), heading, spacing)
  {
    var found := PolygonBounds(boundary);
    if found.None? {
      return Err(LineSpacingInvalid);
    }
    var b := found.value;
    if spacing > Max(b.maxX - b.minX, b.maxY - b.minY) {
      return Err(LineSpacingInvalid);
    }
    var lines: seq<Line> := [];
    ghost var all := TransectLines(b, heading, spacing);
    if Horizontal(heading) {
      var y := b.minY + spacing / 2.0;
      while y < b.maxY
        invariant |lines| <= |all| && lines == all[..|lines|]
        invariant y == b.minY + Offset(spacing, |lines|)
        decreases |all| - |lines|
      {
        LineCountExact(Extent(b, heading), spacing, |lines|);
        assert all[|lines|] == TransectLine(b, heading, Offset(spacing, |lines|));
        NextOffset(spacing, |lines|);
        lines := lines + [[Point(b.minX, y), Point(b.maxX, y)]];
        y := y + spacing;
      }
    } else {
      var x := b.minX + spacing / 2.0;
      while x < b.maxX
        invariant |lines| <= |all| && lines == all[..|lines|]
        invariant x == b.minX + Offset(spacing, |lines|)
        decreases |all| - |lines|
      {
        LineCountExact(Extent(b, heading), spacing, |lines|);
        assert all[|lines|] == TransectLine(b, heading, Offset(spacing, |lines|));
        NextOffset(spacing, |lines|);
        lines := lines + [[Point(x, b.minY), Point(x, b.maxY)]];
        x := x + spacing;
      }
    }
    LineCountExact(Extent(b, heading), spacing, |lines|);
    assert |lines| == |all|;
    assert lines == all;
    if |lines| == 0 {
      return Err(NoTransects);
    }
    return Ok(lines);
  }

  lemma NextOffset(spacing: real, k: nat)
    ensures Offset(spacing, k) + spacing == Offset(spacing, k + 1)
  {
    assert (k + 1) as real * spacing == k as real * spacing + spacing;
  }

  // ---- which points of the box the lines reach ----

  predicate InBox(b: Box, p: Point) {
    b.minX <= p.x <= b.maxX && b.minY <= p.y <= b.maxY
  }

  /** How far into the box a point is, across the lines. */
  function Across(b: Box, heading: real, p: Point): real {
    if Horizontal(heading) then p.y - b.minY else p.x - b.minX
  }

  lemma TransectReach(b: Box, heading: real, offset: real, p: Point, swath: real)
    requires InBox(b, p)
    ensures LineCovers(TransectLine(b, heading, offset), p, swath)
            <==> WithinHalf(Across(b, heading, p) - offset, swath)
  {
    hide WithinHalf, SegmentInReach;
    var line := TransectLine(b, heading, offset);
    TwoPointLine(line[0], line[1], p, swath);
    if Horizontal(heading) {
      HorizontalReach(p, b.minX, b.maxX, b.minY + offset, swath);
      assert p.y - (b.minY + offset) == p.y - b.minY - offset;
    } else {
      VerticalReach(p, b.minX + offset, b.minY, b.maxY, swath);
      assert p.x - (b.minX + offset) == p.x - b.minX - offset;
    }
  }

  function LastLineReach(b: Box, heading: real, spacing: real, swath: real): real
    requires spacing > 0.0
  {
    Offset(spacing, LineCount(Extent(b, heading), spacing) - 1) + swath / 2.0
  }

  // With swath at least spacing, the line whose strip holds the offset reaches it.
  lemma NearestLine(spacing: real, n: nat, d: real, swath: real) returns (k: nat)
    requires 0.0 < spacing <= swath && n > 0 && 0.0 <= d <= Offset(spacing, n - 1) + swath / 2.0
    ensures k < n && WithinHalf(d - Offset(spacing, k), swath)
  {
    hide Offset, WithinHalf;
    if d > Offset(spacing, n - 1) {
      k := n - 1;
      PastLastLine(d - Offset(spacing, n - 1), swath);
    } else {
      var q := d / spacing;
      Divided(d, spacing);
      var f := q.Floor;
      k := f;
      NonNegativeQuotient(d, spacing);
      BetweenMultiples(f, q, spacing, d);
      StripHolds(f, d, spacing, swath);
      LastOffset(spacing, n);
      MultipleBelow(f, n, spacing, d);
    }
  }

  lemma MultipleBelow(f: int, n: int, s: real, d: real)
    requires s > 0.0 && f as real * s <= d < n as real * s
    ensures f < n
  {
    if n <= f {
      MultipleOrder(n, f, s);
    }
  }

  lemma PastLastLine(offset: real, swath: real)
    requires 0.0 < offset <= swath / 2.0
    ensures WithinHalf(offset, swath)
  {
  }

  lemma StripHolds(f: int, d: real, s: real, swath: real)
    requires f as real * s <= d <= f as real * s + s && s <= swath
    ensures WithinHalf(d - Offset(s, f), swath)
  {
  }

  lemma LastOffset(spacing: real, n: nat)
    ensures Offset(spacing, n - 1) == n as real * spacing - spacing / 2.0
  {
    assert n as real * spacing == (n - 1) as real * spacing + spacing;
  }

  lemma NonNegativeQuotient(a: real, b: real)
    requires a >= 0.0 && b > 0.0
    ensures a / b >= 0.0
  {
  }

  lemma BetweenMultiples(f: int, q: real, s: real, d: real)
    requires s > 0.0 && f as real <= q < f as real + 1.0 && d == q * s
    ensures f as real * s <= d <= f as real * s + s
  {
    NonNegativeProduct(q - f as real, s);
    NonNegativeProduct(f as real + 1.0 - q, s);
  }

  lemma MultipleOrder(a: int, b: int, s: real)
    requires a <= b && s > 0.0
    ensures a as real * s <= b as real * s
  {
    NonNegativeProduct(b as real - a as real, s);
  }

  /** Some line lies within half a swath of the offset across the lines. */
  ghost predicate NearALine(spacing: real, count: nat, across: real, swath: real) {
    exists k: nat :: k < count && WithinHalf(across - Offset(spacing, k), swath)
  }

  /** The generated lines sweep exactly the points of the box near a line, whatever the
      swath. */
  lemma LinesSweepNear(b: Box, heading: real, spacing: real, id: nat, swath: real, p: Point)
    requires 0.0 < spacing && InBox(b, p)
    ensures TrackCovers(Track(id, TransectLines(b, heading, spacing), swath), p)
            <==> NearALine(spacing, LineCount(Extent(b, heading), spacing), Across(b, heading, p), swath)
  {
    hide WithinHalf, LineCovers, TransectLine, Offset, LineCount, Extent, Across;
    var lines := TransectLines(b, heading, spacing);
    forall k: nat | k < |lines|
      ensures LineCovers(lines[k], p, swath) <==> WithinHalf(Across(b, heading, p) - Offset(spacing, k), swath)
    {
      TransectReach(b, heading, Offset(spacing, k), p, swath);
    }
  }

  /** With the swath at least the spacing, the generated lines sweep exactly the points
      of the box no farther in than the last line plus half a swath. */
  lemma TransectsSweep(b: Box, heading: real, spacing: real, id: nat, swath: real, p: Point)
    requires 0.0 < spacing <= swath && InBox(b, p)
    requires TransectLines(b, heading, spacing) != []
    ensures TrackCovers(Track(id, TransectLines(b, heading, spacing), swath), p)
            <==> Across(b, heading, p) <= LastLineReach(b, heading, spacing, swath)
  {
    var lines := TransectLines(b, heading, spacing);
    forall k: nat | k < |lines|
      ensures LineCovers(lines[k], p, swath) <==> WithinHalf(Across(b, heading, p) - Offset(spacing, k), swath)
    {
      TransectReach(b, heading, Offset(spacing, k), p, swath);
    }
    hide WithinHalf, LineCovers, TransectLine, Offset, TrackCovers;
    LinesSweep(lines, spacing, Across(b, heading, p), id, swath, p);
  }

  lemma LinesSweep(lines: seq<Line>, spacing: real, d: real, id: nat, swath: real, p: Point)
    requires 0.0 < spacing <= swath && lines != [] && d >= 0.0
    requires forall k: nat :: k < |lines| ==>
               (LineCovers(lines[k], p, swath) <==> WithinHalf(d - Offset(spacing, k), swath))
    ensures TrackCovers(Track(id, lines, swath), p) <==> d <= Offset(spacing, |lines| - 1) + swath / 2.0
  {
    hide WithinHalf, LineCovers, Offset;
    var n := |lines|;
    if d <= Offset(spacing, n - 1) + swath / 2.0 {
      var k := NearestLine(spacing, n, d, swath);
      assert LineCovers(lines[k], p, swath);
    }
    if TrackCovers(Track(id, lines, swath), p) {
      var k :| 0 <= k < |lines| && LineCovers(lines[k], p, swath);
      FarthestLine(spacing, k, n - 1, d, swath);
    }
  }

  lemma FarthestLine(spacing: real, k: int, last: int, d: real, swath: real)
    requires spacing > 0.0 && k <= last && WithinHalf(d - Offset(spacing, k), swath)
    ensures d <= Offset(spacing, last) + swath / 2.0
  {
    MultipleOrder(k, last, spacing);
  }

  // ---- plan, then score ----

  lemma VertexInHull(boundary: Polygon, k: nat, v: Point)
    requires k < |boundary| && v in boundary[k]
    ensures Hull(VertexBoxes(boundary)).Some? && InBox(BoundsOf(boundary), v)
  {
    VertexHasBox(boundary, k, v);
  }

  lemma {:induction false} VertexHasBox(boundary: Polygon, k: nat, v: Point)
    requires k < |boundary| && v in boundary[k]
    ensures PointBox(v) in VertexBoxes(boundary)
  {
    var n := |boundary| - 1;
    if k < n {
      VertexHasBox(boundary[..n], k, v);
    }
  }

  /** A contained point lies in the polygon's half-open bounding box. */
  lemma ContainedInBounds(boundary: Polygon, p: Point)
    requires PolygonContains(boundary, p)
    ensures Hull(VertexBoxes(boundary)).Some?
    ensures InHalfOpenBox(BoundsOf(boundary), p)
  {
    var exterior := boundary[0];
    var b := Hull(VertexBoxes(boundary));
    VertexInHull(boundary, 0, exterior[0]);
    forall v | v in exterior
      ensures InBox(b.value, v)
    {
      VertexInHull(boundary, 0, v);
    }
    InsideImpliesBox(exterior, p, b.value.minX, b.value.minY, b.value.maxX, b.value.maxY);
  }

  lemma OneTrackPasses(track: Track, p: Point)
    ensures Passes([track], p) == 0 <==> !TrackCovers(track, p)
  {
    PassesSnoc([], track, p);
    assert [] + [track] == [track];
    assert Sweepers([], p) == {};
  }

  // The last line plus one spacing is past the far edge.
  lemma LastLineNearEdge(extent: real, spacing: real)
    requires spacing > 0.0 && LineCount(extent, spacing) > 0
    ensures var n := LineCount(extent, spacing);
            && Offset(spacing, n - 1) < extent <= Offset(spacing, n - 1) + spacing
            && Offset(spacing, n - 1) + spacing / 2.0 == n as real * spacing
  {
    var n := LineCount(extent, spacing);
    LineCountExact(extent, spacing, n);
    LineCountExact(extent, spacing, n - 1);
    NextOffset(spacing, n - 1);
    assert n as real * spacing == (n - 1) as real * spacing + spacing;
  }

  /** No inside centre lies beyond the last line plus half a swath. */
  ghost predicate LinesReachAll(s: Raster, b: Box, heading: real, spacing: real, swath: real)
    requires spacing > 0.0
  {
    forall c :: c in s.AllInside() ==>
      Across(b, heading, Centre(s.grid, c)) <= LastLineReach(b, heading, spacing, swath)
  }

  /** The uncovered cells are the inside cells beyond that reach, and no others. */
  ghost predicate GapLiesBeyond(s: Raster, b: Box, heading: real, spacing: real, swath: real)
    requires spacing > 0.0
  {
    forall c :: c in s.AllGap() <==>
      (c in s.AllInside() && Across(b, heading, Centre(s.grid, c)) > LastLineReach(b, heading, spacing, swath))
  }

  /** The uncovered cells are the inside cells near no line, and no others. */
  ghost predicate GapLiesBetween(s: Raster, b: Box, heading: real, spacing: real, swath: real)
    requires spacing > 0.0
  {
    forall c :: c in s.AllGap() <==>
      (c in s.AllInside()
       && !NearALine(spacing, LineCount(Extent(b, heading), spacing), Across(b, heading, Centre(s.grid, c)), swath))
  }

  predicate InHalfOpenBox(b: Box, p: Point) {
    b.minX <= p.x < b.maxX && b.minY <= p.y < b.maxY
  }

  ghost predicate InsideBounded(s: Raster, b: Box) {
    forall c :: c in s.AllInside() ==> InHalfOpenBox(b, Centre(s.grid, c))
  }

  lemma InsideIsBounded(boundary: Polygon, tracks: seq<Track>, g: Grid)
    requires Hull(VertexBoxes(boundary)).Some?
    ensures InsideBounded(RasterOf(boundary, tracks, g), BoundsOf(boundary))
  {
    forall c | c in RasterOf(boundary, tracks, g).AllInside()
      ensures InHalfOpenBox(BoundsOf(boundary), Centre(g, c))
    {
      ContainedInBounds(boundary, Centre(g, c));
    }
  }

  /** Which cells a plan scored as one track leaves uncovered, for any swath. */
  lemma PlanGapLiesBetween(boundary: Polygon, g: Grid, heading: real, spacing: real, id: nat, swath: real)
    requires 0.0 < spacing && Hull(VertexBoxes(boundary)).Some?
    ensures var track := Track(id, TransectLines(BoundsOf(boundary), heading, spacing), swath);
            GapLiesBetween(RasterOf(boundary, [track], g), BoundsOf(boundary), heading, spacing, swath)
  {
    var b := BoundsOf(boundary);
    var track := Track(id, TransectLines(b, heading, spacing), swath);
    var s := RasterOf(boundary, [track], g);
    InsideIsBounded(boundary, [track], g);
    hide TransectLines, NearALine, Across, TrackCovers, LineCount, Extent;
    forall c | c in s.AllInside()
      ensures s.passes(c) == 0 <==>
              !NearALine(spacing, LineCount(Extent(b, heading), spacing), Across(b, heading, Centre(g, c)), swath)
    {
      LinesSweepNear(b, heading, spacing, id, swath, Centre(g, c));
      OneTrackPasses(track, Centre(g, c));
    }
  }

  /** The same for a swath of at least the spacing. */
  lemma PlanGapLiesBeyond(boundary: Polygon, g: Grid, heading: real, spacing: real, id: nat, swath: real)
    requires 0.0 < spacing <= swath && Hull(VertexBoxes(boundary)).Some?
    requires TransectLines(BoundsOf(boundary), heading, spacing) != []
    ensures var track := Track(id, TransectLines(BoundsOf(boundary), heading, spacing), swath);
            GapLiesBeyond(RasterOf(boundary, [track], g), BoundsOf(boundary), heading, spacing, swath)
  {
    var b := BoundsOf(boundary);
    var track := Track(id, TransectLines(b, heading, spacing), swath);
    var s := RasterOf(boundary, [track], g);
    InsideIsBounded(boundary, [track], g);
    hide TransectLines, LastLineReach, Across, TrackCovers;
    forall c | c in s.AllInside()
      ensures s.passes(c) == 0 <==> Across(b, heading, Centre(g, c)) > LastLineReach(b, heading, spacing, swath)
    {
      TransectsSweep(b, heading, spacing, id, swath, Centre(g, c));
      OneTrackPasses(track, Centre(g, c));
    }
  }

  /** One strip of the spacing per line fills the extent. */
  predicate StripsFill(b: Box, heading: real, spacing: real)
    requires spacing > 0.0
  {
    LineCount(Extent(b, heading), spacing) as real * spacing >= Extent(b, heading)
  }

  /** A raster whose uncovered cells lie beyond the last line. */
  lemma BeyondLastLine(s: Raster, b: Box, heading: real, spacing: real, swath: real)
    requires 0.0 < spacing <= swath && LineCount(Extent(b, heading), spacing) > 0
    requires GapLiesBeyond(s, b, heading, spacing, swath) && InsideBounded(s, b)
    ensures s.AllGap() == {} <==> LinesReachAll(s, b, heading, spacing, swath)
    ensures swath >= 2.0 * spacing ==> s.AllGap() == {}
    ensures StripsFill(b, heading, spacing) ==> s.AllGap() == {}
  {
    LastLineNearEdge(Extent(b, heading), spacing);
    hide Offset, LineCount, Raster.AllGap, Raster.AllInside, Centre;
    if c :| c in s.AllGap() {
      assert Across(b, heading, Centre(s.grid, c)) > LastLineReach(b, heading, spacing, swath);
      assert InHalfOpenBox(b, Centre(s.grid, c));
    }
  }

  /** Plan, then score. The uncovered cells are the inside cells near no line. With the
      swath at least the spacing they are those beyond the last line plus half a swath, so
      that the gap ratio is zero exactly when no inside centre lies there; that is so
      whenever the swath is twice the spacing, and whenever one spacing per line fills the
      extent. */
  ghost predicate PlanVerdict(s: Raster, b: Box, heading: real, spacing: real, swath: real, gap: real)
    requires spacing > 0.0
  {
    && GapLiesBetween(s, b, heading, spacing, swath)
    && (gap == 0.0 <==> s.AllGap() == {})
    && (swath >= spacing ==> GapLiesBeyond(s, b, heading, spacing, swath))
    && (swath >= spacing ==> (gap == 0.0 <==> LinesReachAll(s, b, heading, spacing, swath)))
    && (swath >= 2.0 * spacing ==> gap == 0.0)
    && (swath >= spacing && StripsFill(b, heading, spacing) ==> gap == 0.0)
  }

  lemma GeneratedLines(boundary: Polygon, heading: real, spacing: real)
    requires spacing > 0.0 && Generated(Hull(VertexBoxes(boundary)), heading, spacing).Ok?
    ensures Hull(VertexBoxes(boundary)).Some?
    ensures Generated(Hull(VertexBoxes(boundary)), heading, spacing).value
         == TransectLines(BoundsOf(boundary), heading, spacing) != []
    ensures LineCount(Extent(BoundsOf(boundary), heading), spacing) > 0
  {
  }

  lemma PlanThenScore(
      boundary: Polygon, heading: real, spacing: real, lines: seq<Line>, id: nat, swath: real, resolution: real)
    requires 0.0 < spacing && Generated(Hull(VertexBoxes(boundary)), heading, spacing) == Ok(lines)
    requires Score(boundary, [Track(id, lines, swath)], resolution).Ok?
    ensures PlanVerdict(Scored(boundary, [Track(id, lines, swath)], resolution), BoundsOf(boundary), heading, spacing,
                        swath, Score(boundary, [Track(id, lines, swath)], resolution).value.gap)
  {
    GeneratedLines(boundary, heading, spacing);
    var tracks, b := [Track(id, lines, swath)], BoundsOf(boundary);
    hide Score, Generated, TransectLines, GapLiesBeyond, GapLiesBetween, LinesReachAll, InsideBounded, Raster.AllInside,
         Raster.AllGap, LineCount, Extent, StripsFill;
    var s := Scored(boundary, tracks, resolution);
    GapIsZero(boundary, tracks, resolution);
    InsideIsBounded(boundary, tracks, s.grid);
    PlanGapLiesBetween(boundary, s.grid, heading, spacing, id, swath);
    if swath >= spacing {
      PlanGapLiesBeyond(boundary, s.grid, heading, spacing, id, swath);
      BeyondLastLine(s, b, heading, spacing, swath);
    }
  }
}
