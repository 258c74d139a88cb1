/** Following the recommended line closes the gap. */
module Resurvey {
  import opened Wrappers
  import opened Plane
  import opened Rings
  import opened Tracks
  import opened Boxes
  import opened Rasters
  import opened Coverage
  import opened Scores
  import opened AxisLines

  /** The shorter side of the reported gap box. */
  function ShorterSide(ring: seq<Point>): real
    requires |ring| > 2
  {
    Min(ring[2].x - ring[0].x, ring[2].y - ring[0].y)
  }

  // Where a cell's centre lies in a span that holds it.
  lemma CentreInSpan(g: Grid, span: Span, c: Cell)
    requires g.resolution > 0.0 && span.Holds(c)
    ensures var b, p, half := span.ToBox(g), Centre(g, c), g.resolution / 2.0;
            && b.minX + half <= p.x <= b.maxX - half
            && b.minY + half <= p.y <= b.maxY - half
            && (c.column == span.west ==> p.x == b.minX + half)
            && (c.row == span.south ==> p.y == b.minY + half)
  {
    hide EdgeX, EdgeY, Centre;
    CellIsSquare(g, c);
    EdgeOrder(g, span.west, c.column);
    EdgeOrder(g, c.column + 1, span.east + 1);
    EdgeOrder(g, span.south, c.row);
    EdgeOrder(g, c.row + 1, span.north + 1);
  }

  predicate LiesAlongX(hull: Box) {
    hull.maxX - hull.minX >= hull.maxY - hull.minY
  }

  /** The recommended line for a hull. */
  function Recommended(hull: Box, resolution: real): Line {
    var centerX, centerY := (hull.minX + hull.maxX) / 2.0, (hull.minY + hull.maxY) / 2.0;
    if LiesAlongX(hull) then
      [Point(hull.minX - resolution, centerY), Point(hull.maxX + resolution, centerY)]
    else
      [Point(centerX, hull.minY - resolution), Point(centerX, hull.maxY + resolution)]
  }

  /** A centre in the hull is reached by the recommended line exactly when its offset
      from the middle of the shorter side is at most half the swath. */
  lemma RecommendedReach(hull: Box, resolution: real, p: Point, swath: real)
    requires resolution > 0.0
    requires hull.minX <= p.x <= hull.maxX && hull.minY <= p.y <= hull.maxY
    ensures LineCovers(Recommended(hull, resolution), p, swath) <==>
            if LiesAlongX(hull) then WithinHalf(p.y - (hull.minY + hull.maxY) / 2.0, swath)
            else WithinHalf(p.x - (hull.minX + hull.maxX) / 2.0, swath)
  {
    hide WithinHalf, SegmentInReach;
    var line := Recommended(hull, resolution);
    TwoPointLine(line[0], line[1], p, swath);
    if LiesAlongX(hull) {
      HorizontalReach(p, hull.minX - resolution, hull.maxX + resolution, (hull.minY + hull.maxY) / 2.0, swath);
    } else {
      VerticalReach(p, (hull.minX + hull.maxX) / 2.0, hull.minY - resolution, hull.maxY + resolution, swath);
    }
  }

  function SideAcross(hull: Box): real {
    if LiesAlongX(hull) then hull.maxY - hull.minY else hull.maxX - hull.minX
  }

  /** Over a raster: the recommended line reaches every uncovered centre exactly when
      its swath is at least the shorter side of the hull less one resolution. */
  lemma RecommendedReachesGap(s: Raster, swath: real)
    requires s.grid.resolution > 0.0 && s.AllGap() != {}
    ensures s.GapHull().Some?
    ensures var hull, r := s.GapHull().value, s.grid.resolution;
            (forall c :: c in s.AllGap() ==> LineCovers(Recommended(hull, r), Centre(s.grid, c), swath))
            <==> swath >= SideAcross(hull) - r
  {
    var span := RasterHullExact(s);
    var west, east, south, north := HullSides(s);
    var span' := HullIsSpan(s, west, east, south, north);
    var hull, r := s.GapHull().value, s.grid.resolution;
    forall c | c in s.AllGap()
      ensures swath >= SideAcross(hull) - r ==> LineCovers(Recommended(hull, r), Centre(s.grid, c), swath)
    {
      HeldCentreReached(s.grid, span', c, swath);
    }
    HeldCentreReached(s.grid, span', west, swath);
    HeldCentreReached(s.grid, span', south, swath);
  }

  lemma HeldCentreReached(g: Grid, span: Span, c: Cell, swath: real)
    requires g.resolution > 0.0 && span.Holds(c)
    ensures var hull, r := span.ToBox(g), g.resolution;
            && (swath >= SideAcross(hull) - r ==> LineCovers(Recommended(hull, r), Centre(g, c), swath))
            && (LineCovers(Recommended(hull, r), Centre(g, c), swath)
                && (if LiesAlongX(hull) then c.row == span.south else c.column == span.west)
                ==> swath >= SideAcross(hull) - r)
  {
    hide Recommended, Centre, Span.ToBox;
    CentreInSpan(g, span, c);
    RecommendedReach(span.ToBox(g), g.resolution, Centre(g, c), swath);
  }

  lemma OneMoreTrack(boundary: Polygon, tracks: seq<Track>, g: Grid, track: Track)
    ensures RasterOf(boundary, tracks + [track], g).AllInside() == RasterOf(boundary, tracks, g).AllInside()
    ensures RasterOf(boundary, tracks + [track], g).AllGap()
         == set c | c in RasterOf(boundary, tracks, g).AllGap() && !TrackCovers(track, Centre(g, c))
  {
    var s, s' := RasterOf(boundary, tracks, g), RasterOf(boundary, tracks + [track], g);
    assert s.AllInside() == s'.AllInside();
    forall c | c in Cells(g)
      ensures s'.passes(c) == s.passes(c) + if TrackCovers(track, Centre(g, c)) then 1 else 0
    {
      PassesSnoc(tracks, track, Centre(g, c));
    }
  }

  lemma OneLineTrack(id: nat, line: Line, swath: real, p: Point)
    ensures TrackCovers(Track(id, [line], swath), p) <==> LineCovers(line, p, swath)
  {
    var track := Track(id, [line], swath);
    assert track.lines[0] == line;
  }

  lemma SummaryRecommendation(area: real, s: Raster, bounds: Box)
    requires s.AllInside() != {} && s.GapHull().Some? && Summary(area, s, bounds).gap > 0.0
    ensures Summary(area, s, bounds).recommended == Recommended(s.GapHull().value, s.grid.resolution)
    ensures Summary(area, s, bounds).gapRing == Corners(s.GapHull().value)
  {
    SummaryArtifacts(area, s, bounds);
  }

  lemma ReportedRecommendation(boundary: Polygon, tracks: seq<Track>, resolution: real)
    requires Score(boundary, tracks, resolution).Ok? && Score(boundary, tracks, resolution).value.gap > 0.0
    ensures var res, s := Score(boundary, tracks, resolution).value, Scored(boundary, tracks, resolution);
            && s.AllGap() != {} && s.GapHull().Some?
            && res.recommended == Recommended(s.GapHull().value, resolution)
            && res.gapRing == Corners(s.GapHull().value)
  {
    ScoreIsSummary(boundary, tracks, resolution);
    hide Score, Summary, Recommended, Corners;
    var s := Scored(boundary, tracks, resolution);
    SummaryRatios(Area(boundary), s, BoundsOf(boundary));
    var west, east, south, north := HullSides(s);
    SummaryRecommendation(Area(boundary), s, BoundsOf(boundary));
  }

  /** Scoring again with one more track looks at the same cells. */
  lemma ScoreAgain(boundary: Polygon, tracks: seq<Track>, resolution: real, track: Track)
    requires Score(boundary, tracks, resolution).Ok?
    ensures Score(boundary, tracks + [track], resolution).Ok?
    ensures Scored(boundary, tracks + [track], resolution).AllGap()
         == set c | c in Scored(boundary, tracks, resolution).AllGap()
                    && !TrackCovers(track, Centre(Scored(boundary, tracks, resolution).grid, c))
  {
    OneMoreTrack(boundary, tracks, Scored(boundary, tracks, resolution).grid, track);
  }

  /** After the recommended line is sailed, nothing is uncovered exactly when the swath
      reaches across the hull. */
  lemma LeftAfterLine(s: Raster, track: Track, line: Line, left: set<Cell>)
    requires s.grid.resolution > 0.0 && s.AllGap() != {} && s.GapHull().Some?
    requires line == Recommended(s.GapHull().value, s.grid.resolution) && track.lines == [line]
    requires left == set c | c in s.AllGap() && !TrackCovers(track, Centre(s.grid, c))
    ensures left == {} <==> track.swath >= SideAcross(s.GapHull().value) - s.grid.resolution
  {
    hide Recommended, TrackCovers, LineCovers, SideAcross, Centre, Raster.GapHull, Raster.AllGap;
    RecommendedReachesGap(s, track.swath);
    assert track == Track(track.runId, [line], track.swath);
    forall c | c in s.AllGap()
      ensures TrackCovers(track, Centre(s.grid, c)) <==> LineCovers(line, Centre(s.grid, c), track.swath)
    {
      OneLineTrack(track.runId, line, track.swath, Centre(s.grid, c));
    }
    if left == {} {
      forall c | c in s.AllGap()
        ensures LineCovers(line, Centre(s.grid, c), track.swath)
      {
        assert c !in left;
      }
    }
  }

  /** Re-survey closure. Score a boundary that is left with a gap, sail the recommended
      line once with some swath, and score again: the gap ratio is zero exactly when
      the swath was at least the shorter side of the reported box less the resolution. */
  lemma ResurveyClosesGap(boundary: Polygon, tracks: seq<Track>, resolution: real, id: nat, swath: real)
    requires Score(boundary, tracks, resolution).Ok? && Score(boundary, tracks, resolution).value.gap > 0.0
    ensures |Score(boundary, tracks, resolution).value.gapRing| == 5
    ensures var before := Score(boundary, tracks, resolution).value;
            var again := Score(boundary, tracks + [Track(id, [before.recommended], swath)], resolution);
            && again.Ok?
            && (again.value.gap == 0.0 <==> swath >= ShorterSide(before.gapRing) - resolution)
  {
    ScoreIsSummary(boundary, tracks, resolution);
    hide Score, Scored, Summary, Recommended, SideAcross, RatiosHold;
    var before, s := Score(boundary, tracks, resolution).value, Scored(boundary, tracks, resolution);
    var track := Track(id, [before.recommended], swath);
    ReportedRecommendation(boundary, tracks, resolution);
    ScoreAgain(boundary, tracks, resolution, track);
    LeftAfterLine(s, track, before.recommended, Scored(boundary, tracks + [track], resolution).AllGap());
    GapIsZero(boundary, tracks + [track], resolution);
    ShorterSideOfCorners(s.GapHull().value);
  }

  lemma ShorterSideOfCorners(hull: Box)
    ensures SideAcross(hull) == ShorterSide(Corners(hull))
  {
  }

  // ---- any swath, and any number of rounds ----

  ghost function HullOf(g: Grid, gap: set<Cell>): Option<Box> {
    Hull(set c | c in gap :: CellBox(g, c))
  }

  /** How far a point is from the middle of the shorter side of the box. */
  function MidOffset(hull: Box, p: Point): real {
    if LiesAlongX(hull) then p.y - (hull.minY + hull.maxY) / 2.0 else p.x - (hull.minX + hull.maxX) / 2.0
  }

  /** The uncovered cells whose centre the recommended line for them does not reach. */
  ghost function Left(g: Grid, swath: real, gap: set<Cell>): set<Cell> {
    if HullOf(g, gap).None? then {}
    else set c | c in gap && !WithinHalf(MidOffset(HullOf(g, gap).value, Centre(g, c)), swath)
  }

  lemma RasterHullIsHullOf(s: Raster)
    ensures s.GapHull() == HullOf(s.grid, s.AllGap())
  {
    assert s.GapBoxesOf(Cells(s.grid)) == set c | c in s.AllGap() :: CellBox(s.grid, c);
  }

  /** What sailing the recommended line of a raster leaves uncovered. */
  lemma LineLeaves(s: Raster, track: Track)
    requires s.grid.resolution > 0.0 && s.GapHull().Some? && s.AllGap() != {}
    requires track.lines == [Recommended(s.GapHull().value, s.grid.resolution)]
    ensures (set c | c in s.AllGap() && !TrackCovers(track, Centre(s.grid, c))) == Left(s.grid, track.swath, s.AllGap())
  {
    RasterHullIsHullOf(s);
    var span := RasterHullExact(s);
    var hull, line := s.GapHull().value, track.lines[0];
    hide Recommended, TrackCovers, LineCovers, WithinHalf, Centre, HullOf, Raster.GapHull, Raster.AllGap, Span.ToBox;
    assert track == Track(track.runId, [line], track.swath);
    forall c | c in s.AllGap()
      ensures TrackCovers(track, Centre(s.grid, c)) <==> WithinHalf(MidOffset(hull, Centre(s.grid, c)), track.swath)
    {
      OneLineTrack(track.runId, line, track.swath, Centre(s.grid, c));
      CentreWithinSpan(s.grid, span, c);
      RecommendedReach(hull, s.grid.resolution, Centre(s.grid, c), track.swath);
    }
  }

  lemma CentreWithinSpan(g: Grid, span: Span, c: Cell)
    requires g.resolution > 0.0 && span.Holds(c)
    ensures var b, p := span.ToBox(g), Centre(g, c); b.minX <= p.x <= b.maxX && b.minY <= p.y <= b.maxY
  {
    hide Centre, Span.ToBox;
    CentreInSpan(g, span, c);
  }

  /** The track that sails the recommendation of a score. */
  ghost function Followed(boundary: Polygon, tracks: seq<Track>, resolution: real, id: nat, swath: real): Track
    requires Score(boundary, tracks, resolution).Ok?
  {
    Track(id, [Score(boundary, tracks, resolution).value.recommended], swath)
  }

  /** One more survey, for any swath: exactly the uncovered centres near the middle of the
      box become covered. The gap ratio falls if there is one, and otherwise gap, box and
      recommendation are what they were. */
  lemma ResurveyProgress(boundary: Polygon, tracks: seq<Track>, resolution: real, id: nat, swath: real)
    requires Score(boundary, tracks, resolution).Ok? && Score(boundary, tracks, resolution).value.gap > 0.0
    ensures var more := tracks + [Followed(boundary, tracks, resolution, id, swath)];
            var before, again := Score(boundary, tracks, resolution), Score(boundary, more, resolution);
            var s := Scored(boundary, tracks, resolution);
            && again.Ok?
            && Scored(boundary, more, resolution).AllGap() == Left(s.grid, swath, s.AllGap())
            && (again.value.gap < before.value.gap <==> Left(s.grid, swath, s.AllGap()) != s.AllGap())
            && (Left(s.grid, swath, s.AllGap()) == s.AllGap() ==> SameGap(before.value, again.value))
  {
    ScoreIsSummary(boundary, tracks, resolution);
    hide Score, Scored, Summary, Recommended, RatiosHold;
    var s, track := Scored(boundary, tracks, resolution), Followed(boundary, tracks, resolution, id, swath);
    var more := tracks + [track];
    ReportedRecommendation(boundary, tracks, resolution);
    LineLeaves(s, track);
    ScoreAgain(boundary, tracks, resolution, track);
    ScoreIsSummary(boundary, more, resolution);
    SameGrid(boundary, tracks, more, resolution);
    var s' := Scored(boundary, more, resolution);
    FewerLeft(boundary, tracks, more, resolution);
    if s'.AllGap() == s.AllGap() {
      SameGapSet(boundary, tracks, more, resolution);
    }
  }

  /** Equal gap ratio, box and recommendation. */
  predicate SameGap(a: CoverageResult, b: CoverageResult) {
    a.gap == b.gap && a.gapRing == b.gapRing && a.recommended == b.recommended && a.fragments == b.fragments
  }

  lemma SameGrid(boundary: Polygon, tracks: seq<Track>, more: seq<Track>, resolution: real)
    requires Score(boundary, tracks, resolution).Ok? && Score(boundary, more, resolution).Ok?
    ensures Scored(boundary, more, resolution).grid == Scored(boundary, tracks, resolution).grid
    ensures Scored(boundary, more, resolution).AllInside() == Scored(boundary, tracks, resolution).AllInside()
  {
    hide Score;
    assert Scored(boundary, more, resolution).AllInside() == Scored(boundary, tracks, resolution).AllInside();
  }

  lemma GapTimesCells(boundary: Polygon, tracks: seq<Track>, resolution: real)
    requires Score(boundary, tracks, resolution).Ok?
    ensures var s := Scored(boundary, tracks, resolution);
            && |s.AllInside()| > 0
            && Score(boundary, tracks, resolution).value.gap * |s.AllInside()| as real == |s.AllGap()| as real
  {
    hide Score, Scored, Summary, RatiosHold, Raster.AllGap, Raster.AllInside;
    ScoreIsSummary(boundary, tracks, resolution);
    RatiosInRange(boundary, tracks, resolution);
    RatiosCounted(Score(boundary, tracks, resolution).value, Scored(boundary, tracks, resolution));
  }

  lemma RatiosCounted(res: CoverageResult, s: Raster)
    requires RatiosHold(res, s) && s.AllInside() != {}
    ensures |s.AllInside()| > 0 && res.gap * |s.AllInside()| as real == |s.AllGap()| as real
  {
    hide Raster.AllGap, Raster.AllInside;
    assert res.sampleCells == |s.AllInside()|;
  }

  lemma ScoredHasBounds(boundary: Polygon, tracks: seq<Track>, resolution: real)
    requires Score(boundary, tracks, resolution).Ok?
    ensures Hull(VertexBoxes(boundary)).Some?
  {
  }

  // Fewer uncovered cells mean a smaller gap ratio.
  lemma FewerLeft(boundary: Polygon, tracks: seq<Track>, more: seq<Track>, resolution: real)
    requires Score(boundary, tracks, resolution).Ok? && Score(boundary, more, resolution).Ok?
    requires Scored(boundary, more, resolution).AllGap() <= Scored(boundary, tracks, resolution).AllGap()
    ensures Score(boundary, more, resolution).value.gap < Score(boundary, tracks, resolution).value.gap
            <==> Scored(boundary, more, resolution).AllGap() != Scored(boundary, tracks, resolution).AllGap()
  {
    hide Score, Scored, Raster.AllGap, Raster.AllInside;
    GapTimesCells(boundary, tracks, resolution);
    GapTimesCells(boundary, more, resolution);
    SameGrid(boundary, tracks, more, resolution);
    var s, s' := Scored(boundary, tracks, resolution), Scored(boundary, more, resolution);
    if s'.AllGap() != s.AllGap() {
      SmallerSubset(s'.AllGap(), s.AllGap());
    }
    SmallerFraction(Score(boundary, more, resolution).value.gap, Score(boundary, tracks, resolution).value.gap,
                    |s.AllInside()|, |s'.AllGap()|, |s.AllGap()|);
  }

  lemma SmallerSubset<T>(a: set<T>, b: set<T>)
    requires a < b
    ensures |a| < |b|
  {
    assert b == a + (b - a);
  }

  lemma SmallerFraction(x: real, y: real, n: nat, a: nat, b: nat)
    requires n > 0 && x * n as real == a as real && y * n as real == b as real
    ensures x < y <==> a < b
  {
    if x < y {
      PositiveProduct(y - x, n as real);
    } else {
      NonNegativeProduct(x - y, n as real);
    }
  }

  lemma SameGapSet(boundary: Polygon, tracks: seq<Track>, more: seq<Track>, resolution: real)
    requires Score(boundary, tracks, resolution).Ok? && Score(boundary, more, resolution).Ok?
    requires Scored(boundary, more, resolution).AllGap() == Scored(boundary, tracks, resolution).AllGap()
    ensures SameGap(Score(boundary, tracks, resolution).value, Score(boundary, more, resolution).value)
  {
    hide Score, Scored, Summary, SameGap, Raster.AllGap, Raster.AllInside;
    ScoredHasBounds(boundary, tracks, resolution);
    ScoreIsSummary(boundary, tracks, resolution);
    ScoreIsSummary(boundary, more, resolution);
    SameGrid(boundary, tracks, more, resolution);
    SummarySameGap(Area(boundary), Scored(boundary, tracks, resolution), Scored(boundary, more, resolution),
                   BoundsOf(boundary));
  }

  lemma SummarySameGap(area: real, s: Raster, s': Raster, bounds: Box)
    requires s.grid == s'.grid && s.AllInside() == s'.AllInside() != {} && s.AllGap() == s'.AllGap()
    ensures SameGap(Summary(area, s, bounds), Summary(area, s', bounds))
  {
    hide GapArtifacts, HullOf, Raster.GapHull, Raster.AllGap, Raster.AllInside, Raster.AllSwept;
    RasterHullIsHullOf(s);
    RasterHullIsHullOf(s');
    InsideSplits(s);
    InsideSplits(s');
  }

  /** The tracks after so many rounds of sailing the current recommendation. */
  ghost function Surveyed(boundary: Polygon, tracks: seq<Track>, resolution: real, id: nat, swath: real, n: nat)
    : seq<Track>
  {
    if n == 0 then tracks
    else
      var done := Surveyed(boundary, tracks, resolution, id, swath, n - 1);
      if Score(boundary, done, resolution).Ok? && Score(boundary, done, resolution).value.gap > 0.0
      then done + [Followed(boundary, done, resolution, id, swath)]
      else done
  }

  ghost function Rounds(g: Grid, swath: real, gap: set<Cell>, n: nat): set<Cell> {
    if n == 0 then gap else Left(g, swath, Rounds(g, swath, gap, n - 1))
  }

  lemma LeftOfNothing(g: Grid, swath: real)
    ensures Left(g, swath, {}) == {}
  {
  }

  lemma {:induction false} RoundsLeave(
      boundary: Polygon, tracks: seq<Track>, resolution: real, id: nat, swath: real, n: nat)
    requires Score(boundary, tracks, resolution).Ok?
    ensures var s, done := Scored(boundary, tracks, resolution), Surveyed(boundary, tracks, resolution, id, swath, n);
            && Score(boundary, done, resolution).Ok? && Scored(boundary, done, resolution).grid == s.grid
            && Scored(boundary, done, resolution).AllGap() == Rounds(s.grid, swath, s.AllGap(), n)
  {
    hide Score, Scored, Left, Followed;
    if n > 0 {
      var done := Surveyed(boundary, tracks, resolution, id, swath, n - 1);
      RoundsLeave(boundary, tracks, resolution, id, swath, n - 1);
      if Score(boundary, done, resolution).value.gap > 0.0 {
        ResurveyProgress(boundary, done, resolution, id, swath);
        SameGrid(boundary, done, done + [Followed(boundary, done, resolution, id, swath)], resolution);
      } else {
        NoGapNoCells(boundary, done, resolution);
        LeftOfNothing(Scored(boundary, tracks, resolution).grid, swath);
      }
    }
  }

  lemma NoGapNoCells(boundary: Polygon, tracks: seq<Track>, resolution: real)
    requires Score(boundary, tracks, resolution).Ok? && Score(boundary, tracks, resolution).value.gap <= 0.0
    ensures Scored(boundary, tracks, resolution).AllGap() == {}
  {
    RatiosInRange(boundary, tracks, resolution);
    GapIsZero(boundary, tracks, resolution);
    hide Score, Scored, Raster.AllGap;
  }

  // Each round loses a cell or nothing ever again.
  lemma {:induction false} RoundsSettle(g: Grid, swath: real, gap: set<Cell>, n: nat)
    ensures Rounds(g, swath, gap, n + 1) == Rounds(g, swath, gap, n) || |Rounds(g, swath, gap, n + 1)| + n < |gap|
  {
    LeftIsSubset(g, swath, Rounds(g, swath, gap, n));
    hide Left;
    assert Rounds(g, swath, gap, n + 1) == Left(g, swath, Rounds(g, swath, gap, n));
    if Rounds(g, swath, gap, n + 1) != Rounds(g, swath, gap, n) {
      SmallerSubset(Rounds(g, swath, gap, n + 1), Rounds(g, swath, gap, n));
      if n > 0 {
        RoundsSettle(g, swath, gap, n - 1);
      }
    }
  }

  lemma LeftIsSubset(g: Grid, swath: real, gap: set<Cell>)
    ensures Left(g, swath, gap) <= gap
  {
  }

  /** Surveying the recommendation over and over settles within as many rounds as there are
      uncovered cells: from then on the gap is closed, or no uncovered centre lies within half
      a swath of the middle of the box and no further round covers anything. */
  lemma SurveysSettle(boundary: Polygon, tracks: seq<Track>, resolution: real, id: nat, swath: real, n: nat)
    requires Score(boundary, tracks, resolution).Ok? && n >= |Scored(boundary, tracks, resolution).AllGap()|
    ensures var done := Surveyed(boundary, tracks, resolution, id, swath, n);
            && Score(boundary, done, resolution).Ok?
            && var s := Scored(boundary, done, resolution);
               Score(boundary, done, resolution).value.gap == 0.0
               || (&& HullOf(s.grid, s.AllGap()).Some?
                   && forall c :: c in s.AllGap() ==>
                        !WithinHalf(MidOffset(HullOf(s.grid, s.AllGap()).value, Centre(s.grid, c)), swath))
  {
    hide Score, Scored, Raster.AllGap, WithinHalf, MidOffset;
    var s, done := Scored(boundary, tracks, resolution), Surveyed(boundary, tracks, resolution, id, swath, n);
    RoundsLeave(boundary, tracks, resolution, id, swath, n);
    RoundsSettle(s.grid, swath, s.AllGap(), n);
    var gap := Scored(boundary, done, resolution).AllGap();
    assert Left(s.grid, swath, gap) == gap;
    GapIsZero(boundary, done, resolution);
  }
}
