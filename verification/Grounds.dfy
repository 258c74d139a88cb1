/** How much of a boundary a score can see: the inside cell centres, the middle of the
    bounding box and the area. Two boundaries that agree in these score alike with
    every track set, and any other two are told apart by a single track. */
module Grounds {
  import opened Wrappers
  import opened Plane
  import opened Rings
  import opened Tracks
  import opened Boxes
  import opened Rasters
  import opened Coverage
  import opened Scores
  import opened AxisLines
  import opened Resurvey

  datatype Ground = Ground(sample: set<Point>, middle: Point, area: real)

  /** The cell centres inside the boundary. */
  ghost function Sample(boundary: Polygon, g: Grid): set<Point> {
    set c | c in Cells(g) && PolygonContains(boundary, Centre(g, c)) :: Centre(g, c)
  }

  function Middle(b: Box): Point {
    Point((b.minX + b.maxX) / 2.0, (b.minY + b.maxY) / 2.0)
  }

  /** What the boundary offers at a resolution, if it can be analysed at that resolution. */
  ghost function GroundOf(boundary: Polygon, resolution: real): (ground: Option<Ground>)
    ensures ground.Some? ==> ground.value.sample != {}
  {
    if resolution <= 0.0 then None
    else
      match Hull(VertexBoxes(boundary))
      case None => None
      case Some(bounds) =>
        if !HasArea(bounds) then None
        else
          var g := GridOf(bounds, resolution);
          if g.columns * g.rows > MAX_CELLS || Sample(boundary, g) == {} then None
          else Some(Ground(Sample(boundary, g), Middle(bounds), Area(boundary)))
  }

  // ---- the score in terms of the ground ----

  ghost function Reached(sample: set<Point>, tracks: seq<Track>, n: nat): set<Point> {
    set p | p in sample && Passes(tracks, p) >= n
  }

  ghost function Missed(sample: set<Point>, tracks: seq<Track>): set<Point> {
    set p | p in sample && Passes(tracks, p) == 0
  }

  ghost function MissedSquares(sample: set<Point>, tracks: seq<Track>, resolution: real): set<Box> {
    set p | p in Missed(sample, tracks) :: SquareAround(p, resolution)
  }

  /** The score of a ground: points are counted, the squares of the missed ones boxed. */
  ghost function GroundScore(ground: Ground, tracks: seq<Track>, resolution: real): CoverageResult
    requires ground.sample != {}
  {
    Report(ground.area, |ground.sample|, |Reached(ground.sample, tracks, 1)|, |Reached(ground.sample, tracks, 2)|,
           PointBox(ground.middle), Hull(MissedSquares(ground.sample, tracks, resolution)), resolution)
  }

  lemma CentreIsInjective(g: Grid, c: Cell, d: Cell)
    requires g.resolution > 0.0 && Centre(g, c) == Centre(g, d)
    ensures c == d
  {
    SameMultiple(g.minX, c.column, d.column, g.resolution);
    SameMultiple(g.minY, c.row, d.row, g.resolution);
  }

  lemma SameMultiple(o: real, a: nat, b: nat, r: real)
    requires r > 0.0 && o + (a as real + 0.5) * r == o + (b as real + 0.5) * r
    ensures a == b
  {
    CancelFactor(a as real + 0.5, b as real + 0.5, r);
  }

  ghost function Centres(g: Grid, cells: set<Cell>): set<Point> {
    set c | c in cells :: Centre(g, c)
  }

  lemma {:induction false} CentresCounted(g: Grid, cells: set<Cell>)
    requires g.resolution > 0.0
    ensures |Centres(g, cells)| == |cells|
    decreases |cells|
  {
    if cells != {} {
      var c :| c in cells;
      CentresCounted(g, cells - {c});
      forall d | d in cells - {c}
        ensures Centre(g, d) != Centre(g, c)
      {
        if Centre(g, d) == Centre(g, c) {
          CentreIsInjective(g, c, d);
        }
      }
      assert Centres(g, cells) == Centres(g, cells - {c}) + {Centre(g, c)};
    }
  }

  // The cell sets of a raster are point sets seen through `Centre`.
  lemma RasterSeesGround(boundary: Polygon, tracks: seq<Track>, g: Grid, n: nat)
    requires g.resolution > 0.0
    ensures var s, sample := RasterOf(boundary, tracks, g), Sample(boundary, g);
            && |s.AllInside()| == |sample|
            && |s.AllSwept(n)| == |Reached(sample, tracks, n)|
            && s.GapBoxesOf(Cells(g)) == MissedSquares(sample, tracks, g.resolution)
  {
    var s, sample := RasterOf(boundary, tracks, g), Sample(boundary, g);
    hide Centre, CellBox, Passes, PolygonContains, SquareAround;
    CentresCounted(g, s.AllInside());
    CentresCounted(g, s.AllSwept(n));
    assert Centres(g, s.AllInside()) == sample;
    assert Centres(g, s.AllSwept(n)) == Reached(sample, tracks, n);
    forall c: Cell
      ensures CellBox(g, c) == SquareAround(Centre(g, c), g.resolution)
    {
      CellIsSquare(g, c);
    }
    assert Centres(g, s.AllGap()) == Missed(sample, tracks);
  }

  /** The score is a function of the ground: an analysable boundary scores with every
      track set as its ground does, and no other boundary scores at all. */
  lemma ScoreSeesGround(boundary: Polygon, tracks: seq<Track>, resolution: real)
    requires tracks != []
    ensures Score(boundary, tracks, resolution).Ok? <==> GroundOf(boundary, resolution).Some?
    ensures var ground := GroundOf(boundary, resolution);
            ground.Some? ==>
              Score(boundary, tracks, resolution) == Ok(GroundScore(ground.value, tracks, resolution))
  {
    if resolution > 0.0 && Hull(VertexBoxes(boundary)).Some? && HasArea(BoundsOf(boundary)) {
      var bounds := BoundsOf(boundary);
      var g := GridOf(bounds, resolution);
      var s, sample := RasterOf(boundary, tracks, g), Sample(boundary, g);
      RasterSeesGround(boundary, tracks, g, 1);
      RasterSeesGround(boundary, tracks, g, 2);
      assert s.AllInside() == {} <==> sample == {};
      hide Raster.AllInside, Raster.AllSwept, Raster.GapBoxesOf, Sample, Reached, MissedSquares, Hull, Area, GridOf,
           Cells;
      if sample != {} {
        ReportSeesMiddle(Area(boundary), |sample|, |Reached(sample, tracks, 1)|, |Reached(sample, tracks, 2)|, bounds,
                         Hull(MissedSquares(sample, tracks, resolution)), resolution);
      }
    }
  }

  lemma ReportSeesMiddle(
      area: real, inside: nat, covered: nat, overlap: nat, bounds: Box, hull: Option<Box>, resolution: real)
    requires inside > 0
    ensures Report(area, inside, covered, overlap, bounds, hull, resolution)
         == Report(area, inside, covered, overlap, PointBox(Middle(bounds)), hull, resolution)
  {
  }

  // ---- tracks that tell two grounds apart ----

  // A positive swath under which a point reaches no other point of a finite set.
  lemma {:induction false} Isolate(points: set<Point>, p: Point) returns (swath: real)
    ensures 0.0 < swath <= 1.0
    ensures forall q :: q in points && q != p ==> !InReach(q, p, swath)
    decreases |points|
  {
    if points == {} {
      swath := 1.0;
    } else {
      var q :| q in points;
      swath := Isolate(points - {q}, p);
      if q != p {
        ghost var before := swath;
        DistinctPointsApart(p, q);
        var d := Dist2(q, p);
        swath := Min(swath, d);
        SquareBelow(swath);
        forall x | x in points && x != p
          ensures !InReach(x, p, swath)
        {
          if x != q {
            NarrowerReachesLess(x, p, swath, before);
          }
        }
      }
    }
  }

  lemma SquareBelow(w: real)
    requires 0.0 < w <= 1.0
    ensures Square(w) <= w
  {
    NonNegativeProduct(w, 1.0 - w);
  }

  lemma NarrowerReachesLess(q: Point, p: Point, narrow: real, wide: real)
    requires 0.0 < narrow <= wide && !InReach(q, p, wide)
    ensures !InReach(q, p, narrow)
  {
    SquareMonotone(narrow, wide);
  }

  function Dot(p: Point): Line {
    [p, p]
  }

  lemma DotReach(p: Point, q: Point, swath: real)
    requires swath >= 0.0
    ensures LineCovers(Dot(p), q, swath) <==> InReach(q, p, swath)
    ensures InReach(p, p, swath)
  {
    hide LineCovers, InReach;
    TwoPointLine(p, p, q, swath);
    ReachesItself(p, swath);
  }

  lemma ReachesItself(p: Point, swath: real)
    requires swath >= 0.0
    ensures InReach(p, p, swath)
  {
    SquarePositive(swath);
    SquareOfZero();
  }

  lemma SquareOfZero()
    ensures Square(0.0) == 0.0
  {
  }

  lemma {:induction false} DotsOn(points: set<Point>) returns (lines: seq<Line>)
    ensures |lines| == |points|
    ensures forall k :: 0 <= k < |lines| ==> |lines[k]| == 2
    ensures forall p :: p in points ==> Dot(p) in lines
    decreases |points|
  {
    if points == {} {
      lines := [];
    } else {
      var p :| p in points;
      var rest := DotsOn(points - {p});
      lines := rest + [Dot(p)];
      forall q | q in points
        ensures Dot(q) in lines
      {
        if q == p {
          assert lines[|rest|] == Dot(p);
        }
      }
    }
  }

  lemma OneTrackOverSample(sample: set<Point>, track: Track)
    ensures (forall p :: p in sample ==> TrackCovers(track, p)) ==> Reached(sample, [track], 1) == sample
    ensures (forall p :: p in sample ==> !TrackCovers(track, p)) ==> Reached(sample, [track], 1) == {}
    ensures forall p :: p in Reached(sample, [track], 1) <==> p in sample && TrackCovers(track, p)
  {
    forall p: Point
      ensures Passes([track], p) >= 1 <==> TrackCovers(track, p)
    {
      PassesSnoc([], track, p);
      assert [] + [track] == [track];
      assert Sweepers([], p) == {};
    }
  }

  /** What a stored gap keeps of a score. */
  predicate SameRecord(a: CoverageResult, b: CoverageResult) {
    && a.coverage == b.coverage && a.overlap == b.overlap && a.gap == b.gap
    && a.gapRing == b.gapRing && a.recommended == b.recommended
    && a.area * a.gap == b.area * b.gap
  }

  // Nothing reached: the gap is everything.
  lemma NothingReached(ground: Ground, tracks: seq<Track>, resolution: real)
    requires ground.sample != {} && Reached(ground.sample, tracks, 1) == {}
    ensures var res := GroundScore(ground, tracks, resolution);
            res.coverage == 0.0 && res.gap == 1.0 && res.area == ground.area
  {
  }

  // All reached: the reported ring is the middle of the bounding box.
  lemma AllReached(ground: Ground, tracks: seq<Track>, resolution: real)
    requires ground.sample != {} && Reached(ground.sample, tracks, 1) == ground.sample
    ensures var res := GroundScore(ground, tracks, resolution);
            res.gap == 0.0 && res.gapRing == [ground.middle, ground.middle, ground.middle, ground.middle]
  {
    var n := |ground.sample| as real;
    assert n / n == 1.0;
  }

  lemma SomeReached(ground: Ground, tracks: seq<Track>, resolution: real)
    requires ground.sample != {} && Reached(ground.sample, tracks, 1) != {}
    ensures GroundScore(ground, tracks, resolution).coverage > 0.0
  {
    PositiveQuotient(|Reached(ground.sample, tracks, 1)| as real, |ground.sample| as real);
  }

  // A dot on a centre that only the first ground has.
  lemma DotTellsApart(a: Ground, b: Ground, p: Point, resolution: real, id: nat) returns (lines: seq<Line>, swath: real)
    requires b.sample != {} && p in a.sample && p !in b.sample
    ensures Importable(lines, swath)
    ensures var tracks := [Track(id, lines, swath)];
            !SameRecord(GroundScore(a, tracks, resolution), GroundScore(b, tracks, resolution))
  {
    hide GroundScore, Reached, InReach;
    swath := Isolate(b.sample, p);
    lines := [Dot(p)];
    var track := Track(id, lines, swath);
    DotReach(p, p, swath);
    OneLineTrack(id, Dot(p), swath, p);
    forall q | q in b.sample
      ensures !TrackCovers(track, q)
    {
      DotReach(p, q, swath);
      OneLineTrack(id, Dot(p), swath, q);
    }
    OneTrackOverSample(a.sample, track);
    OneTrackOverSample(b.sample, track);
    assert p in Reached(a.sample, [track], 1);
    SomeReached(a, [track], resolution);
    NothingReached(b, [track], resolution);
  }

  lemma DotAmongLines(track: Track, p: Point)
    requires Dot(p) in track.lines && track.swath >= 0.0
    ensures TrackCovers(track, p)
  {
    hide LineCovers, InReach;
    DotReach(p, p, track.swath);
    var k :| 0 <= k < |track.lines| && track.lines[k] == Dot(p);
    assert LineCovers(track.lines[k], p, track.swath);
  }

  // A dot on every centre leaves nothing but the middle to report.
  lemma DotsTellMiddles(a: Ground, b: Ground, resolution: real, id: nat) returns (lines: seq<Line>, swath: real)
    requires a.sample == b.sample != {} && a.middle != b.middle
    ensures Importable(lines, swath)
    ensures var tracks := [Track(id, lines, swath)];
            !SameRecord(GroundScore(a, tracks, resolution), GroundScore(b, tracks, resolution))
  {
    hide GroundScore, Reached, LineCovers, TrackCovers, InReach;
    swath := 1.0;
    lines := DotsOn(a.sample);
    var track := Track(id, lines, swath);
    forall p | p in a.sample
      ensures TrackCovers(track, p)
    {
      DotAmongLines(track, p);
    }
    OneTrackOverSample(a.sample, track);
    AllReached(a, [track], resolution);
    AllReached(b, [track], resolution);
    assert GroundScore(a, [track], resolution).gapRing[0] != GroundScore(b, [track], resolution).gapRing[0];
  }

  lemma {:induction false} East(points: set<Point>) returns (x: real)
    ensures forall p :: p in points ==> p.x < x
    decreases |points|
  {
    if points == {} {
      x := 0.0;
    } else {
      var p :| p in points;
      var rest := East(points - {p});
      x := Max(rest, p.x + 1.0);
    }
  }

  // A dot off every centre leaves the whole area as the gap.
  lemma DotTellsAreas(a: Ground, b: Ground, resolution: real, id: nat) returns (lines: seq<Line>, swath: real)
    requires a.sample == b.sample != {} && a.area != b.area
    ensures Importable(lines, swath)
    ensures var tracks := [Track(id, lines, swath)];
            !SameRecord(GroundScore(a, tracks, resolution), GroundScore(b, tracks, resolution))
  {
    hide GroundScore, Reached, InReach;
    var x := East(a.sample);
    var p := Point(x, 0.0);
    swath := Isolate(a.sample, p);
    lines := [Dot(p)];
    var track := Track(id, lines, swath);
    forall q | q in a.sample
      ensures !TrackCovers(track, q)
    {
      DotReach(p, q, swath);
      OneLineTrack(id, Dot(p), swath, q);
    }
    OneTrackOverSample(a.sample, track);
    NothingReached(a, [track], resolution);
    NothingReached(b, [track], resolution);
  }

  /** Lines and a swath as an import accepts them. */
  predicate Importable(lines: seq<Line>, swath: real) {
    lines != [] && (forall k :: 0 <= k < |lines| ==> |lines[k]| >= 2) && 0.0 < swath <= 1.0
  }

  /** Any two grounds are told apart by one track of positive swath. */
  lemma OneTrackTellsApart(a: Ground, b: Ground, resolution: real, id: nat) returns (lines: seq<Line>, swath: real)
    requires a.sample != {} && b.sample != {} && a != b
    ensures Importable(lines, swath)
    ensures var tracks := [Track(id, lines, swath)];
            !SameRecord(GroundScore(a, tracks, resolution), GroundScore(b, tracks, resolution))
  {
    hide GroundScore;
    if p :| p in a.sample && p !in b.sample {
      lines, swath := DotTellsApart(a, b, p, resolution, id);
    } else if p :| p in b.sample && p !in a.sample {
      lines, swath := DotTellsApart(b, a, p, resolution, id);
    } else {
      assert a.sample == b.sample;
      if a.middle != b.middle {
        lines, swath := DotsTellMiddles(a, b, resolution, id);
      } else {
        lines, swath := DotTellsAreas(a, b, resolution, id);
      }
    }
  }

  // ---- exactly when two boundaries always score alike ----

  /** Whatever scores on the first boundary has the same record on the second. */
  ghost predicate AlwaysAlike(boundary: Polygon, other: Polygon, resolution: real) {
    forall tracks: seq<Track> :: tracks != [] && Score(boundary, tracks, resolution).Ok? ==>
      && Score(other, tracks, resolution).Ok?
      && SameRecord(Score(boundary, tracks, resolution).value, Score(other, tracks, resolution).value)
  }

  /** Two boundaries always score alike exactly when the first cannot be analysed at all
      or both offer the same ground. */
  lemma AlikeExactly(boundary: Polygon, other: Polygon, resolution: real)
    ensures AlwaysAlike(boundary, other, resolution)
            <==> GroundOf(boundary, resolution).None? || GroundOf(other, resolution) == GroundOf(boundary, resolution)
  {
    hide Score, GroundOf, GroundScore, SameRecord;
    var a, b := GroundOf(boundary, resolution), GroundOf(other, resolution);
    if a.None? || b == a {
      forall tracks: seq<Track> | tracks != [] && Score(boundary, tracks, resolution).Ok?
        ensures Score(other, tracks, resolution).Ok?
        ensures SameRecord(Score(boundary, tracks, resolution).value, Score(other, tracks, resolution).value)
      {
        ScoreSeesGround(boundary, tracks, resolution);
        ScoreSeesGround(other, tracks, resolution);
        SameRecordReflexive(Score(boundary, tracks, resolution).value);
      }
    } else {
      var lines, swath := TellApart(boundary, other, resolution, 0);
      var tracks := [Track(0, lines, swath)];
      assert tracks != [] && Score(boundary, tracks, resolution).Ok?;
    }
  }

  lemma SameRecordReflexive(a: CoverageResult)
    ensures SameRecord(a, a)
  {
  }

  /** A track on which two boundaries of different grounds differ. */
  lemma TellApart(boundary: Polygon, other: Polygon, resolution: real, id: nat) returns (lines: seq<Line>, swath: real)
    requires GroundOf(boundary, resolution).Some? && GroundOf(other, resolution) != GroundOf(boundary, resolution)
    ensures Importable(lines, swath)
    ensures var tracks := [Track(id, lines, swath)];
            var one, two := Score(boundary, tracks, resolution), Score(other, tracks, resolution);
            one.Ok? && !(two.Ok? && SameRecord(one.value, two.value))
  {
    hide Score, GroundOf, GroundScore, SameRecord;
    var a, b := GroundOf(boundary, resolution), GroundOf(other, resolution);
    if b.Some? {
      lines, swath := OneTrackTellsApart(a.value, b.value, resolution, id);
    } else {
      lines, swath := [Dot(Point(0.0, 0.0))], 1.0;
    }
    ScoreSeesGround(boundary, [Track(id, lines, swath)], resolution);
    ScoreSeesGround(other, [Track(id, lines, swath)], resolution);
  }

  // ---- the same region drawn differently ----

  /** Two rings over the same vertices that enclose the same points and as much area. */
  ghost predicate SameRegion(ring: Ring, other: Ring) {
    && (forall p :: p in ring <==> p in other)
    && (forall p :: Inside(ring, p) == Inside(other, p))
    && Abs(SignedArea(ring)) == Abs(SignedArea(other))
  }

  ghost predicate SameRegions(boundary: Polygon, other: Polygon) {
    |boundary| == |other| && forall k :: 0 <= k < |boundary| ==> SameRegion(boundary[k], other[k])
  }

  lemma RotatedIsSameRegion(ring: Ring, k: nat)
    requires k < |ring|
    ensures SameRegion(ring, ring[k..] + ring[..k])
  {
    hide Inside, SignedArea, Abs;
    forall p: Point
      ensures Inside(ring, p) == Inside(ring[k..] + ring[..k], p)
    {
      RotationInvariant(ring, k, p);
    }
    RotationInvariant(ring, k, ring[0]);
    assert ring == ring[..k] + ring[k..];
  }

  lemma ReversedIsSameRegion(ring: Ring)
    ensures SameRegion(ring, Reversed(ring))
  {
    hide Inside, SignedArea;
    forall p: Point
      ensures Inside(ring, p) == Inside(Reversed(ring), p)
    {
      ReversalFlipsArea(ring, p);
    }
    ReversalFlipsArea(ring, Point(0.0, 0.0));
    ReversedHolds(ring);
  }

  lemma {:induction false} ReversedHolds(ring: Ring)
    ensures forall p :: p in ring <==> p in Reversed(ring)
  {
    if ring != [] {
      var n := |ring| - 1;
      ReversedHolds(ring[..n]);
      ReversedHolds(ring[1..]);
      assert ring == ring[..n] + [ring[n]] && ring == [ring[0]] + ring[1..];
    }
  }

  lemma ClosedIsSameRegion(ring: Ring)
    requires ring != []
    ensures SameRegion(ring, ring + [ring[0]])
  {
    hide Inside, SignedArea, Abs;
    forall p: Point
      ensures Inside(ring, p) == Inside(ring + [ring[0]], p)
    {
      ClosedRingAgrees(ring, p);
    }
    ClosedRingAgrees(ring, ring[0]);
  }

  /** Boundaries of the same regions offer the same ground. */
  lemma SameRegionsSameGround(boundary: Polygon, other: Polygon, resolution: real)
    requires SameRegions(boundary, other)
    ensures GroundOf(other, resolution) == GroundOf(boundary, resolution)
  {
    RegionsSameVertices(boundary, other);
    RegionsSameArea(boundary, other);
    hide Area, VertexBoxes;
    if resolution > 0.0 && Hull(VertexBoxes(boundary)).Some? && HasArea(BoundsOf(boundary)) {
      var g := GridOf(BoundsOf(boundary), resolution);
      forall p: Point
        ensures PolygonContains(boundary, p) == PolygonContains(other, p)
      {
        RegionsContainSame(boundary, other, p);
      }
      assert Sample(boundary, g) == Sample(other, g);
    }
  }

  lemma RegionsContainSame(boundary: Polygon, other: Polygon, p: Point)
    requires SameRegions(boundary, other)
    ensures PolygonContains(boundary, p) == PolygonContains(other, p)
  {
    hide Inside;
    forall k | 0 <= k < |boundary|
      ensures Inside(boundary[k], p) == Inside(other[k], p)
    {
      assert SameRegion(boundary[k], other[k]);
    }
  }

  lemma {:induction false} RegionsSameVertices(boundary: Polygon, other: Polygon)
    requires SameRegions(boundary, other)
    ensures VertexBoxes(boundary) == VertexBoxes(other)
  {
    hide SameRegion;
    if boundary != [] {
      var n := |boundary| - 1;
      RegionsSameVertices(boundary[..n], other[..n]);
      SameRegionSameBoxes(boundary[n], other[n]);
    }
  }

  lemma SameRegionSameBoxes(ring: Ring, other: Ring)
    requires SameRegion(ring, other)
    ensures RingBoxes(ring) == RingBoxes(other)
  {
  }

  lemma RegionsSameArea(boundary: Polygon, other: Polygon)
    requires SameRegions(boundary, other)
    ensures Area(boundary) == Area(other)
  {
    hide SignedArea, Abs;
    if boundary != [] {
      assert SameRegion(boundary[0], other[0]);
      RegionsSameHoles(boundary[1..], other[1..]);
    }
  }

  lemma {:induction false} RegionsSameHoles(holes: seq<Ring>, other: seq<Ring>)
    requires SameRegions(holes, other)
    ensures HoleArea(holes) == HoleArea(other)
  {
    hide SignedArea, Abs;
    if holes != [] {
      var n := |holes| - 1;
      RegionsSameHoles(holes[..n], other[..n]);
      assert SameRegion(holes[n], other[n]);
    }
  }

  /** One way to write a ring down differently. */
  datatype Redrawing = Rotated(k: nat) | Backwards | ClosedUp | OpenedUp

  function RedrawnOnce(ring: Ring, how: Redrawing): Ring {
    match how
    case Rotated(k) => if k < |ring| then ring[k..] + ring[..k] else ring
    case Backwards => Reversed(ring)
    case ClosedUp => if ring == [] then ring else ring + [ring[0]]
    case OpenedUp => if |ring| > 1 && ring[|ring| - 1] == ring[0] then ring[..|ring| - 1] else ring
  }

  /** Any number of redrawings, one after the other. */
  function Redraw(ring: Ring, steps: seq<Redrawing>): Ring {
    if steps == [] then ring
    else RedrawnOnce(Redraw(ring, steps[..|steps| - 1]), steps[|steps| - 1])
  }

  lemma RedrawnOnceIsSameRegion(ring: Ring, how: Redrawing)
    ensures SameRegion(ring, RedrawnOnce(ring, how))
  {
    hide SameRegion, Reversed;
    SameRegionReflexive(ring);
    match how
    case Rotated(k) =>
      if k < |ring| {
        RotatedIsSameRegion(ring, k);
      }
    case Backwards => ReversedIsSameRegion(ring);
    case ClosedUp =>
      if ring != [] {
        ClosedIsSameRegion(ring);
      }
    case OpenedUp =>
      if |ring| > 1 && ring[|ring| - 1] == ring[0] {
        var n := |ring| - 1;
        ClosedIsSameRegion(ring[..n]);
        assert ring == ring[..n] + [ring[..n][0]];
        SameRegionSymmetric(ring[..n], ring);
      }
  }

  lemma SameRegionReflexive(ring: Ring)
    ensures SameRegion(ring, ring)
  {
  }

  lemma SameRegionSymmetric(ring: Ring, other: Ring)
    requires SameRegion(ring, other)
    ensures SameRegion(other, ring)
  {
  }

  lemma SameRegionTransitive(a: Ring, b: Ring, c: Ring)
    requires SameRegion(a, b) && SameRegion(b, c)
    ensures SameRegion(a, c)
  {
  }

  /** A redrawn ring is the same region, whatever was done to it. */
  lemma {:induction false} RedrawnIsSameRegion(ring: Ring, steps: seq<Redrawing>)
    ensures SameRegion(ring, Redraw(ring, steps))
  {
    hide SameRegion, RedrawnOnce;
    if steps == [] {
      SameRegionReflexive(ring);
    } else {
      var n := |steps| - 1;
      RedrawnIsSameRegion(ring, steps[..n]);
      RedrawnOnceIsSameRegion(Redraw(ring, steps[..n]), steps[n]);
      SameRegionTransitive(ring, Redraw(ring, steps[..n]), Redraw(ring, steps));
    }
  }

  /** Every ring of the other boundary is a redrawing of the ring at its place. */
  ghost predicate Redrawn(boundary: Polygon, other: Polygon) {
    |boundary| == |other| && forall k :: 0 <= k < |boundary| ==> IsRedrawing(boundary[k], other[k])
  }

  ghost predicate IsRedrawing(ring: Ring, other: Ring) {
    exists steps :: other == Redraw(ring, steps)
  }

  /** A boundary whose rings were rotated, reversed, closed or opened, in any order and any
      number of times, offers the same ground. */
  lemma RedrawnSameGround(boundary: Polygon, other: Polygon, resolution: real)
    requires Redrawn(boundary, other)
    ensures GroundOf(other, resolution) == GroundOf(boundary, resolution)
  {
    hide GroundOf, SameRegion;
    forall k | 0 <= k < |boundary|
      ensures SameRegion(boundary[k], other[k])
    {
      assert IsRedrawing(boundary[k], other[k]);
      var steps :| other[k] == Redraw(boundary[k], steps);
      RedrawnIsSameRegion(boundary[k], steps);
    }
    SameRegionsSameGround(boundary, other, resolution);
  }
}
