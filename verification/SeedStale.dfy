/** A concrete stale hit, on a run from the seeded planner. */
module SeedStale {
  import opened Wrappers
  import opened Plane
  import opened Rings
  import opened Triangles
  import opened Tracks
  import opened Boxes
  import opened Rasters
  import opened Coverage
  import opened Holes
  import opened AxisLines
  import opened Records
  import opened Workflow
  import opened Cache
  import opened Walks
  import opened Seed
  import opened Stale

  // ---- a boundary of one cell ----

  /** A square of side two, scored at resolution two, is one cell. */
  function OneCell(x: real, y: real): Polygon {
    [BoxRing(x, y, x + 2.0, y + 2.0)]
  }

  lemma OneCellHull(x: real, y: real)
    ensures Hull(VertexBoxes(OneCell(x, y))) == Some(Box(x, y, x + 2.0, y + 2.0))
  {
    var ring := BoxRing(x, y, x + 2.0, y + 2.0);
    var polygon := OneCell(x, y);
    assert polygon[..0] == [];
    assert VertexBoxes(polygon[..0]) == {};
    var boxes := VertexBoxes(polygon);
    assert boxes == RingBoxes(ring);
    assert ring[0] in ring && ring[2] in ring;
    assert PointBox(ring[0]) in boxes && PointBox(ring[2]) in boxes;
    HullIsUnique(Some(Box(x, y, x + 2.0, y + 2.0)), boxes);
  }

  lemma OneCellGrid(x: real, y: real)
    ensures var g := GridOf(Box(x, y, x + 2.0, y + 2.0), 2.0);
            && g == Grid(x, y, 2.0, 1, 1) && Cells(g) == {Cell(0, 0)}
            && Centre(g, Cell(0, 0)) == Point(x + 1.0, y + 1.0)
  {
  }

  lemma OneCellContainsCentre(x: real, y: real)
    ensures PolygonContains(OneCell(x, y), Point(x + 1.0, y + 1.0))
  {
    hide Inside;
    BoxContains(x, y, x + 2.0, y + 2.0, Point(x + 1.0, y + 1.0));
    OneRing(BoxRing(x, y, x + 2.0, y + 2.0), Point(x + 1.0, y + 1.0));
  }

  /** Its score is all or nothing. */
  lemma OneCellScore(x: real, y: real, tracks: seq<Track>)
    requires tracks != []
    ensures Score(OneCell(x, y), tracks, 2.0).Ok?
    ensures Score(OneCell(x, y), tracks, 2.0).value.gap
         == if Passes(tracks, Point(x + 1.0, y + 1.0)) == 0 then 1.0 else 0.0
  {
    OneCellHull(x, y);
    OneCellGrid(x, y);
    OneCellContainsCentre(x, y);
    hide GridOf, Cells, Centre, Summary, PolygonContains, Passes, OneCell;
    var b := Box(x, y, x + 2.0, y + 2.0);
    OneCellSummary(Coverage.Area(OneCell(x, y)), RasterOf(OneCell(x, y), tracks, GridOf(b, 2.0)), b, Cell(0, 0));
  }

  lemma OneCellSummary(area: real, s: Raster, bounds: Box, c: Cell)
    requires Cells(s.grid) == {c} && s.inside(c)
    ensures s.AllInside() != {}
    ensures Summary(area, s, bounds).gap == if s.passes(c) == 0 then 1.0 else 0.0
  {
    hide GapArtifacts, Hull;
    assert s.AllInside() == {c};
    assert s.AllSwept(1) == if s.passes(c) == 0 then {} else {c};
  }

  lemma OneCellIsValid(x: real, y: real)
    ensures ValidPolygon(OneCell(x, y)) && Coverage.Area(OneCell(x, y)) == 4.0
  {
    hide SignedArea, Inside;
    BoxArea(x, y, 2.0, 2.0);
    OneRing(BoxRing(x, y, x + 2.0, y + 2.0), Point(x, y));
  }

  // ---- the seeded track over two such squares ----

  const SEED_TRACK: Track := TrackOf(1, SEED_FACTS)

  lemma SeedTrackReach(y: real, k: nat)
    requires k < 3
    ensures LineCovers(SEED_TRACK.lines[k], Point(101.0, y), 170.0)
            <==> WithinHalf(y - (100.0 + 200.0 * k as real), 170.0)
  {
    var level := 100.0 + 200.0 * k as real;
    assert SEED_TRACK.lines[k] == [Point(30.0, level), Point(970.0, level)];
    TwoPointLine(Point(30.0, level), Point(970.0, level), Point(101.0, y), 170.0);
    HorizontalReach(Point(101.0, y), 30.0, 970.0, level, 170.0);
  }

  lemma SeedTrackSweeps()
    ensures Passes([SEED_TRACK], Point(101.0, 100.0)) == 1
    ensures Passes([SEED_TRACK], Point(101.0, 200.0)) == 0
  {
    hide LineCovers;
    SeedTrackReach(100.0, 0);
    SeedTrackReach(200.0, 0);
    SeedTrackReach(200.0, 1);
    SeedTrackReach(200.0, 2);
    assert LineCovers(SEED_TRACK.lines[0], Point(101.0, 100.0), 170.0);
    assert [] + [SEED_TRACK] == [SEED_TRACK];
    PassesSnoc([], SEED_TRACK, Point(101.0, 100.0));
    PassesSnoc([], SEED_TRACK, Point(101.0, 200.0));
    assert Sweepers([], Point(101.0, 100.0)) == {} && Sweepers([], Point(101.0, 200.0)) == {};
  }

  // ---- the run ----

  function FieldsWith(boundary: Polygon): AreaFields {
    SEED_FIELDS.(boundary := boundary)
  }

  const REQUEST: DetectRequest := DetectRequest(1, [1], "grid-v1", 2.0, "idempotent-key")

  lemma FieldsAreFine(x: real, y: real)
    ensures AreaGeometryError(FieldsWith(OneCell(x, y))) == None
  {
    SeedCrsIsProjected();
    OneCellIsValid(x, y);
  }

  /** From the seed: shrink the area to a square under the first line, detect, move the
      square out of reach, detect again. The second detection hits and returns gap ratio
      0, where a fresh computation gives 1. */
  lemma CacheCanBeStale() returns (actions: seq<Action>)
    ensures var now := After(Seeded(), actions);
            && Hits(now, 0, 1) && 1 in now.gaps && now.gaps[1].facts.gap == 0.0
            && 0 in now.calls && now.calls[0].DetectLookup?
            && FreshScore(now.calls[0]).Ok? && FreshScore(now.calls[0]).value.gap == 1.0
  {
    var near, far := OneCell(100.0, 99.0), OneCell(100.0, 199.0);
    hide Score, After, Step, AreaGeometryError, ValidPolygon, OneCell, FreshScore, Hits, Passes, OneRunRequested,
         HasKey, KeyOf, Projected;
    SeedTrackSweeps();
    OneCellScore(100.0, 99.0, [SEED_TRACK]);
    OneCellScore(100.0, 199.0, [SEED_TRACK]);
    OneCellIsValid(100.0, 99.0);
    FieldsAreFine(100.0, 99.0);
    FieldsAreFine(100.0, 199.0);
    SeedCrsIsProjected();
    var a1 := AreaEditOnce(Seeded(), 0, 1, FieldsWith(near));
    var s1 := After(Seeded(), a1);
    SeedRunRequested(s1);
    var a2 := DetectEditDetect(s1, 0, REQUEST, 1, 1, FieldsWith(far), "text", Score(near, [SEED_TRACK], 2.0).value);
    AfterConcat(Seeded(), a1, a2);
    actions := a1 + a2;
  }

  lemma SeedRunRequested(s: Sys)
    requires s.runs == Seeded().runs && s.plans == Seeded().plans && s.gaps == map[]
    ensures OneRunRequested(s, REQUEST, 1)
    ensures forall key :: !HasKey(s.gaps, key)
  {
    assert ValidLines(SEED_FACTS.lines);
  }
}
