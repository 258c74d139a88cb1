/** The coverage engine: a boundary polygon is rasterised, every cell centre inside it
    is tested against the tracks, and the uncovered cells are boxed. */
module Coverage {
  import opened Wrappers
  import opened Plane
  import opened Rings
  import opened Tracks
  import opened Boxes
  import opened Rasters

  type Polygon = seq<Ring>

  datatype GeometryError =
    | ResolutionNotPositive
    | TracksRequired
    | BoundaryHasNoArea
    | TooManyCells
    | NoCellsInside

  datatype CoverageResult = CoverageResult(
    area: real,
    coverage: real,
    overlap: real,
    gap: real,
    gapRing: Ring,
    recommended: Line,
    fragments: nat,
    sampleCells: nat)

  // ---- polygons ----

  predicate PolygonContains(polygon: Polygon, p: Point) {
    && polygon != []
    && Inside(polygon[0], p)
    && forall k :: 1 <= k < |polygon| ==> !Inside(polygon[k], p)
  }

  /** `polygonContains`: in the exterior ring and in no hole. */
  method PointInPolygon(polygon: Polygon, p: Point) returns (inside: bool)
    requires polygon != []
    ensures inside == PolygonContains(polygon, p)
  {
    inside := RingContains(polygon[0], p);
    if !inside {
      return;
    }
    for k := 1 to |polygon|
      invariant forall j :: 1 <= j < k ==> !Inside(polygon[j], p)
    {
      var hole := RingContains(polygon[k], p);
      if hole {
        return false;
      }
    }
  }

  function Abs(a: real): real { if a < 0.0 then -a else a }

  function HoleArea(holes: seq<Ring>): real {
    if holes == [] then 0.0
    else HoleArea(holes[..|holes| - 1]) + Abs(SignedArea(holes[|holes| - 1]))
  }

  /** Exterior area less the holes' areas, never negative. */
  function Area(polygon: Polygon): real {
    if polygon == [] then 0.0
    else Max(Abs(SignedArea(polygon[0])) - HoleArea(polygon[1..]), 0.0)
  }

  /** `PolygonArea`. */
  method PolygonArea(polygon: Polygon) returns (area: real)
    ensures area == Area(polygon)
  {
    if polygon == [] {
      return 0.0;
    }
    var exterior := RingArea(polygon[0]);
    area := Abs(exterior);
    var holes := polygon[1..];
    for k := 0 to |holes|
      invariant area == Abs(SignedArea(polygon[0])) - HoleArea(holes[..k])
    {
      var hole := RingArea(holes[k]);
      assert holes[..k + 1][..k] == holes[..k];
      area := area - Abs(hole);
    }
    assert holes[..|holes|] == holes;
    area := Max(area, 0.0);
  }

  function PointBox(p: Point): Box {
    Box(p.x, p.y, p.x, p.y)
  }

  ghost function RingBoxes(ring: Ring): set<Box> {
    set p | p in ring :: PointBox(p)
  }

  ghost function VertexBoxes(polygon: Polygon): set<Box> {
    if polygon == [] then {}
    else VertexBoxes(polygon[..|polygon| - 1]) + RingBoxes(polygon[|polygon| - 1])
  }

  /** `polygonBounds`, over the vertices of every ring, holes included. */
  method PolygonBounds(polygon: Polygon) returns (bounds: Option<Box>)
    ensures bounds == Hull(VertexBoxes(polygon))
  {
    bounds := None;
    for k := 0 to |polygon|
      invariant IsHull(bounds, VertexBoxes(polygon[..k]))
    {
      var ring := polygon[k];
      ghost var before := VertexBoxes(polygon[..k]);
      for j := 0 to |ring|
        invariant IsHull(bounds, before + RingBoxes(ring[..j]))
      {
        NextVertex(before, ring, j);
        GrowKeepsHull(bounds, before + RingBoxes(ring[..j]), PointBox(ring[j]));
        bounds := Grow(bounds, PointBox(ring[j]));
      }
      assert ring[..|ring|] == ring;
      assert polygon[..k + 1][..k] == polygon[..k];
    }
    assert polygon[..|polygon|] == polygon;
    HullIsUnique(bounds, VertexBoxes(polygon));
  }

  lemma NextVertex(before: set<Box>, ring: Ring, j: nat)
    requires j < |ring|
    ensures before + RingBoxes(ring[..j + 1]) == before + RingBoxes(ring[..j]) + {PointBox(ring[j])}
  {
    assert ring[..j + 1] == ring[..j] + [ring[j]];
  }

  // ---- artifacts ----

  datatype Artifacts = Artifacts(gapRing: Ring, recommended: Line, fragments: nat)

  /** `gapArtifacts`, as geometry. */
  function GapArtifacts(bounds: Box, hull: Option<Box>, resolution: real, ratio: real): Artifacts {
    if ratio <= 0.0 || hull.None? then
      var center := Point((bounds.minX + bounds.maxX) / 2.0, (bounds.minY + bounds.maxY) / 2.0);
      Artifacts([center, center, center, center], [center, center], 0)
    else
      var Box(minX, minY, maxX, maxY) := hull.value;
      var ring := [Point(minX, minY), Point(maxX, minY), Point(maxX, maxY), Point(minX, maxY), Point(minX, minY)];
      var centerX, centerY := (minX + maxX) / 2.0, (minY + maxY) / 2.0;
      var line :=
        if maxX - minX >= maxY - minY then
          [Point(minX - resolution, centerY), Point(maxX + resolution, centerY)]
        else
          [Point(centerX, minY - resolution), Point(centerX, maxY + resolution)];
      Artifacts(ring, line, if (maxX - minX) * (maxY - minY) < resolution * resolution * 4.0 then 1 else 0)
  }

  // ---- the score ----

  const MAX_CELLS := 60000

  /** The raster of one call of `CalculateCoverage`. */
  ghost function RasterOf(boundary: Polygon, tracks: seq<Track>, grid: Grid): Raster {
    Raster(grid, c => PolygonContains(boundary, Centre(grid, c)), c => Passes(tracks, Centre(grid, c)))
  }

  ghost function Summary(area: real, s: Raster, bounds: Box): CoverageResult
    requires s.AllInside() != {}
  {
    Report(area, |s.AllInside()|, |s.AllSwept(1)|, |s.AllSwept(2)|, bounds, s.GapHull(), s.grid.resolution)
  }

  /** The ratios and artifacts of finished counts. */
  function Report(area: real, inside: nat, covered: nat, overlap: nat, bounds: Box, hull: Option<Box>, resolution: real)
    : CoverageResult
    requires inside > 0
  {
    var coverageRatio := covered as real / inside as real;
    var overlapRatio := overlap as real / inside as real;
    var gapRatio := 1.0 - coverageRatio;
    var artifacts := GapArtifacts(bounds, hull, resolution, gapRatio);
    CoverageResult(area, coverageRatio, overlapRatio, gapRatio,
                   artifacts.gapRing, artifacts.recommended, artifacts.fragments, inside)
  }

  predicate HasArea(bounds: Box) {
    bounds.maxX - bounds.minX > 0.0 && bounds.maxY - bounds.minY > 0.0
  }

  /** What `CalculateCoverage` returns: cell sets are counted, the uncovered ones boxed. */
  ghost function Score(boundary: Polygon, tracks: seq<Track>, resolution: real)
    : Result<CoverageResult, GeometryError>
  {
    if resolution <= 0.0 then Err(ResolutionNotPositive)
    else if tracks == [] then Err(TracksRequired)
    else
      match Hull(VertexBoxes(boundary))
      case None => Err(BoundaryHasNoArea)
      case Some(bounds) =>
        if !HasArea(bounds) then Err(BoundaryHasNoArea)
        else
          var grid := GridOf(bounds, resolution);
          var s := RasterOf(boundary, tracks, grid);
          if grid.columns * grid.rows > MAX_CELLS then Err(TooManyCells)
          else if s.AllInside() == {} then Err(NoCellsInside)
          else Ok(Summary(Area(boundary), s, bounds))
  }

  /** `CalculateCoverage`. */
  method CalculateCoverage(boundary: Polygon, tracks: seq<Track>, resolution: real)
    returns (result: Result<CoverageResult, GeometryError>)
    ensures result == Score(boundary, tracks, resolution)
  {
    if resolution <= 0.0 {
      return Err(ResolutionNotPositive);
    }
    if |tracks| == 0 {
      return Err(TracksRequired);
    }
    var found := PolygonBounds(boundary);
    if found.None? || !HasArea(found.value) {
      return Err(BoundaryHasNoArea);
    }
    var bounds := found.value;
    var grid := GridOf(bounds, resolution);
    if grid.columns * grid.rows > MAX_CELLS {
      return Err(TooManyCells);
    }
    var inside, covered, overlap, hull := CountCells(boundary, tracks, grid);
    if inside == 0 {
      return Err(NoCellsInside);
    }
    var area := PolygonArea(boundary);
    result := Ok(Report(area, inside, covered, overlap, bounds, hull, resolution));
  }

  /** The double loop of `CalculateCoverage` over rows and columns. */
  method CountCells(boundary: Polygon, tracks: seq<Track>, grid: Grid)
    returns (inside: nat, covered: nat, overlap: nat, hull: Option<Box>)
    requires boundary != []
    ensures var s := RasterOf(boundary, tracks, grid);
            && inside == |s.AllInside()| && covered == |s.AllSwept(1)| && overlap == |s.AllSwept(2)|
            && hull == s.GapHull()
  {
    ghost var s := RasterOf(boundary, tracks, grid);
    inside, covered, overlap, hull := 0, 0, 0, None;
    AllSeen(grid);
    s.TallyStart();
    for row := 0 to grid.rows
      invariant s.Tally(Seen(grid, row, 0), inside, covered, overlap, hull)
    {
      for column := 0 to grid.columns
        invariant s.Tally(Seen(grid, row, column), inside, covered, overlap, hull)
      {
        var c := Cell(row, column);
        ghost var cells := Seen(grid, row, column);
        NextSeen(grid, row, column);
        var point := Centre(grid, c);
        var contained := PointInPolygon(boundary, point);
        if !contained {
          s.TallySkips(cells, c, inside, covered, overlap, hull);
          continue;
        }
        var passes := CoveragePasses(point, tracks);
        s.TallyCounts(cells, c, inside, covered, overlap, hull);
        inside := inside + 1;
        if passes > 0 {
          covered := covered + 1;
        }
        if passes > 1 {
          overlap := overlap + 1;
        }
        if passes == 0 {
          CellIsSquare(grid, c);
          hull := Grow(hull, SquareAround(point, grid.resolution));
        }
      }
      NextRow(grid, row);
    }
    HullIsUnique(hull, s.GapBoxesOf(Cells(grid)));
  }
}
