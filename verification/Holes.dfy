/** What the holes of a boundary do: they take points, area and cells away. */
module Holes {
  import opened Plane
  import opened Rings
  import opened Tracks
  import opened Boxes
  import opened Rasters
  import opened Coverage
  import opened Scores

  /** A boundary of one ring is that ring. */
  lemma OneRing(ring: Ring, p: Point)
    ensures PolygonContains([ring], p) <==> Inside(ring, p)
    ensures Area([ring]) == Abs(SignedArea(ring))
  {
    assert [ring][1..] == [];
  }

  /** A hole takes exactly its points away. */
  lemma HoleSubtracts(polygon: Polygon, hole: Ring, p: Point)
    requires polygon != []
    ensures PolygonContains(polygon + [hole], p) <==> PolygonContains(polygon, p) && !Inside(hole, p)
  {
    hide Inside;
    var more := polygon + [hole];
    assert more[|polygon|] == hole;
    assert forall k :: 0 <= k < |polygon| ==> more[k] == polygon[k];
  }

  /** And its area, as far as there is any. */
  lemma HoleLowersArea(polygon: Polygon, hole: Ring)
    requires polygon != []
    ensures Area(polygon + [hole]) == Max(Area(polygon) - Abs(SignedArea(hole)), 0.0)
  {
    hide SignedArea;
    var more := polygon + [hole];
    var holes := more[1..];
    assert more[0] == polygon[0];
    assert holes[..|holes| - 1] == polygon[1..] && holes[|holes| - 1] == hole;
  }

  /** No cell whose centre lies in a hole is counted or reported as uncovered. */
  lemma NoCellInHole(boundary: Polygon, tracks: seq<Track>, resolution: real, k: nat, c: Cell)
    requires Score(boundary, tracks, resolution).Ok? && 1 <= k < |boundary|
    requires Inside(boundary[k], Centre(Scored(boundary, tracks, resolution).grid, c))
    ensures c !in Scored(boundary, tracks, resolution).AllInside()
    ensures c !in Scored(boundary, tracks, resolution).AllGap()
  {
    hide Score, Inside, Centre;
  }

  /** The inside cells whose centre the ring contains. */
  ghost function TakenBy(s: Raster, hole: Ring): set<Cell> {
    set c | c in s.AllInside() && Inside(hole, Centre(s.grid, c))
  }

  lemma HoleTakesFromRaster(boundary: Polygon, hole: Ring, tracks: seq<Track>, g: Grid)
    requires boundary != []
    ensures var s, s' := RasterOf(boundary, tracks, g), RasterOf(boundary + [hole], tracks, g);
            s'.AllInside() == s.AllInside() - TakenBy(s, hole) && s'.AllGap() == s.AllGap() - TakenBy(s, hole)
  {
    hide Inside, Passes, PolygonContains, Centre;
    forall p: Point
      ensures PolygonContains(boundary + [hole], p) <==> PolygonContains(boundary, p) && !Inside(hole, p)
    {
      HoleSubtracts(boundary, hole, p);
    }
  }

  /** Cutting a hole that stays within the bounding box removes exactly the cells whose centre
      it contains, from the count and from the gap. */
  lemma HoleTakesCells(boundary: Polygon, hole: Ring, tracks: seq<Track>, resolution: real)
    requires boundary != [] && Hull(VertexBoxes(boundary + [hole])) == Hull(VertexBoxes(boundary))
    requires Score(boundary, tracks, resolution).Ok?
    ensures var s := Scored(boundary, tracks, resolution);
            Score(boundary + [hole], tracks, resolution).Ok? <==> TakenBy(s, hole) != s.AllInside()
    ensures Score(boundary + [hole], tracks, resolution).Ok? ==>
              var s, s' := Scored(boundary, tracks, resolution), Scored(boundary + [hole], tracks, resolution);
              && s'.grid == s.grid
              && s'.AllInside() == s.AllInside() - TakenBy(s, hole)
              && s'.AllGap() == s.AllGap() - TakenBy(s, hole)
              && Score(boundary + [hole], tracks, resolution).value.sampleCells
                 == Score(boundary, tracks, resolution).value.sampleCells - |TakenBy(s, hole)|
  {
    hide Score, Scored, TakenBy, Raster.AllInside, Raster.AllGap, VertexBoxes, Hull;
    var s := Scored(boundary, tracks, resolution);
    SameBoxSameGrid(boundary, boundary + [hole], tracks, resolution);
    HoleTakesFromRaster(boundary, hole, tracks, s.grid);
    TakenAreInside(s, hole);
    SetMinus(s.AllInside(), TakenBy(s, hole));
    SampleCellsAre(boundary, tracks, resolution);
    if Score(boundary + [hole], tracks, resolution).Ok? {
      SampleCellsAre(boundary + [hole], tracks, resolution);
    }
  }

  lemma TakenAreInside(s: Raster, hole: Ring)
    ensures TakenBy(s, hole) <= s.AllInside()
  {
  }

  // Boundaries with one bounding box are scored over one grid.
  lemma SameBoxSameGrid(boundary: Polygon, other: Polygon, tracks: seq<Track>, resolution: real)
    requires Hull(VertexBoxes(other)) == Hull(VertexBoxes(boundary)) && Score(boundary, tracks, resolution).Ok?
    ensures var s := Scored(boundary, tracks, resolution); var s' := RasterOf(other, tracks, s.grid);
            && s == RasterOf(boundary, tracks, s.grid)
            && (Score(other, tracks, resolution).Ok? <==> s'.AllInside() != {})
            && (Score(other, tracks, resolution).Ok? ==> Scored(other, tracks, resolution) == s')
  {
    hide Raster.AllInside, VertexBoxes, Hull, Summary, Area;
  }

  lemma SampleCellsAre(boundary: Polygon, tracks: seq<Track>, resolution: real)
    requires Score(boundary, tracks, resolution).Ok?
    ensures Score(boundary, tracks, resolution).value.sampleCells == |Scored(boundary, tracks, resolution).AllInside()|
  {
    RatiosInRange(boundary, tracks, resolution);
  }

  lemma SetMinus<T>(all: set<T>, some: set<T>)
    requires some <= all
    ensures |all - some| == |all| - |some|
    ensures all - some == {} <==> some == all
  {
    assert all == (all - some) + some;
  }
}
