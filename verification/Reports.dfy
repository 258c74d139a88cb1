/** What a score reports and when it is refused, in terms of the boundary's vertices and the
    reported box. */
module Reports {
  import opened Wrappers
  import opened Plane
  import opened Rings
  import opened Triangles
  import opened Tracks
  import opened Boxes
  import opened Rasters
  import opened Coverage
  import opened Scores
  import opened Resurvey

  // ---- what is reported ----

  /** Without a gap ring and line are the middle of the bounding box. */
  lemma NoGapReport(boundary: Polygon, tracks: seq<Track>, resolution: real)
    requires Score(boundary, tracks, resolution).Ok? && Score(boundary, tracks, resolution).value.gap == 0.0
    ensures var res, b := Score(boundary, tracks, resolution).value, BoundsOf(boundary);
            && |res.gapRing| == 4 && |res.recommended| == 2
            && (forall k :: 0 <= k < 4 ==> InTheMiddle(res.gapRing[k], b))
            && (forall k :: 0 <= k < 2 ==> InTheMiddle(res.recommended[k], b))
  {
    ScoreIsSummary(boundary, tracks, resolution);
  }

  predicate InTheMiddle(p: Point, b: Box) {
    p.x - b.minX == b.maxX - p.x && p.y - b.minY == b.maxY - p.y
  }

  /** With a gap the recommended line runs along the longer side of the reported box, along x
      if it is square, halfway across the other side, from one resolution before the box to
      one resolution behind it. */
  lemma RecommendedLine(boundary: Polygon, tracks: seq<Track>, resolution: real)
    requires Score(boundary, tracks, resolution).Ok? && Score(boundary, tracks, resolution).value.gap > 0.0
    ensures var res := Score(boundary, tracks, resolution).value;
            && |res.gapRing| == 5 && |res.recommended| == 2
            && var low, high, from, to := res.gapRing[0], res.gapRing[2], res.recommended[0], res.recommended[1];
               if high.x - low.x >= high.y - low.y then
                 && from.x == low.x - resolution && to.x == high.x + resolution
                 && from.y == to.y && from.y - low.y == high.y - from.y
               else
                 && from.y == low.y - resolution && to.y == high.y + resolution
                 && from.x == to.x && from.x - low.x == high.x - from.x
  {
    hide Score, Scored, Raster.GapHull, Raster.AllGap;
    ReportedRecommendation(boundary, tracks, resolution);
  }

  // ---- how many cells there are ----

  /** As many columns and rows as it takes to cover the box, and no more. */
  lemma CellsCounted(b: Box, resolution: real)
    requires resolution > 0.0 && HasArea(b)
    ensures var g := GridOf(b, resolution);
            && (g.columns - 1) as real * resolution < b.maxX - b.minX <= g.columns as real * resolution
            && (g.rows - 1) as real * resolution < b.maxY - b.minY <= g.rows as real * resolution
  {
    PositiveQuotient(b.maxX - b.minX, resolution);
    PositiveQuotient(b.maxY - b.minY, resolution);
    CeilOfQuotient(b.maxX - b.minX, resolution);
    CeilOfQuotient(b.maxY - b.minY, resolution);
  }

  lemma CeilOfQuotient(d: real, r: real)
    requires r > 0.0 && d > 0.0
    ensures (Ceil(d / r) - 1) as real * r < d <= Ceil(d / r) as real * r
  {
    var q := d / r;
    Divided(d, r);
    var n := Ceil(q);
    TimesBetweenStrictly(n, q, r, d);
  }

  lemma TimesBetweenStrictly(n: int, q: real, r: real, d: real)
    requires r > 0.0 && (n - 1) as real < q <= n as real && d == q * r
    ensures (n - 1) as real * r < d <= n as real * r
  {
    OrderedProducts((n - 1) as real, q, r);
    OrderedProducts(q, n as real, r);
  }

  lemma OrderedProducts(a: real, b: real, r: real)
    requires r > 0.0 && a <= b
    ensures a * r <= b * r && (a < b ==> a * r < b * r)
  {
    assert (b - a) * r == b * r - a * r;
    NonNegativeProduct(b - a, r);
    if a < b {
      PositiveProduct(b - a, r);
    }
  }

  // ---- when there is no score ----

  ghost predicate IsVertex(boundary: Polygon, v: Point) {
    exists k :: 0 <= k < |boundary| && v in boundary[k]
  }

  /** All vertices, if there are any, lie on one upright or one level line. */
  ghost predicate Flat(boundary: Polygon) {
    || (forall v, w :: IsVertex(boundary, v) && IsVertex(boundary, w) ==> v.x == w.x)
    || (forall v, w :: IsVertex(boundary, v) && IsVertex(boundary, w) ==> v.y == w.y)
  }

  lemma {:induction false} VertexBoxesAre(boundary: Polygon, v: Point)
    ensures PointBox(v) in VertexBoxes(boundary) <==> IsVertex(boundary, v)
  {
    if boundary != [] {
      var n := |boundary| - 1;
      VertexBoxesAre(boundary[..n], v);
      if k :| 0 <= k < |boundary| && v in boundary[k] {
        if k < n {
          assert v in boundary[..n][k];
        }
      }
    }
  }

  lemma {:induction false} BoxesOfVertices(boundary: Polygon, q: Box)
    requires q in VertexBoxes(boundary)
    ensures q == PointBox(Point(q.minX, q.minY)) && IsVertex(boundary, Point(q.minX, q.minY))
  {
    var n := |boundary| - 1;
    if q in VertexBoxes(boundary[..n]) {
      BoxesOfVertices(boundary[..n], q);
      VertexBoxesAre(boundary[..n], Point(q.minX, q.minY));
    } else {
      assert q in RingBoxes(boundary[n]);
    }
    VertexBoxesAre(boundary, Point(q.minX, q.minY));
  }

  /** The bounding box has an area exactly when the vertices are not on one such line. */
  lemma BoxHasArea(boundary: Polygon)
    ensures Hull(VertexBoxes(boundary)).Some? && HasArea(BoundsOf(boundary)) <==> !Flat(boundary)
  {
    var boxes := VertexBoxes(boundary);
    hide VertexBoxes, IsVertex;
    forall v: Point | IsVertex(boundary, v)
      ensures PointBox(v) in boxes
    {
      VertexBoxesAre(boundary, v);
    }
    if Hull(boxes).Some? {
      var b := Hull(boxes).value;
      var west :| west in boxes && west.minX == b.minX;
      var east :| east in boxes && east.maxX == b.maxX;
      var south :| south in boxes && south.minY == b.minY;
      var north :| north in boxes && north.maxY == b.maxY;
      BoxesOfVertices(boundary, west);
      BoxesOfVertices(boundary, east);
      BoxesOfVertices(boundary, south);
      BoxesOfVertices(boundary, north);
      if HasArea(b) {
        assert Point(west.minX, west.minY).x != Point(east.minX, east.minY).x;
        assert Point(south.minX, south.minY).y != Point(north.minX, north.minY).y;
      } else {
        AllWithin(boundary, b);
      }
    }
  }

  lemma AllWithin(boundary: Polygon, b: Box)
    requires Hull(VertexBoxes(boundary)) == Some(b)
    ensures forall v :: IsVertex(boundary, v) ==> b.minX <= v.x <= b.maxX && b.minY <= v.y <= b.maxY
  {
    hide IsVertex, VertexBoxes;
    forall v: Point | IsVertex(boundary, v)
      ensures b.minX <= v.x <= b.maxX && b.minY <= v.y <= b.maxY
    {
      VertexBoxesAre(boundary, v);
      assert Contains(b, PointBox(v));
    }
  }

  /** The refusals, each exactly when the earlier ones do not apply: a resolution that is not
      positive, no tracks, a flat boundary, more than 60000 cells, no centre inside. */
  lemma Refusals(boundary: Polygon, tracks: seq<Track>, resolution: real)
    ensures var score := Score(boundary, tracks, resolution);
            && (score == Err(ResolutionNotPositive) <==> resolution <= 0.0)
            && (score == Err(TracksRequired) <==> resolution > 0.0 && tracks == [])
            && (score == Err(BoundaryHasNoArea) <==> resolution > 0.0 && tracks != [] && Flat(boundary))
    ensures resolution > 0.0 && tracks != [] && !Flat(boundary) ==>
              && Hull(VertexBoxes(boundary)).Some? && HasArea(BoundsOf(boundary))
              && var score, g := Score(boundary, tracks, resolution), GridOf(BoundsOf(boundary), resolution);
                 && (score == Err(TooManyCells) <==> g.columns * g.rows > 60000)
                 && (score == Err(NoCellsInside) <==>
                       && g.columns * g.rows <= 60000
                       && forall c :: c in Cells(g) ==> !PolygonContains(boundary, Centre(g, c)))
  {
    BoxHasArea(boundary);
    hide Flat, VertexBoxes, Hull, PolygonContains, Centre, Summary, GridOf;
    if resolution > 0.0 && tracks != [] && !Flat(boundary) {
      var g := GridOf(BoundsOf(boundary), resolution);
      var s := RasterOf(boundary, tracks, g);
      NothingInside(boundary, tracks, g);
    }
  }

  lemma NothingInside(boundary: Polygon, tracks: seq<Track>, g: Grid)
    ensures RasterOf(boundary, tracks, g).AllInside() == {}
            <==> forall c :: c in Cells(g) ==> !PolygonContains(boundary, Centre(g, c))
  {
    hide PolygonContains, Centre, Cells;
    var s := RasterOf(boundary, tracks, g);
    if s.AllInside() == {} {
      forall c | c in Cells(g)
        ensures !PolygonContains(boundary, Centre(g, c))
      {
        assert c !in s.AllInside();
      }
    }
  }

  // ---- a boundary with an area is never refused as flat ----

  lemma {:induction false} FlatFan(ring: Ring)
    requires || (forall v, w :: v in ring && w in ring ==> v.x == w.x)
             || (forall v, w :: v in ring && w in ring ==> v.y == w.y)
    ensures FanArea(ring) == 0.0
  {
    if |ring| >= 3 {
      var n := |ring| - 1;
      FlatFan(ring[..n]);
      FlatTurn(ring[n - 1], ring[n], ring[0]);
    }
  }

  lemma FlatTurn(a: Point, b: Point, c: Point)
    requires a.x == b.x == c.x || a.y == b.y == c.y
    ensures Turn(a, b, c) == 0.0
  {
  }

  lemma {:induction false} HolesHaveArea(holes: seq<Ring>)
    ensures HoleArea(holes) >= 0.0
  {
    hide SignedArea;
    if holes != [] {
      HolesHaveArea(holes[..|holes| - 1]);
    }
  }

  /** A boundary with a positive area is not flat, so that its bounding box has an area too. */
  lemma AreaNeedsWidth(boundary: Polygon)
    requires Area(boundary) > 0.0
    ensures !Flat(boundary)
  {
    hide SignedArea, IsVertex;
    var ring := boundary[0];
    HolesHaveArea(boundary[1..]);
    AreaIsFanArea(ring);
    forall v | v in ring
      ensures IsVertex(boundary, v)
    {
      FirstRingVertex(boundary, v);
    }
    if Flat(boundary) {
      FlatFan(ring);
    }
  }

  lemma FirstRingVertex(boundary: Polygon, v: Point)
    requires boundary != [] && v in boundary[0]
    ensures IsVertex(boundary, v)
  {
  }
}
