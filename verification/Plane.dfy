/** Points, segments and polylines of the projected plane, with squared distances.

    `math.Hypot(..) <= SwathM/2` is stated without the square root: a distance is
    within half a swath exactly when the swath is non-negative and four times the
    squared distance is at most the squared swath. */
module Plane {
  datatype Point = Point(x: real, y: real)

  type Line = seq<Point>

  function Square(a: real): real {
    a * a
  }

  function Norm2(dx: real, dy: real): real {
    Square(dx) + Square(dy)
  }

  function Dot(ux: real, uy: real, vx: real, vy: real): real {
    ux * vx + uy * vy
  }

  function Dist2(a: Point, b: Point): real {
    Norm2(a.x - b.x, a.y - b.y)
  }

  predicate InReach(p: Point, q: Point, swath: real) {
    swath >= 0.0 && 4.0 * Dist2(p, q) <= Square(swath)
  }

  /** The point at parameter `t` of the segment from `a` to `b`. */
  function At(a: Point, b: Point, t: real): Point {
    Point(a.x + t * (b.x - a.x), a.y + t * (b.y - a.y))
  }

  /** The clamped parameter of `pointSegmentDistance`. */
  function Clamp(t: real): real {
    if t < 0.0 then 0.0 else if t > 1.0 then 1.0 else t
  }

  function Along(p: Point, a: Point, b: Point): real {
    Dot(p.x - a.x, p.y - a.y, b.x - a.x, b.y - a.y)
  }

  /** The point of the segment whose distance `pointSegmentDistance` reports. */
  function Projection(p: Point, a: Point, b: Point): Point {
    if a == b then a
    else
      DistinctPointsApart(a, b);
      At(a, b, Clamp(Along(p, a, b) / Dist2(b, a)))
  }

  /** `pointSegmentDistance(p, a, b) <= swath/2`. */
  predicate SegmentInReach(p: Point, a: Point, b: Point, swath: real) {
    InReach(p, Projection(p, a, b), swath)
  }

  /** Some point of the segment, at whatever parameter, is within half a swath. */
  ghost predicate SomePointInReach(p: Point, a: Point, b: Point, swath: real) {
    exists t: real :: 0.0 <= t <= 1.0 && InReach(p, At(a, b, t), swath)
  }

  lemma DistinctPointsApart(a: Point, b: Point)
    requires a != b
    ensures Dist2(b, a) > 0.0
  {
    SumOfSquaresPositive(b.x - a.x, b.y - a.y);
  }

  lemma SumOfSquaresPositive(dx: real, dy: real)
    requires dx != 0.0 || dy != 0.0
    ensures Norm2(dx, dy) > 0.0
  {
    SquarePositive(dx);
    SquarePositive(dy);
  }

  lemma SquarePositive(a: real)
    ensures Square(a) >= 0.0
    ensures a != 0.0 ==> Square(a) > 0.0
    decreases a < 0.0
  {
    if a > 0.0 {
      PositiveSquare(a, a);
    } else if a < 0.0 {
      SquarePositive(-a);
      SquareOfOpposite(a);
    }
  }

  // Dist2 along a segment is a quadratic in the parameter.
  lemma Dist2Along(p: Point, a: Point, b: Point, t: real)
    ensures Dist2(p, At(a, b, t)) == Dist2(p, a) - 2.0 * t * Along(p, a, b) + t * t * Dist2(b, a)
  {
    hide Norm2, Dot;
    Norm2Along(p.x - At(a, b, t).x, p.y - At(a, b, t).y, p.x - a.x, p.y - a.y, b.x - a.x, b.y - a.y, t,
               Along(p, a, b), Dist2(b, a));
  }

  lemma Norm2Along(x: real, y: real, ux: real, uy: real, dx: real, dy: real, t: real, m: real, L: real)
    requires x == ux - t * dx && y == uy - t * dy
    requires m == Dot(ux, uy, dx, dy) && L == Norm2(dx, dy)
    ensures Norm2(x, y) == Norm2(ux, uy) - 2.0 * t * m + t * t * L
  {
    SquareOfDifference(ux, dx, t);
    SquareOfDifference(uy, dy, t);
  }

  lemma SquareOfDifference(u: real, d: real, t: real)
    ensures Square(u - t * d) == Square(u) - 2.0 * t * (u * d) + t * t * Square(d)
  {
  }

  // Where the clamp puts the minimum of  L t^2 - 2 m t  over the unit interval.
  lemma ClampMinimises(m: real, L: real, t: real)
    requires L > 0.0 && 0.0 <= t <= 1.0
    ensures var u := Clamp(m / L);
            0.0 <= u <= 1.0 && u * u * L - 2.0 * u * m <= t * t * L - 2.0 * t * m
  {
    var q := m / L;
    assert q * L == m;
    var u := Clamp(q);
    assert t * t * L - 2.0 * t * m - (u * u * L - 2.0 * u * m) == L * ((t - u) * (t + u - 2.0 * q)) by {
      assert m == q * L;
    }
    assert (t - u) * (t + u - 2.0 * q) >= 0.0 by {
      if q < 0.0 {
        assert u == 0.0;
        assert t * (t - 2.0 * q) >= 0.0;
      } else if q > 1.0 {
        assert u == 1.0;
        assert (1.0 - t) * (2.0 * q - 1.0 - t) >= 0.0;
      } else {
        assert u == q;
        SquarePositive(t - u);
      }
    }
  }

  /** The clamped projection is a point of the segment and no point of it is nearer. */
  lemma ProjectionIsNearest(p: Point, a: Point, b: Point, t: real)
    requires 0.0 <= t <= 1.0
    ensures Dist2(p, Projection(p, a, b)) <= Dist2(p, At(a, b, t))
    ensures exists u: real :: 0.0 <= u <= 1.0 && Projection(p, a, b) == At(a, b, u)
  {
    hide Dist2, Along, Clamp, At, Projection;
    var u := ProjectionAt(p, a, b);
    if a == b {
      AtSamePoint(a, t);
      AtSamePoint(a, u);
    } else {
      ClampMinimises(Along(p, a, b), Dist2(b, a), t);
      QuadraticOrder(p, a, b, u, t);
    }
  }

  lemma AtSamePoint(a: Point, t: real)
    ensures At(a, a, t) == a
  {
  }

  // Where on the segment the projection lies.
  lemma ProjectionAt(p: Point, a: Point, b: Point) returns (u: real)
    ensures 0.0 <= u <= 1.0 && Projection(p, a, b) == At(a, b, u)
    ensures a != b ==> Dist2(b, a) > 0.0 && u == Clamp(Along(p, a, b) / Dist2(b, a))
  {
    if a == b {
      u := 0.0;
      AtSamePoint(a, u);
    } else {
      DistinctPointsApart(a, b);
      hide Dist2, Along, At;
      u := Clamp(Along(p, a, b) / Dist2(b, a));
    }
  }

  lemma QuadraticOrder(p: Point, a: Point, b: Point, u: real, t: real)
    requires u * u * Dist2(b, a) - 2.0 * u * Along(p, a, b) <= t * t * Dist2(b, a) - 2.0 * t * Along(p, a, b)
    ensures Dist2(p, At(a, b, u)) <= Dist2(p, At(a, b, t))
  {
    Dist2Along(p, a, b, t);
    Dist2Along(p, a, b, u);
  }

  lemma ReachIsMonotone(p: Point, q: Point, q': Point, swath: real)
    requires InReach(p, q, swath) && Dist2(p, q') <= Dist2(p, q)
    ensures InReach(p, q', swath)
  {
  }

  /** A segment is in reach exactly when some point of it is. */
  lemma SegmentReachIsPointwise(p: Point, a: Point, b: Point, swath: real)
    ensures SegmentInReach(p, a, b, swath) <==> SomePointInReach(p, a, b, swath)
  {
    if SegmentInReach(p, a, b, swath) {
      ProjectionIsNearest(p, a, b, 0.0);
    }
    if SomePointInReach(p, a, b, swath) {
      var t: real :| 0.0 <= t <= 1.0 && InReach(p, At(a, b, t), swath);
      ProjectionIsNearest(p, a, b, t);
      ReachIsMonotone(p, At(a, b, t), Projection(p, a, b), swath);
    }
  }

  lemma AtReversed(a: Point, b: Point, t: real)
    ensures At(b, a, 1.0 - t) == At(a, b, t)
  {
  }

  lemma AtNested(a: Point, b: Point, s: real, t: real)
    ensures At(a, At(a, b, s), t) == At(a, b, s * t)
    ensures At(At(a, b, s), b, t) == At(a, b, s + t * (1.0 - s))
  {
    AtNested1(a.x, b.x - a.x, s, t);
    AtNested1(a.y, b.y - a.y, s, t);
  }

  lemma AtNested1(o: real, d: real, s: real, t: real)
    ensures o + t * (o + s * d - o) == o + (s * t) * d
    ensures o + s * d + t * (o + d - (o + s * d)) == o + (s + t * (1.0 - s)) * d
  {
  }

  /** Reach does not depend on which end of a segment comes first. */
  lemma SegmentReachReversed(p: Point, a: Point, b: Point, swath: real)
    ensures SegmentInReach(p, a, b, swath) == SegmentInReach(p, b, a, swath)
  {
    SegmentReachIsPointwise(p, a, b, swath);
    SegmentReachIsPointwise(p, b, a, swath);
    if SomePointInReach(p, a, b, swath) {
      var t: real :| 0.0 <= t <= 1.0 && InReach(p, At(a, b, t), swath);
      AtReversed(a, b, t);
      assert InReach(p, At(b, a, 1.0 - t), swath);
    }
    if SomePointInReach(p, b, a, swath) {
      var t: real :| 0.0 <= t <= 1.0 && InReach(p, At(b, a, t), swath);
      AtReversed(b, a, t);
      assert InReach(p, At(a, b, 1.0 - t), swath);
    }
  }

  // The two halves of a segment reach only what the whole segment reaches.
  lemma HalvesReachNoMore(p: Point, a: Point, b: Point, s: real, swath: real)
    requires 0.0 <= s <= 1.0
    ensures SomePointInReach(p, a, At(a, b, s), swath) ==> SomePointInReach(p, a, b, swath)
    ensures SomePointInReach(p, At(a, b, s), b, swath) ==> SomePointInReach(p, a, b, swath)
  {
    var m := At(a, b, s);
    if SomePointInReach(p, a, m, swath) {
      var t: real :| 0.0 <= t <= 1.0 && InReach(p, At(a, m, t), swath);
      AtNested(a, b, s, t);
      UnitProduct(s, t);
      assert InReach(p, At(a, b, s * t), swath);
    }
    if SomePointInReach(p, m, b, swath) {
      var t: real :| 0.0 <= t <= 1.0 && InReach(p, At(m, b, t), swath);
      AtNested(a, b, s, t);
      BlendInUnit(s, t);
      var u := s + t * (1.0 - s);
      assert InReach(p, At(a, b, u), swath);
    }
  }

  lemma UnitProduct(s: real, t: real)
    requires 0.0 <= s <= 1.0 && 0.0 <= t <= 1.0
    ensures 0.0 <= s * t <= s
  {
  }

  lemma BlendInUnit(s: real, t: real)
    requires 0.0 <= s <= 1.0 && 0.0 <= t <= 1.0
    ensures 0.0 <= s + t * (1.0 - s) <= 1.0
  {
    assert s + t * (1.0 - s) == 1.0 - (1.0 - t) * (1.0 - s);
    UnitProduct(1.0 - t, 1.0 - s);
  }

  // Every parameter of the whole segment is a parameter of one of the halves.
  lemma HalvesReachNoLess(p: Point, a: Point, b: Point, s: real, t: real, swath: real)
    requires 0.0 <= s <= 1.0 && 0.0 <= t <= 1.0 && InReach(p, At(a, b, t), swath)
    ensures SomePointInReach(p, a, At(a, b, s), swath) || SomePointInReach(p, At(a, b, s), b, swath)
  {
    var m := At(a, b, s);
    if t <= s {
      if s == 0.0 {
        assert At(a, m, 0.0) == At(a, b, t);
        assert InReach(p, At(a, m, 0.0), swath);
      } else {
        var u := t / s;
        assert s * u == t && 0.0 <= u <= 1.0 by { Quotient(t, s); }
        AtNested(a, b, s, u);
        assert InReach(p, At(a, m, u), swath);
      }
    } else {
      var u := (t - s) / (1.0 - s);
      assert u * (1.0 - s) == t - s && 0.0 <= u <= 1.0 by { Quotient(t - s, 1.0 - s); }
      AtNested(a, b, s, u);
      assert InReach(p, At(m, b, u), swath);
    }
  }

  lemma Quotient(a: real, b: real)
    requires 0.0 <= a <= b && 0.0 < b
    ensures a / b * b == a && b * (a / b) == a && 0.0 <= a / b <= 1.0
  {
  }

  /** Splitting a segment at any of its points changes nothing. */
  lemma SegmentReachSplit(p: Point, a: Point, b: Point, s: real, swath: real)
    requires 0.0 <= s <= 1.0
    ensures var m := At(a, b, s);
            SegmentInReach(p, a, b, swath) <==> SegmentInReach(p, a, m, swath) || SegmentInReach(p, m, b, swath)
  {
    var m := At(a, b, s);
    SegmentReachIsPointwise(p, a, b, swath);
    SegmentReachIsPointwise(p, a, m, swath);
    SegmentReachIsPointwise(p, m, b, swath);
    HalvesReachNoMore(p, a, b, s, swath);
    if SomePointInReach(p, a, b, swath) {
      var t: real :| 0.0 <= t <= 1.0 && InReach(p, At(a, b, t), swath);
      HalvesReachNoLess(p, a, b, s, t, swath);
    }
  }

  /** Widening a swath never loses a point. */
  lemma WiderReachesMore(p: Point, q: Point, swath: real, wider: real)
    requires InReach(p, q, swath) && swath <= wider
    ensures InReach(p, q, wider)
  {
    SquareMonotone(swath, wider);
  }

  // Two names for one number keep the product visible to the solver.
  lemma PositiveSquare(a: real, b: real)
    requires a > 0.0 && b == a
    ensures Square(a) > 0.0
  {
    calc {
      Square(a);
      a * a;
      a * b;
    >  { PositiveProduct(a, b); }
      0.0;
    }
  }

  lemma SquareOfOpposite(a: real)
    ensures Square(-a) == Square(a)
  {
  }

  // Cauchy-Schwarz, in the form the triangle inequality needs.
  lemma DotBounded(ux: real, uy: real, vx: real, vy: real, R: real, V: real)
    requires R >= 0.0 && V >= 0.0
    requires Norm2(ux, uy) <= Square(R) && Norm2(vx, vy) <= Square(V)
    ensures Dot(ux, uy, vx, vy) <= R * V
  {
    var dot, cross := Dot(ux, uy, vx, vy), ux * vy - uy * vx;
    Lagrange(ux, uy, vx, vy);
    SquarePositive(cross);
    SquarePositive(ux);
    SquarePositive(uy);
    SquarePositive(vx);
    SquarePositive(vy);
    ProductMonotone(Norm2(ux, uy), Square(R), Norm2(vx, vy), Square(V));
    SquareOfProduct(R, V);
    ProductNonNegative(R, V);
    if dot > R * V {
      SquareGrows(R * V, dot);
    }
  }

  lemma Lagrange(ux: real, uy: real, vx: real, vy: real)
    ensures Square(Dot(ux, uy, vx, vy)) + Square(ux * vy - uy * vx) == Norm2(ux, uy) * Norm2(vx, vy)
  {
  }

  lemma ProductMonotone(a: real, a': real, b: real, b': real)
    requires 0.0 <= a <= a' && 0.0 <= b <= b'
    ensures a * b <= a' * b'
  {
    assert a * b <= a' * b;
    assert a' * b <= a' * b';
  }

  lemma ProductNonNegative(a: real, b: real)
    requires a >= 0.0 && b >= 0.0
    ensures a * b >= 0.0
  {
  }

  lemma SquareOfProduct(a: real, b: real)
    ensures Square(a * b) == Square(a) * Square(b)
  {
  }

  lemma SquareGrows(a: real, b: real)
    requires 0.0 <= a < b
    ensures Square(a) < Square(b)
  {
    PositiveProduct(b - a, b + a);
    assert (b - a) * (b + a) == b * b - a * a;
  }

  lemma SquareMonotone(a: real, b: real)
    requires 0.0 <= a <= b
    ensures Square(a) <= Square(b)
  {
    if a < b {
      SquareGrows(a, b);
    }
  }

  lemma PositiveProduct(a: real, b: real)
    requires a > 0.0 && b > 0.0
    ensures a * b > 0.0
  {
  }

  lemma Norm2OfSum(ux: real, uy: real, vx: real, vy: real)
    ensures Norm2(ux + vx, uy + vy) == Norm2(ux, uy) + 2.0 * Dot(ux, uy, vx, vy) + Norm2(vx, vy)
  {
  }

  lemma SquareOfSum(a: real, b: real)
    ensures Square(a + b) == Square(a) + 2.0 * (a * b) + Square(b)
  {
  }

  /** The triangle inequality over squared distances. */
  lemma ReachWidens(p: Point, c: Point, q: Point, swath: real, slack: real)
    requires InReach(c, q, swath)
    requires slack >= 0.0 && Dist2(p, c) <= Square(slack)
    ensures InReach(p, q, swath + 2.0 * slack)
  {
    var V := swath / 2.0;
    var ux, uy, vx, vy := p.x - c.x, p.y - c.y, c.x - q.x, c.y - q.y;
    HalfReach(c, q, swath);
    DotBounded(ux, uy, vx, vy, slack, V);
    Norm2OfSum(ux, uy, vx, vy);
    SquareOfSum(slack, V);
    assert p.x - q.x == ux + vx && p.y - q.y == uy + vy;
    HalfReach(p, q, swath + 2.0 * slack);
    assert (swath + 2.0 * slack) / 2.0 == slack + V;
  }

  /** Reach in the source's own terms: squared distance at most the squared half swath. */
  lemma HalfReach(p: Point, q: Point, swath: real)
    ensures InReach(p, q, swath) <==> swath >= 0.0 && Dist2(p, q) <= Square(swath / 2.0)
  {
    assert Square(swath) == 4.0 * Square(swath / 2.0);
  }
}
