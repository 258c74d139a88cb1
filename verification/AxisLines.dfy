/** Reach of a line that runs along an axis: only the offset across it counts. */
module AxisLines {
  import opened Plane
  import opened Tracks

  lemma SquareBound(a: real, w: real)
    requires w >= 0.0
    ensures 4.0 * Square(a) <= Square(w) <==> -w <= 2.0 * a <= w
  {
    hide Square;
    SquareOfDouble(a);
    SquareOfOpposite(2.0 * a);
    if 2.0 * a > w {
      SquareGrows(w, 2.0 * a);
    } else if 2.0 * a < -w {
      SquareGrows(w, -(2.0 * a));
    } else if a >= 0.0 {
      SquareMonotone(2.0 * a, w);
    } else {
      SquareMonotone(-(2.0 * a), w);
    }
  }

  lemma SquareOfDouble(a: real)
    ensures Square(2.0 * a) == 4.0 * Square(a)
  {
  }

  // A point at offsets dx and dy is at least |dy| away, and exactly |dy| when dx is zero.
  lemma OffsetDominates(dx: real, dy: real)
    ensures Square(dy) <= Norm2(dx, dy) && Square(dx) <= Norm2(dx, dy)
    ensures dx == 0.0 ==> Norm2(dx, dy) == Square(dy)
    ensures dy == 0.0 ==> Norm2(dx, dy) == Square(dx)
  {
    SquarePositive(dx);
    SquarePositive(dy);
  }

  predicate WithinHalf(offset: real, swath: real) {
    -swath <= 2.0 * offset <= swath
  }

  lemma SolveAt(lo: real, hi: real, x: real) returns (t: real)
    requires lo <= x <= hi
    ensures 0.0 <= t <= 1.0 && lo + t * (hi - lo) == x
  {
    if lo == hi {
      t := 0.0;
    } else {
      t := (x - lo) / (hi - lo);
      Quotient(x - lo, hi - lo);
    }
  }

  lemma LevelAt(a: Point, b: Point, t: real)
    ensures a.y == b.y ==> At(a, b, t).y == a.y
    ensures a.x == b.x ==> At(a, b, t).x == a.x
  {
  }

  // Reach bounds both offsets, and one offset alone when the other is zero.
  lemma ReachByOffsets(p: Point, q: Point, swath: real)
    ensures InReach(p, q, swath) ==> WithinHalf(p.x - q.x, swath) && WithinHalf(p.y - q.y, swath)
    ensures p.x == q.x && WithinHalf(p.y - q.y, swath) ==> InReach(p, q, swath)
    ensures p.y == q.y && WithinHalf(p.x - q.x, swath) ==> InReach(p, q, swath)
  {
    hide Square, Norm2;
    OffsetDominates(p.x - q.x, p.y - q.y);
    if swath >= 0.0 {
      SquareBound(p.x - q.x, swath);
      SquareBound(p.y - q.y, swath);
    }
  }

  /** A point beside a horizontal segment is in reach exactly when its height differs
      by at most half the swath. */
  lemma HorizontalReach(p: Point, x0: real, x1: real, y: real, swath: real)
    requires x0 <= p.x <= x1
    ensures SegmentInReach(p, Point(x0, y), Point(x1, y), swath) <==> WithinHalf(p.y - y, swath)
  {
    hide InReach, WithinHalf, SegmentInReach;
    var a, b := Point(x0, y), Point(x1, y);
    SegmentReachIsPointwise(p, a, b, swath);
    if SomePointInReach(p, a, b, swath) {
      var t: real :| 0.0 <= t <= 1.0 && InReach(p, At(a, b, t), swath);
      LevelAt(a, b, t);
      ReachByOffsets(p, At(a, b, t), swath);
    }
    if WithinHalf(p.y - y, swath) {
      var t := SolveAt(x0, x1, p.x);
      LevelAt(a, b, t);
      ReachByOffsets(p, At(a, b, t), swath);
    }
  }

  /** The same for a vertical segment. */
  lemma VerticalReach(p: Point, x: real, y0: real, y1: real, swath: real)
    requires y0 <= p.y <= y1
    ensures SegmentInReach(p, Point(x, y0), Point(x, y1), swath) <==> WithinHalf(p.x - x, swath)
  {
    hide InReach, WithinHalf, SegmentInReach;
    var a, b := Point(x, y0), Point(x, y1);
    SegmentReachIsPointwise(p, a, b, swath);
    if SomePointInReach(p, a, b, swath) {
      var t: real :| 0.0 <= t <= 1.0 && InReach(p, At(a, b, t), swath);
      LevelAt(a, b, t);
      ReachByOffsets(p, At(a, b, t), swath);
    }
    if WithinHalf(p.x - x, swath) {
      var t := SolveAt(y0, y1, p.y);
      LevelAt(a, b, t);
      ReachByOffsets(p, At(a, b, t), swath);
    }
  }

  /** A line of two points has one segment. */
  lemma TwoPointLine(a: Point, b: Point, p: Point, swath: real)
    ensures LineCovers([a, b], p, swath) <==> SegmentInReach(p, a, b, swath)
  {
    var line := [a, b];
    assert line[0] == a && line[1] == b;
    if SegmentInReach(p, a, b, swath) {
      assert EdgeCovers(line, 1, p, swath);
    }
  }
}
