/** What even-odd containment and the shoelace sum mean for a triangle, in terms of the
    sides of its edges. Chords cut every ring into triangles (`Rings.ChordSplits`), so
    this fixes containment and area of all rings. */
module Triangles {
  import opened Plane
  import opened Rings

  /** Positive exactly when `p` lies to the left of the line from `a` to `b`. */
  function Turn(a: Point, b: Point, p: Point): real {
    (b.x - a.x) * (p.y - a.y) - (b.y - a.y) * (p.x - a.x)
  }

  /** To the left of the edge; on its line, the points of left and lower edges count. */
  predicate LeftOf(a: Point, b: Point, p: Point) {
    || Turn(a, b, p) > 0.0
    || (Turn(a, b, p) == 0.0 && (b.y < a.y || (b.y == a.y && b.x > a.x)))
  }

  // ---- one edge ----

  lemma MeetByHeight(a: Point, b: Point, y: real)
    requires Straddles(a, b, y)
    ensures (MeetX(a, b, y) - a.x) * (b.y - a.y) == (b.x - a.x) * (y - a.y)
  {
    Divided((b.x - a.x) * (y - a.y), b.y - a.y);
    assert MeetX(a, b, y) - a.x == (b.x - a.x) * (y - a.y) / (b.y - a.y);
  }

  /** The edge passes through the point at which it is said to meet the horizontal. */
  lemma MeetIsOnEdge(a: Point, b: Point, y: real) returns (t: real)
    requires Straddles(a, b, y)
    ensures 0.0 <= t <= 1.0 && At(a, b, t) == Point(MeetX(a, b, y), y)
  {
    var dy := b.y - a.y;
    t := (y - a.y) / dy;
    Divided(y - a.y, dy);
    FractionOf(y - a.y, dy, t);
    MeetByHeight(a, b, y);
    SameRun(MeetX(a, b, y) - a.x, b.x - a.x, y - a.y, dy, t);
  }

  lemma FractionOf(n: real, d: real, t: real)
    requires t * d == n && (0.0 <= n <= d || d <= n <= 0.0) && d != 0.0
    ensures 0.0 <= t <= 1.0
  {
    if t < 0.0 {
      if d > 0.0 { PositiveProduct(-t, d); } else { PositiveProduct(-t, -d); }
    } else if t > 1.0 {
      if d > 0.0 { PositiveProduct(t - 1.0, d); } else { PositiveProduct(t - 1.0, -d); }
    }
  }

  lemma SameRun(m: real, dx: real, n: real, d: real, t: real)
    requires d != 0.0 && m * d == dx * n && t * d == n
    ensures m == t * dx
  {
    assert dx * n == (t * dx) * d;
    CancelFactor(m, t * dx, d);
  }

  /** An edge meets the ray when it goes up with the point on its left, or down with the
      point strictly on its right. */
  lemma CrossesBySide(a: Point, b: Point, p: Point)
    ensures a.y <= p.y < b.y ==> (Crosses(a, b, p) <==> LeftOf(a, b, p)) && (LeftOf(a, b, p) <==> Turn(a, b, p) > 0.0)
    ensures b.y <= p.y < a.y ==> (Crosses(a, b, p) <==> !LeftOf(a, b, p)) && (LeftOf(a, b, p) <==> Turn(a, b, p) >= 0.0)
    ensures Straddles(a, b, p.y) <==> a.y <= p.y < b.y || b.y <= p.y < a.y
  {
    hide Turn;
    if Straddles(a, b, p.y) {
      MeetByHeight(a, b, p.y);
      var m, k := MeetX(a, b, p.y), b.y - a.y;
      TurnByMeet(a, b, p, m, k);
      SignOfProduct(k, m - p.x, Turn(a, b, p));
    }
  }

  lemma SignOfProduct(k: real, d: real, w: real)
    requires w == k * d && k != 0.0
    ensures k > 0.0 ==> (w > 0.0 <==> d > 0.0) && (w == 0.0 <==> d == 0.0)
    ensures k < 0.0 ==> (w > 0.0 <==> d < 0.0) && (w == 0.0 <==> d == 0.0)
  {
    var k', d' := if k > 0.0 then k else -k, if d > 0.0 then d else -d;
    if d != 0.0 {
      PositiveProduct(k', d');
      assert w == k' * d' || w == -(k' * d');
    }
  }

  lemma TurnByMeet(a: Point, b: Point, p: Point, m: real, k: real)
    requires k == b.y - a.y && (m - a.x) * k == (b.x - a.x) * (p.y - a.y)
    ensures Turn(a, b, p) == k * (m - p.x)
  {
    assert k * (m - p.x) == (m - a.x) * k - k * (p.x - a.x);
  }

  // ---- three edges ----

  lemma TriangleParity(a: Point, b: Point, c: Point, p: Point)
    ensures Inside([a, b, c], p) <==> ((Crosses(a, b, p) != Crosses(b, c, p)) != Crosses(c, a, p))
  {
    var ring := [a, b, c];
    hide Crosses;
    ParityClosingEdge(ring, p);
    assert ring[..2][..1] == ring[..1];
    assert OddCrossings(ring, p) == (OddCrossings(ring[..2], p) != Crosses(c, b, p));
    assert OddCrossings(ring[..2], p) == (OddCrossings(ring[..1], p) != Crosses(b, a, p));
    CrossesSymmetric(a, b, p);
    CrossesSymmetric(b, c, p);
    CrossesSymmetric(c, a, p);
  }

  /** The three sides of a point add up to the side of the triangle. */
  lemma TurnsAddUp(a: Point, b: Point, c: Point, p: Point)
    ensures Turn(a, b, p) + Turn(b, c, p) + Turn(c, a, p) == Turn(a, b, c)
  {
  }

  function Det(ux: real, uy: real, vx: real, vy: real): real {
    ux * vy - uy * vx
  }

  lemma TurnIsDet(a: Point, b: Point, p: Point)
    ensures Turn(a, b, p) == Det(a.x - p.x, a.y - p.y, b.x - p.x, b.y - p.y)
  {
  }

  lemma DetsBalance(ax: real, ay: real, bx: real, by_: real, cx: real, cy: real)
    ensures Det(bx, by_, cx, cy) * ay + Det(cx, cy, ax, ay) * by_ + Det(ax, ay, bx, by_) * cy == 0.0
  {
    assert Det(bx, by_, cx, cy) * ay == bx * cy * ay - by_ * cx * ay;
    assert Det(cx, cy, ax, ay) * by_ == cx * ay * by_ - cy * ax * by_;
    assert Det(ax, ay, bx, by_) * cy == ax * by_ * cy - ay * bx * cy;
  }

  /** The point is the average of the vertices, weighted by its opposite sides. */
  lemma TurnsBalance(a: Point, b: Point, c: Point, p: Point)
    ensures Turn(b, c, p) * (a.y - p.y) + Turn(c, a, p) * (b.y - p.y) + Turn(a, b, p) * (c.y - p.y) == 0.0
  {
    hide Turn, Det;
    TurnIsDet(b, c, p);
    TurnIsDet(c, a, p);
    TurnIsDet(a, b, p);
    DetsBalance(a.x - p.x, a.y - p.y, b.x - p.x, b.y - p.y, c.x - p.x, c.y - p.y);
  }

  predicate LeftOfAll(a: Point, b: Point, c: Point, p: Point) {
    LeftOf(a, b, p) && LeftOf(b, c, p) && LeftOf(c, a, p)
  }

  // The sides of a point with one vertex above it.
  lemma OneAboveWeights(wa: real, wb: real, wc: real, da: real, db: real, dc: real, all: real)
    requires da >= 0.0 && db >= 0.0 && dc > 0.0 && wa + wb + wc == all >= 0.0
    requires wa * -da + wb * -db + wc * dc == 0.0
    ensures wa > 0.0 || wb >= 0.0
    ensures wa > 0.0 && wb >= 0.0 ==> all > 0.0 && wc >= 0.0 && (wc == 0.0 ==> da == 0.0 && (wb == 0.0 || db == 0.0))
  {
    assert wc * dc == wa * da + wb * db;
    if wa > 0.0 && wb >= 0.0 {
      Balanced(wa, da, wb, db, wc, dc);
    } else if wa <= 0.0 && wb < 0.0 {
      Balanced(-wa, da, -wb, db, -wc, dc);
    }
  }

  // One vertex above the horizontal through the point: an edge goes up, the next one down.
  lemma OneAbove(a: Point, b: Point, c: Point, p: Point)
    requires a.y <= p.y && b.y <= p.y < c.y && Turn(a, b, c) >= 0.0
    ensures Inside([a, b, c], p) <==> Turn(a, b, c) > 0.0 && LeftOfAll(a, b, c, p)
  {
    hide Turn, Inside, Crosses;
    TriangleParity(a, b, c, p);
    CrossesBySide(a, b, p);
    CrossesBySide(b, c, p);
    CrossesBySide(c, a, p);
    TurnsAddUp(a, b, c, p);
    TurnsBalance(a, b, c, p);
    OneAboveWeights(Turn(b, c, p), Turn(c, a, p), Turn(a, b, p), p.y - a.y, p.y - b.y, c.y - p.y, Turn(a, b, c));
    NoCross(a, b, p);
    if a.y == b.y {
      LevelBase(a, b, c);
    }
  }

  lemma NoCross(a: Point, b: Point, p: Point)
    requires !Straddles(a, b, p.y)
    ensures !Crosses(a, b, p)
  {
  }

  // Weights of a level point: the one above is as heavy as the ones below together.
  lemma Balanced(u: real, du: real, v: real, dv: real, w: real, dw: real)
    requires u >= 0.0 && v >= 0.0 && du >= 0.0 && dv >= 0.0 && dw > 0.0
    requires w * dw == u * du + v * dv
    ensures w >= 0.0
    ensures w == 0.0 ==> (u == 0.0 || du == 0.0) && (v == 0.0 || dv == 0.0)
    ensures w == 0.0 || du > 0.0 || dv > 0.0
  {
    NonNegativeProduct(u, du);
    NonNegativeProduct(v, dv);
    if w < 0.0 {
      PositiveProduct(-w, dw);
    }
    if u > 0.0 && du > 0.0 {
      PositiveProduct(u, du);
    }
    if v > 0.0 && dv > 0.0 {
      PositiveProduct(v, dv);
    }
    if w > 0.0 {
      PositiveProduct(w, dw);
    }
  }

  // Counterclockwise over a level base: the base runs to the right if the third vertex is above.
  lemma LevelBase(a: Point, b: Point, c: Point)
    requires a.y == b.y && Turn(a, b, c) >= 0.0
    ensures Turn(a, b, c) > 0.0 && c.y > a.y ==> b.x > a.x
    ensures Turn(a, b, c) > 0.0 && c.y < a.y ==> b.x < a.x
    ensures c.y == a.y ==> Turn(a, b, c) == 0.0
  {
    assert Turn(a, b, c) == (b.x - a.x) * (c.y - a.y);
    if c.y > a.y && b.x <= a.x {
      NonNegativeProduct(a.x - b.x, c.y - a.y);
    }
    if c.y < a.y && b.x >= a.x {
      NonNegativeProduct(b.x - a.x, a.y - c.y);
    }
  }

  // The sides of a point with two vertices above it.
  lemma TwoAboveWeights(wa: real, wb: real, wc: real, da: real, db: real, dc: real, all: real)
    requires da >= 0.0 && db > 0.0 && dc > 0.0 && wa + wb + wc == all >= 0.0
    requires wa * -da + wb * db + wc * dc == 0.0
    ensures wc > 0.0 || wb >= 0.0
    ensures wc > 0.0 && wb >= 0.0 ==> all > 0.0 && wa > 0.0
  {
    assert wa * da == wc * dc + wb * db;
    if wc > 0.0 && wb >= 0.0 {
      PositiveProduct(wc, dc);
      NonNegativeProduct(wb, db);
      if wa <= 0.0 {
        NonNegativeProduct(-wa, da);
      }
    } else if wc <= 0.0 && wb < 0.0 {
      NonNegativeProduct(-wc, dc);
      PositiveProduct(-wb, db);
      if wa >= 0.0 {
        NonNegativeProduct(wa, da);
      }
    }
  }

  // Two vertices above.
  lemma TwoAbove(a: Point, b: Point, c: Point, p: Point)
    requires a.y <= p.y < b.y && p.y < c.y && Turn(a, b, c) >= 0.0
    ensures Inside([a, b, c], p) <==> Turn(a, b, c) > 0.0 && LeftOfAll(a, b, c, p)
  {
    hide Turn, Inside, Crosses;
    TriangleParity(a, b, c, p);
    CrossesBySide(a, b, p);
    CrossesBySide(b, c, p);
    CrossesBySide(c, a, p);
    TurnsAddUp(a, b, c, p);
    TurnsBalance(a, b, c, p);
    TwoAboveWeights(Turn(b, c, p), Turn(c, a, p), Turn(a, b, p), p.y - a.y, b.y - p.y, c.y - p.y, Turn(a, b, c));
    NoCross(b, c, p);
  }

  // All vertices above: no edge meets the ray, and the point is below some edge.
  lemma AllAbove(a: Point, b: Point, c: Point, p: Point)
    requires p.y < a.y && p.y < b.y && p.y < c.y && Turn(a, b, c) >= 0.0
    ensures Inside([a, b, c], p) <==> Turn(a, b, c) > 0.0 && LeftOfAll(a, b, c, p)
  {
    TriangleParity(a, b, c, p);
    TurnsAddUp(a, b, c, p);
    TurnsBalance(a, b, c, p);
    var wa, wb, wc := Turn(b, c, p), Turn(c, a, p), Turn(a, b, p);
    if wa >= 0.0 && wb >= 0.0 && wc >= 0.0 {
      NoWeight(wa, a.y - p.y, wb, b.y - p.y, wc, c.y - p.y);
    }
  }

  lemma NoWeight(u: real, du: real, v: real, dv: real, w: real, dw: real)
    requires u >= 0.0 && v >= 0.0 && w >= 0.0 && du >= 0.0 && dv >= 0.0 && dw >= 0.0
    requires u * du + v * dv + w * dw == 0.0
    ensures (u == 0.0 || du == 0.0) && (v == 0.0 || dv == 0.0) && (w == 0.0 || dw == 0.0)
  {
    NonNegativeProduct(u, du);
    NonNegativeProduct(v, dv);
    NonNegativeProduct(w, dw);
    if u > 0.0 && du > 0.0 {
      PositiveProduct(u, du);
    }
    if v > 0.0 && dv > 0.0 {
      PositiveProduct(v, dv);
    }
    if w > 0.0 && dw > 0.0 {
      PositiveProduct(w, dw);
    }
  }

  // No vertex above: the same, although the point may lie on the upper edge or vertex.
  lemma NoneAbove(a: Point, b: Point, c: Point, p: Point)
    requires a.y <= p.y && b.y <= p.y && c.y <= p.y && Turn(a, b, c) >= 0.0
    ensures Inside([a, b, c], p) <==> Turn(a, b, c) > 0.0 && LeftOfAll(a, b, c, p)
  {
    TriangleParity(a, b, c, p);
    TurnsAddUp(a, b, c, p);
    TurnsBalance(a, b, c, p);
    var wa, wb, wc := Turn(b, c, p), Turn(c, a, p), Turn(a, b, p);
    if LeftOfAll(a, b, c, p) && Turn(a, b, c) > 0.0 {
      assert wa * (p.y - a.y) + wb * (p.y - b.y) + wc * (p.y - c.y) == 0.0;
      NoWeight(wa, p.y - a.y, wb, p.y - b.y, wc, p.y - c.y);
      if wa > 0.0 {
        TopVertex(a, b, c, p);
      } else if wb > 0.0 {
        TurnRotates(a, b, c);
        TopVertex(b, c, a, p);
      } else {
        TurnRotates(c, a, b);
        TopVertex(c, a, b, p);
      }
    }
  }

  lemma TurnRotates(a: Point, b: Point, c: Point)
    ensures Turn(a, b, c) == Turn(b, c, a)
  {
  }

  // A counterclockwise triangle does not count its upper edge or its top vertex.
  lemma TopVertex(a: Point, b: Point, c: Point, p: Point)
    requires a.y == p.y && b.y <= p.y && c.y <= p.y && Turn(a, b, c) > 0.0
    requires Turn(c, a, p) == 0.0 || p.y == b.y
    ensures !LeftOfAll(a, b, c, p)
  {
    if p.y == b.y {
      LevelBase(a, b, c);
      assert Turn(a, b, p) == (b.x - a.x) * (p.y - a.y);
    } else if c.y == a.y && a.x > c.x {
      assert Turn(a, b, c) == -((b.y - a.y) * (c.x - a.x));
      NonNegativeProduct(a.y - b.y, a.x - c.x);
    }
  }

  // ---- triangles ----

  /** A counterclockwise triangle contains the points to the left of its three edges; a flat
      one contains none. */
  lemma CounterclockwiseContains(a: Point, b: Point, c: Point, p: Point)
    requires Turn(a, b, c) >= 0.0
    ensures Inside([a, b, c], p) <==> Turn(a, b, c) > 0.0 && LeftOfAll(a, b, c, p)
  {
    hide Inside, LeftOf, Turn;
    TurnRotates(a, b, c);
    TurnRotates(b, c, a);
    InsideRotates(a, b, c, p);
    InsideRotates(b, c, a, p);
    match (a.y > p.y, b.y > p.y, c.y > p.y)
    case (false, false, false) => NoneAbove(a, b, c, p);
    case (false, false, true) => OneAbove(a, b, c, p);
    case (false, true, false) => OneAbove(c, a, b, p);
    case (true, false, false) => OneAbove(b, c, a, p);
    case (false, true, true) => TwoAbove(a, b, c, p);
    case (true, false, true) => TwoAbove(b, c, a, p);
    case (true, true, false) => TwoAbove(c, a, b, p);
    case (true, true, true) => AllAbove(a, b, c, p);
  }

  lemma InsideRotates(a: Point, b: Point, c: Point, p: Point)
    ensures Inside([a, b, c], p) == Inside([b, c, a], p)
  {
    TriangleParity(a, b, c, p);
    TriangleParity(b, c, a, p);
  }

  lemma InsideReverses(a: Point, b: Point, c: Point, p: Point)
    ensures Inside([a, b, c], p) == Inside([c, b, a], p)
  {
    hide Crosses, Inside;
    TriangleParity(a, b, c, p);
    TriangleParity(c, b, a, p);
    CrossesSymmetric(a, b, p);
    CrossesSymmetric(b, c, p);
    CrossesSymmetric(c, a, p);
  }

  /** On the inner side of the three edges, whichever way round the triangle is walked. */
  predicate InTriangle(a: Point, b: Point, c: Point, p: Point) {
    if Turn(a, b, c) > 0.0 then LeftOfAll(a, b, c, p)
    else Turn(a, b, c) < 0.0 && LeftOfAll(c, b, a, p)
  }

  /** Containment in a triangle, exactly, its edges included. */
  lemma TriangleContains(a: Point, b: Point, c: Point, p: Point)
    ensures Inside([a, b, c], p) <==> InTriangle(a, b, c, p)
  {
    hide Inside, LeftOf;
    if Turn(a, b, c) >= 0.0 {
      CounterclockwiseContains(a, b, c, p);
    } else {
      TurnReverses(a, b, c);
      InsideReverses(a, b, c, p);
      CounterclockwiseContains(c, b, a, p);
    }
  }

  lemma TurnReverses(a: Point, b: Point, c: Point)
    ensures Turn(c, b, a) == -Turn(a, b, c)
  {
  }

  /** Off its edges a triangle contains exactly the points on the inner side of all three. */
  lemma TriangleInterior(a: Point, b: Point, c: Point, p: Point)
    requires Turn(a, b, p) != 0.0 && Turn(b, c, p) != 0.0 && Turn(c, a, p) != 0.0
    ensures Inside([a, b, c], p) <==>
            || (Turn(a, b, p) > 0.0 && Turn(b, c, p) > 0.0 && Turn(c, a, p) > 0.0)
            || (Turn(a, b, p) < 0.0 && Turn(b, c, p) < 0.0 && Turn(c, a, p) < 0.0)
  {
    hide Inside, Turn;
    TriangleContains(a, b, c, p);
    TurnsAddUp(a, b, c, p);
    TurnFlips(a, b, p);
    TurnFlips(b, c, p);
    TurnFlips(c, a, p);
  }

  lemma TurnFlips(a: Point, b: Point, p: Point)
    ensures Turn(b, a, p) == -Turn(a, b, p)
  {
  }

  lemma TriangleArea(a: Point, b: Point, c: Point)
    ensures SignedArea([a, b, c]) == Turn(a, b, c) / 2.0
  {
    var ring := [a, b, c];
    hide Cross;
    SumClosingEdge(Cross, ring);
    assert ring[..2][..1] == ring[..1];
    assert EdgeSum(Cross, ring) == EdgeSum(Cross, ring[..2]) + Cross(b, c);
    assert EdgeSum(Cross, ring[..2]) == EdgeSum(Cross, ring[..1]) + Cross(a, b);
    CrossesAddUp(a, b, c);
  }

  lemma CrossesAddUp(a: Point, b: Point, c: Point)
    ensures Cross(a, b) + Cross(b, c) + Cross(c, a) == Turn(a, b, c)
  {
  }

  // ---- every ring ----

  /** Whether an odd number of the triangles fanned out from the first vertex contain the point. */
  predicate OddFan(ring: Ring, p: Point) {
    |ring| >= 3
    && (OddFan(ring[..|ring| - 1], p) != InTriangle(ring[|ring| - 2], ring[|ring| - 1], ring[0], p))
  }

  function FanArea(ring: Ring): real {
    if |ring| < 3 then 0.0
    else FanArea(ring[..|ring| - 1]) + Turn(ring[|ring| - 2], ring[|ring| - 1], ring[0]) / 2.0
  }

  /** Containment in any ring: the parity of the triangles of its fan around the point. */
  lemma {:induction false} InsideIsOddFan(ring: Ring, p: Point)
    ensures Inside(ring, p) <==> OddFan(ring, p)
  {
    if |ring| == 0 {
    } else if |ring| < 3 {
      FlatRing(ring, p);
    } else {
      hide Inside, InTriangle;
      var n := |ring| - 1;
      ChordSplits(ring, 0, n - 1, p);
      assert Between(ring, 0, n - 1) == ring[..n];
      assert Around(ring, 0, n - 1) == [ring[n - 1], ring[n], ring[0]];
      TriangleContains(ring[n - 1], ring[n], ring[0], p);
      InsideIsOddFan(ring[..n], p);
    }
  }

  lemma FlatRing(ring: Ring, p: Point)
    requires 0 < |ring| < 3
    ensures !Inside(ring, p) && SignedArea(ring) == 0.0
  {
    ParityClosingEdge(ring, p);
    SumClosingEdge(Cross, ring);
    if |ring| == 2 {
      assert ring[..1] == [ring[0]];
      CrossesSymmetric(ring[0], ring[1], p);
      assert OddCrossings(ring, p) == (OddCrossings(ring[..1], p) != Crosses(ring[1], ring[0], p));
      assert EdgeSum(Cross, ring) == EdgeSum(Cross, ring[..1]) + Cross(ring[0], ring[1]);
      CrossAntisymmetric(ring[0], ring[1]);
    }
  }

  /** The area of any ring: the signed areas of the triangles of its fan, added up. */
  lemma {:induction false} AreaIsFanArea(ring: Ring)
    ensures SignedArea(ring) == FanArea(ring)
  {
    if |ring| == 0 {
    } else if |ring| < 3 {
      FlatRing(ring, ring[0]);
    } else {
      hide SignedArea, Turn;
      var n := |ring| - 1;
      ChordSplits(ring, 0, n - 1, ring[0]);
      assert Between(ring, 0, n - 1) == ring[..n];
      assert Around(ring, 0, n - 1) == [ring[n - 1], ring[n], ring[0]];
      TriangleArea(ring[n - 1], ring[n], ring[0]);
      AreaIsFanArea(ring[..n]);
    }
  }

  // ---- boxes ----

  function BoxRing(minX: real, minY: real, maxX: real, maxY: real): Ring {
    [Point(minX, minY), Point(maxX, minY), Point(maxX, maxY), Point(minX, maxY)]
  }

  lemma UprightEdge(x: real, y0: real, y1: real, p: Point)
    ensures Crosses(Point(x, y0), Point(x, y1), p) <==> (y0 <= p.y < y1 || y1 <= p.y < y0) && p.x < x
  {
    if Straddles(Point(x, y0), Point(x, y1), p.y) {
      MeetByHeight(Point(x, y0), Point(x, y1), p.y);
      CancelFactor(MeetX(Point(x, y0), Point(x, y1), p.y) - x, 0.0, y1 - y0);
    }
  }

  /** A rectangle contains its left and lower edges and not its right and upper ones, and has
      width times height as its area. */
  lemma BoxContains(minX: real, minY: real, maxX: real, maxY: real, p: Point)
    requires minX <= maxX && minY <= maxY
    ensures Inside(BoxRing(minX, minY, maxX, maxY), p) <==> minX <= p.x < maxX && minY <= p.y < maxY
    ensures SignedArea(BoxRing(minX, minY, maxX, maxY)) == (maxX - minX) * (maxY - minY)
  {
    var ring := BoxRing(minX, minY, maxX, maxY);
    UprightEdge(maxX, minY, maxY, p);
    UprightEdge(minX, maxY, minY, p);
    ChordSplits(ring, 0, 2, p);
    assert Between(ring, 0, 2) == [ring[0], ring[1], ring[2]] && Around(ring, 0, 2) == [ring[2], ring[3], ring[0]];
    TriangleParity(ring[0], ring[1], ring[2], p);
    TriangleParity(ring[2], ring[3], ring[0], p);
    CrossesSymmetric(ring[0], ring[2], p);
    TriangleArea(ring[0], ring[1], ring[2]);
    TriangleArea(ring[2], ring[3], ring[0]);
    hide MeetX, Inside, SignedArea;
    assert !Straddles(ring[0], ring[1], p.y) && !Straddles(ring[2], ring[3], p.y);
  }

  /** The area of a rectangle by its sides. */
  lemma BoxArea(minX: real, minY: real, width: real, height: real)
    requires width >= 0.0 && height >= 0.0
    ensures SignedArea(BoxRing(minX, minY, minX + width, minY + height)) == width * height
  {
    var ring := BoxRing(minX, minY, minX + width, minY + height);
    ChordSplits(ring, 0, 2, ring[0]);
    assert Between(ring, 0, 2) == [ring[0], ring[1], ring[2]] && Around(ring, 0, 2) == [ring[2], ring[3], ring[0]];
    TriangleArea(ring[0], ring[1], ring[2]);
    TriangleArea(ring[2], ring[3], ring[0]);
    hide SignedArea, Inside;
    assert Turn(ring[0], ring[1], ring[2]) == width * height;
    assert Turn(ring[2], ring[3], ring[0]) == width * height;
  }
}
