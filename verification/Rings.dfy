/** Even-odd containment and signed area of rings.

    Both loops of the engine walk the edges of a ring, so both are specified by a
    function over a path of vertices: the parity of the crossed edges, and the sum
    of the edges' cross products. A ring is the path that starts at its last vertex
    and ends there again. */
module Rings {
  import opened Plane

  type Ring = seq<Point>

  /** The edge's endpoints are on different sides of the horizontal through `y`. */
  predicate Straddles(a: Point, b: Point, y: real) {
    (a.y > y) != (b.y > y)
  }

  /** Where a straddling edge meets the horizontal through `y`. */
  function MeetX(a: Point, b: Point, y: real): real
    requires Straddles(a, b, y)
  {
    (b.x - a.x) * (y - a.y) / (b.y - a.y) + a.x
  }

  /** The edge meets the rightward ray from `p`. */
  predicate Crosses(a: Point, b: Point, p: Point) {
    Straddles(a, b, p.y) && p.x < MeetX(a, b, p.y)
  }

  /** Whether an odd number of the path's edges meet the ray from `p`. */
  predicate OddCrossings(path: seq<Point>, p: Point) {
    if |path| < 2 then false
    else OddCrossings(path[..|path| - 1], p) != Crosses(path[|path| - 1], path[|path| - 2], p)
  }

  function Loop(ring: Ring): seq<Point>
    requires ring != []
  {
    [ring[|ring| - 1]] + ring
  }

  predicate Inside(ring: Ring, p: Point) {
    ring != [] && OddCrossings(Loop(ring), p)
  }

  /** `ringContains`: toggles once for every edge that meets the ray. */
  method RingContains(ring: Ring, p: Point) returns (inside: bool)
    ensures inside == Inside(ring, p)
  {
    inside := false;
    var current, previous := 0, |ring| - 1;
    while current < |ring|
      invariant 0 <= current <= |ring|
      invariant previous == if current == 0 then |ring| - 1 else current - 1
      invariant inside == (ring != [] && OddCrossings(Loop(ring)[..current + 1], p))
    {
      var a, b := ring[current], ring[previous];
      assert Loop(ring)[..current + 2][..current + 1] == Loop(ring)[..current + 1];
      if Crosses(a, b, p) {
        inside := !inside;
      }
      previous, current := current, current + 1;
    }
    if ring != [] {
      assert Loop(ring)[..|ring| + 1] == Loop(ring);
    }
  }

  function Cross(a: Point, b: Point): real {
    a.x * b.y - b.x * a.y
  }

  /** The sum of a weight over the path's edges. */
  function EdgeSum(weight: (Point, Point) -> real, path: seq<Point>): real {
    if |path| < 2 then 0.0
    else EdgeSum(weight, path[..|path| - 1]) + weight(path[|path| - 2], path[|path| - 1])
  }

  function LoopSum(weight: (Point, Point) -> real, ring: Ring): real {
    if ring == [] then 0.0 else EdgeSum(weight, Loop(ring))
  }

  /** The signed area of a ring, by the shoelace formula. */
  function SignedArea(ring: Ring): real {
    LoopSum(Cross, ring) / 2.0
  }

  /** `ringArea`: the loop starts at edge (0, 1) and ends with the closing edge. */
  method RingArea(ring: Ring) returns (area: real)
    ensures area == SignedArea(ring)
  {
    area := 0.0;
    for index := 0 to |ring|
      invariant area == if index < |ring| then EdgeSum(Cross, ring[..index + 1]) else LoopSum(Cross, ring)
    {
      var next := (index + 1) % |ring|;
      area := area + Cross(ring[index], ring[next]);
      if index + 1 < |ring| {
        NextEdge(Cross, ring, index);
      } else {
        assert next == 0;
        assert ring[..index + 1] == ring;
        SumClosingEdge(Cross, ring);
      }
    }
    area := area / 2.0;
  }

  lemma NextEdge(weight: (Point, Point) -> real, ring: Ring, index: nat)
    requires index + 1 < |ring|
    ensures (index + 1) % |ring| == index + 1
    ensures EdgeSum(weight, ring[..index + 2])
         == EdgeSum(weight, ring[..index + 1]) + weight(ring[index], ring[index + 1])
  {
    assert ring[..index + 2][..index + 1] == ring[..index + 1];
  }

  // ---- paths may be cut at any vertex ----

  lemma {:induction false} CutParity(path: seq<Point>, k: nat, p: Point)
    requires k < |path|
    ensures OddCrossings(path, p) == (OddCrossings(path[..k + 1], p) != OddCrossings(path[k..], p))
  {
    var n := |path|;
    if k + 1 == n {
      assert path[..k + 1] == path;
    } else {
      var front := path[..n - 1];
      CutParity(front, k, p);
      assert front[..k + 1] == path[..k + 1];
      assert path[k..][..n - 1 - k] == front[k..];
    }
  }

  lemma {:induction false} CutSum(weight: (Point, Point) -> real, path: seq<Point>, k: nat)
    requires k < |path|
    ensures EdgeSum(weight, path) == EdgeSum(weight, path[..k + 1]) + EdgeSum(weight, path[k..])
  {
    var n := |path|;
    if k + 1 == n {
      assert path[..k + 1] == path;
    } else {
      var front := path[..n - 1];
      CutSum(weight, front, k);
      assert front[..k + 1] == path[..k + 1];
      assert path[k..][..n - 1 - k] == front[k..];
    }
  }

  lemma JoinParity(left: seq<Point>, right: seq<Point>, p: Point)
    requires left != [] && right != []
    ensures OddCrossings(left + right, p)
         == (OddCrossings(left, p) != (Crosses(right[0], left[|left| - 1], p) != OddCrossings(right, p)))
  {
    var k := |left| - 1;
    CutParity(left + right, k, p);
    assert (left + right)[..k + 1] == left;
    var tail := [left[k]] + right;
    assert (left + right)[k..] == tail;
    CutParity(tail, 1, p);
    assert tail[1..] == right;
    assert tail[..2] == [left[k], right[0]];
    assert tail[..2][..1] == [left[k]];
  }

  lemma JoinSum(weight: (Point, Point) -> real, left: seq<Point>, right: seq<Point>)
    requires left != [] && right != []
    ensures EdgeSum(weight, left + right)
         == EdgeSum(weight, left) + weight(left[|left| - 1], right[0]) + EdgeSum(weight, right)
  {
    var k := |left| - 1;
    CutSum(weight, left + right, k);
    assert (left + right)[..k + 1] == left;
    var tail := [left[k]] + right;
    assert (left + right)[k..] == tail;
    CutSum(weight, tail, 1);
    assert tail[1..] == right;
    assert tail[..2] == [left[k], right[0]];
    assert tail[..2][..1] == [left[k]];
  }

  lemma ParityClosingEdge(ring: Ring, p: Point)
    requires ring != []
    ensures Inside(ring, p) == (Crosses(ring[0], ring[|ring| - 1], p) != OddCrossings(ring, p))
  {
    JoinParity([ring[|ring| - 1]], ring, p);
  }

  lemma SumClosingEdge(weight: (Point, Point) -> real, ring: Ring)
    requires ring != []
    ensures LoopSum(weight, ring) == EdgeSum(weight, ring) + weight(ring[|ring| - 1], ring[0])
  {
    JoinSum(weight, [ring[|ring| - 1]], ring);
  }

  // ---- edges ----

  lemma Divided(n: real, k: real)
    requires k != 0.0
    ensures n / k * k == n
  {
  }

  lemma CancelFactor(a: real, b: real, k: real)
    requires k != 0.0 && a * k == b * k
    ensures a == b
  {
  }

  lemma MeetSymmetric(a: Point, b: Point, y: real)
    requires Straddles(a, b, y)
    ensures MeetX(a, b, y) == MeetX(b, a, y)
  {
    var dx, k := b.x - a.x, b.y - a.y;
    var m := dx * (y - a.y) / k;
    var m' := (a.x - b.x) * (y - b.y) / (a.y - b.y);
    Divided(dx * (y - a.y), k);
    Divided((a.x - b.x) * (y - b.y), a.y - b.y);
    assert m * k == dx * (y - a.y);
    assert m' * k == dx * (y - b.y) by {
      assert m' * (a.y - b.y) == (a.x - b.x) * (y - b.y);
      assert m' * (a.y - b.y) == -(m' * k);
      assert (a.x - b.x) * (y - b.y) == -(dx * (y - b.y));
    }
    assert m * k - m' * k == dx * k;
    CancelFactor(m - m', dx, k);
  }

  /** An edge crosses the ray whichever way round it is walked. */
  lemma CrossesSymmetric(a: Point, b: Point, p: Point)
    ensures Crosses(a, b, p) == Crosses(b, a, p)
  {
    if Straddles(a, b, p.y) {
      MeetSymmetric(a, b, p.y);
    }
  }

  /** A straddling edge meets the horizontal between its endpoints. */
  lemma MeetBetween(a: Point, b: Point, y: real, lo: real, hi: real)
    requires Straddles(a, b, y)
    requires lo <= a.x <= hi && lo <= b.x <= hi
    ensures lo <= MeetX(a, b, y) <= hi
  {
    if a.y > y {
      MeetBetweenUp(b, a, y, lo, hi);
      MeetSymmetric(a, b, y);
    } else {
      MeetBetweenUp(a, b, y, lo, hi);
    }
  }

  lemma MeetBetweenUp(a: Point, b: Point, y: real, lo: real, hi: real)
    requires a.y <= y < b.y
    requires lo <= a.x <= hi && lo <= b.x <= hi
    ensures lo <= MeetX(a, b, y) <= hi
  {
    var k := b.y - a.y;
    var t := (y - a.y) / k;
    Quotient(y - a.y, k);
    var dx := b.x - a.x;
    assert dx * (y - a.y) / k == dx * t by {
      Divided(dx * (y - a.y), k);
      assert dx * t * k == dx * (t * k);
      CancelFactor(dx * (y - a.y) / k, dx * t, k);
    }
    assert dx * t + a.x == b.x * t + a.x * (1.0 - t);
    Mix(a.x, b.x, t, lo, hi);
  }

  lemma Mix(u: real, v: real, t: real, lo: real, hi: real)
    requires 0.0 <= t <= 1.0 && lo <= u <= hi && lo <= v <= hi
    ensures lo <= v * t + u * (1.0 - t) <= hi
  {
    NonNegativeProduct(v - lo, t);
    NonNegativeProduct(u - lo, 1.0 - t);
    NonNegativeProduct(hi - v, t);
    NonNegativeProduct(hi - u, 1.0 - t);
  }

  lemma NonNegativeProduct(a: real, b: real)
    requires a >= 0.0 && b >= 0.0
    ensures a * b >= 0.0
  {
  }

  lemma CrossAntisymmetric(a: Point, b: Point)
    ensures Cross(a, b) + Cross(b, a) == 0.0
  {
  }

  // ---- chord splitting ----

  /** The two rings into which the chord between vertices `i` and `j` cuts a ring. */
  function Between(ring: Ring, i: nat, j: nat): Ring
    requires i < j < |ring|
  {
    ring[i..j + 1]
  }

  function Around(ring: Ring, i: nat, j: nat): Ring
    requires i < j < |ring|
  {
    ring[j..] + ring[..i + 1]
  }

  lemma ArcsSum(weight: (Point, Point) -> real, ring: Ring, i: nat, j: nat)
    requires i < j < |ring|
    ensures EdgeSum(weight, ring)
         == EdgeSum(weight, ring[..i + 1]) + EdgeSum(weight, Between(ring, i, j)) + EdgeSum(weight, ring[j..])
  {
    var rest, k := ring[i..], j - i;
    assert rest[..k + 1] == Between(ring, i, j);
    assert rest[k..] == ring[j..];
    CutSum(weight, ring, i);
    CutSum(weight, rest, k);
  }

  lemma ChordSplitsSum(weight: (Point, Point) -> real, ring: Ring, i: nat, j: nat)
    requires i < j < |ring|
    requires weight(ring[i], ring[j]) + weight(ring[j], ring[i]) == 0.0
    ensures LoopSum(weight, ring) == LoopSum(weight, Between(ring, i, j)) + LoopSum(weight, Around(ring, i, j))
  {
    var inner, outer := Between(ring, i, j), Around(ring, i, j);
    SumClosingEdge(weight, ring);
    SumClosingEdge(weight, inner);
    SumClosingEdge(weight, outer);
    ArcsSum(weight, ring, i, j);
    JoinSum(weight, ring[j..], ring[..i + 1]);
  }

  lemma ChordSplitsParity(ring: Ring, i: nat, j: nat, p: Point)
    requires i < j < |ring|
    ensures Inside(ring, p) == (Inside(Between(ring, i, j), p) != Inside(Around(ring, i, j), p))
  {
    hide Crosses, OddCrossings, Inside;
    var inner, outer := Between(ring, i, j), Around(ring, i, j);
    ParityClosingEdge(ring, p);
    ParityClosingEdge(inner, p);
    ParityClosingEdge(outer, p);
    CutParity(ring, i, p);
    CutParity(ring[i..], j - i, p);
    assert ring[i..][..j - i + 1] == inner;
    assert ring[i..][j - i..] == ring[j..];
    JoinParity(ring[j..], ring[..i + 1], p);
    CrossesSymmetric(ring[i], ring[j], p);
  }

  /** A chord splits containment by exclusive or, and signed area by addition. */
  lemma ChordSplits(ring: Ring, i: nat, j: nat, p: Point)
    requires i < j < |ring|
    ensures Inside(ring, p) == (Inside(Between(ring, i, j), p) != Inside(Around(ring, i, j), p))
    ensures SignedArea(ring) == SignedArea(Between(ring, i, j)) + SignedArea(Around(ring, i, j))
  {
    ChordSplitsParity(ring, i, j, p);
    CrossAntisymmetric(ring[i], ring[j]);
    ChordSplitsSum(Cross, ring, i, j);
  }

  /** The vertex a ring starts at does not matter. */
  lemma RotationInvariant(ring: Ring, k: nat, p: Point)
    requires k < |ring|
    ensures Inside(ring[k..] + ring[..k], p) == Inside(ring, p)
    ensures SignedArea(ring[k..] + ring[..k]) == SignedArea(ring)
  {
    var turned := ring[k..] + ring[..k];
    if k == 0 {
      assert turned == ring;
    } else {
      assert ring[..k] + ring[k..] == ring;
      JoinParity(ring[k..], ring[..k], p);
      JoinParity(ring[..k], ring[k..], p);
      ParityClosingEdge(ring, p);
      ParityClosingEdge(turned, p);
      RotationKeepsSum(Cross, ring, k);
    }
  }

  lemma RotationKeepsSum(weight: (Point, Point) -> real, ring: Ring, k: nat)
    requires 0 < k < |ring|
    ensures LoopSum(weight, ring[k..] + ring[..k]) == LoopSum(weight, ring)
  {
    assert ring[..k] + ring[k..] == ring;
    JoinSum(weight, ring[k..], ring[..k]);
    JoinSum(weight, ring[..k], ring[k..]);
    SumClosingEdge(weight, ring);
    SumClosingEdge(weight, ring[k..] + ring[..k]);
  }

  function Reversed(path: seq<Point>): (r: seq<Point>)
    ensures |r| == |path|
    ensures path != [] ==> r[0] == path[|path| - 1] && r[|r| - 1] == path[0]
  {
    if path == [] then [] else [path[|path| - 1]] + Reversed(path[..|path| - 1])
  }

  ghost predicate Antisymmetric(weight: (Point, Point) -> real) {
    forall a, b :: weight(a, b) == -weight(b, a)
  }

  lemma {:induction false} ParityReversed(path: seq<Point>, p: Point)
    ensures OddCrossings(Reversed(path), p) == OddCrossings(path, p)
  {
    var n := |path|;
    if n >= 2 {
      var front := path[..n - 1];
      ParityReversed(front, p);
      JoinParity([path[n - 1]], Reversed(front), p);
      CrossesSymmetric(path[n - 1], path[n - 2], p);
    }
  }

  lemma {:induction false} SumReversed(weight: (Point, Point) -> real, path: seq<Point>)
    requires Antisymmetric(weight)
    ensures EdgeSum(weight, Reversed(path)) == -EdgeSum(weight, path)
  {
    var n := |path|;
    if n >= 2 {
      var front := path[..n - 1];
      SumReversed(weight, front);
      JoinSum(weight, [path[n - 1]], Reversed(front));
    }
  }

  lemma ReversalNegatesSum(weight: (Point, Point) -> real, ring: Ring)
    requires Antisymmetric(weight)
    ensures LoopSum(weight, Reversed(ring)) == -LoopSum(weight, ring)
  {
    if ring != [] {
      SumReversed(weight, ring);
      SumClosingEdge(weight, ring);
      SumClosingEdge(weight, Reversed(ring));
    }
  }

  lemma CrossIsAntisymmetric()
    ensures Antisymmetric(Cross)
  {
    forall a: Point, b: Point
      ensures Cross(a, b) == -Cross(b, a)
    {
      CrossAntisymmetric(a, b);
    }
  }

  /** Walking a ring backwards keeps containment and negates the area. */
  lemma ReversalFlipsArea(ring: Ring, p: Point)
    ensures Inside(Reversed(ring), p) == Inside(ring, p)
    ensures SignedArea(Reversed(ring)) == -SignedArea(ring)
  {
    if ring != [] {
      ParityReversed(ring, p);
      ParityClosingEdge(ring, p);
      ParityClosingEdge(Reversed(ring), p);
      CrossesSymmetric(ring[0], ring[|ring| - 1], p);
    }
    CrossIsAntisymmetric();
    ReversalNegatesSum(Cross, ring);
  }

  /** Rings closed by repeating the first vertex (RFC 7946, section 3.1.6) and open
      rings are the same region with the same area. */
  lemma ClosedRingAgrees(ring: Ring, p: Point)
    requires ring != []
    ensures Inside(ring + [ring[0]], p) == Inside(ring, p)
    ensures SignedArea(ring + [ring[0]]) == SignedArea(ring)
  {
    var closed := ring + [ring[0]];
    JoinParity(ring, [ring[0]], p);
    ParityClosingEdge(ring, p);
    ParityClosingEdge(closed, p);
    CrossesSymmetric(ring[0], ring[|ring| - 1], p);
    ClosingKeepsSum(Cross, ring);
  }

  lemma ClosingKeepsSum(weight: (Point, Point) -> real, ring: Ring)
    requires ring != [] && weight(ring[0], ring[0]) == 0.0
    ensures LoopSum(weight, ring + [ring[0]]) == LoopSum(weight, ring)
  {
    JoinSum(weight, ring, [ring[0]]);
    SumClosingEdge(weight, ring);
    SumClosingEdge(weight, ring + [ring[0]]);
  }

  // ---- containment stays in the half-open bounding box ----

  ghost predicate RingInBox(ring: Ring, minX: real, minY: real, maxX: real, maxY: real) {
    forall v :: v in ring ==> minX <= v.x <= maxX && minY <= v.y <= maxY
  }

  // Left of the box, crossing is straddling, and straddles along a path telescope.
  lemma {:induction false} StraddlesTelescope(path: seq<Point>, p: Point, minX: real)
    requires path != []
    requires p.x < minX && forall v :: v in path ==> minX <= v.x
    ensures OddCrossings(path, p) == Straddles(path[0], path[|path| - 1], p.y)
  {
    var n := |path|;
    if n >= 2 {
      var front := path[..n - 1];
      StraddlesTelescope(front, p, minX);
      var a, b := path[n - 1], path[n - 2];
      if Straddles(a, b, p.y) {
        MeetBetween(a, b, p.y, minX, if a.x > b.x then a.x else b.x);
      }
    }
  }

  lemma {:induction false} OddCrossingsWitness(path: seq<Point>, p: Point)
    requires OddCrossings(path, p)
    ensures exists i :: 1 <= i < |path| && Crosses(path[i], path[i - 1], p)
  {
    var n := |path|;
    if Crosses(path[n - 1], path[n - 2], p) {
    } else {
      OddCrossingsWitness(path[..n - 1], p);
      var i :| 1 <= i < n - 1 && Crosses(path[..n - 1][i], path[..n - 1][i - 1], p);
      assert Crosses(path[i], path[i - 1], p);
    }
  }

  /** A contained point lies in the half-open bounding box of the ring's vertices. */
  lemma InsideImpliesBox(ring: Ring, p: Point, minX: real, minY: real, maxX: real, maxY: real)
    requires Inside(ring, p) && RingInBox(ring, minX, minY, maxX, maxY)
    ensures minX <= p.x < maxX && minY <= p.y < maxY
  {
    var path := Loop(ring);
    OddCrossingsWitness(path, p);
    var i :| 1 <= i < |path| && Crosses(path[i], path[i - 1], p);
    assert path[i] in ring && path[i - 1] in ring;
    MeetBetween(path[i], path[i - 1], p.y, minX, maxX);
    if p.x < minX {
      StraddlesTelescope(path, p, minX);
    }
  }
}
