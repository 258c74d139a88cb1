/** Least bounding boxes.

    The source keeps four accumulators that start at plus and minus infinity; the
    start is `None` here and `Grow` is one round of `math.Min` and `math.Max`. */
module Boxes {
  import opened Wrappers

  datatype Box = Box(minX: real, minY: real, maxX: real, maxY: real)

  function Min(a: real, b: real): real { if b < a then b else a }

  function Max(a: real, b: real): real { if b > a then b else a }

  function Grow(box: Option<Box>, part: Box): Option<Box> {
    match box
    case None => Some(part)
    case Some(b) =>
      Some(Box(Min(b.minX, part.minX), Min(b.minY, part.minY), Max(b.maxX, part.maxX), Max(b.maxY, part.maxY)))
  }

  predicate Contains(outer: Box, inner: Box) {
    && outer.minX <= inner.minX && outer.minY <= inner.minY
    && inner.maxX <= outer.maxX && inner.maxY <= outer.maxY
  }

  /** The box contains every part, and each of its sides touches one. */
  ghost predicate IsHull(box: Option<Box>, parts: set<Box>) {
    match box
    case None => parts == {}
    case Some(b) =>
      && (forall q :: q in parts ==> Contains(b, q))
      && (exists q :: q in parts && q.minX == b.minX)
      && (exists q :: q in parts && q.minY == b.minY)
      && (exists q :: q in parts && q.maxX == b.maxX)
      && (exists q :: q in parts && q.maxY == b.maxY)
  }

  /** The hull of a finite set of boxes. */
  ghost function Hull(parts: set<Box>): (box: Option<Box>)
    ensures IsHull(box, parts)
  {
    if parts == {} then None
    else
      var q :| q in parts;
      GrowKeepsHull(Hull(parts - {q}), parts - {q}, q);
      assert parts - {q} + {q} == parts;
      Grow(Hull(parts - {q}), q)
  }

  lemma GrowKeepsHull(box: Option<Box>, parts: set<Box>, q: Box)
    requires IsHull(box, parts)
    ensures IsHull(Grow(box, q), parts + {q})
  {
    var grown, all := Grow(box, q).value, parts + {q};
    assert q in all;
    if box.Some? {
      var b := box.value;
      var n :| n in parts && n.minX == b.minX;
      var s :| s in parts && s.minY == b.minY;
      var e :| e in parts && e.maxX == b.maxX;
      var w :| w in parts && w.maxY == b.maxY;
      assert n in all && s in all && e in all && w in all;
      assert forall m :: m in all ==> m in parts || m == q;
    }
  }

  /** A set of boxes has one hull. */
  lemma HullIsUnique(box: Option<Box>, parts: set<Box>)
    requires IsHull(box, parts)
    ensures box == Hull(parts)
  {
  }

  /** The hull is the least box around the parts. */
  lemma HullIsLeast(parts: set<Box>, outer: Box)
    requires parts != {} && forall q :: q in parts ==> Contains(outer, q)
    ensures Hull(parts).Some? && Contains(outer, Hull(parts).value)
  {
  }
}
