/** The lines of a generated plan as points: which way they run, where they lie, and when
    there are none. */
module Headings {
  import opened Wrappers
  import opened Plane
  import opened Boxes
  import opened Coverage
  import opened Scores
  import opened Transects

  /** Within 45 degrees of east or of west, the lower end included. */
  predicate NearEastOrWest(heading: real) {
    -45.0 <= heading - 90.0 < 45.0 || -45.0 <= heading - 270.0 < 45.0
  }

  /** A line at one height across the whole width of the box. */
  predicate RunsEastWest(line: Line, b: Box, y: real) {
    line == [Point(b.minX, y), Point(b.maxX, y)] && b.minY < y < b.maxY
  }

  /** A line at one abscissa across the whole height of the box. */
  predicate RunsNorthSouth(line: Line, b: Box, x: real) {
    line == [Point(x, b.minY), Point(x, b.maxY)] && b.minX < x < b.maxX
  }

  lemma OffsetBounds(extent: real, spacing: real, k: nat)
    requires spacing > 0.0 && k < LineCount(extent, spacing)
    ensures 0.0 < Offset(spacing, k) < extent
  {
    LineCountExact(extent, spacing, k);
    MultipleOrder(0, k, spacing);
  }

  /** Near east or west the line runs east and west, otherwise north and south, so far in. */
  predicate LiesAcross(line: Line, b: Box, heading: real, offset: real) {
    if NearEastOrWest(heading) then RunsEastWest(line, b, b.minY + offset)
    else RunsNorthSouth(line, b, b.minX + offset)
  }

  /** The side of the box that the lines run across. */
  function SideAcrossHeading(b: Box, heading: real): real {
    if NearEastOrWest(heading) then b.maxY - b.minY else b.maxX - b.minX
  }

  lemma LineLiesAcross(b: Box, heading: real, offset: real)
    requires 0.0 < offset < Extent(b, heading)
    ensures LiesAcross(TransectLine(b, heading, offset), b, heading, offset)
    ensures Extent(b, heading) == SideAcrossHeading(b, heading)
  {
  }

  /** The first line is half a spacing in, each further one a spacing on, and the last one is
      the last that fits. */
  lemma LinesRun(boundary: Polygon, heading: real, spacing: real, lines: seq<Line>, k: nat)
    requires spacing > 0.0 && Generated(Hull(VertexBoxes(boundary)), heading, spacing) == Ok(lines) && k < |lines|
    ensures Hull(VertexBoxes(boundary)).Some?
    ensures LiesAcross(lines[k], BoundsOf(boundary), heading, spacing / 2.0 + k as real * spacing)
    ensures spacing / 2.0 + (|lines| - 1) as real * spacing
            < SideAcrossHeading(BoundsOf(boundary), heading)
            <= spacing / 2.0 + |lines| as real * spacing
  {
    OffsetIs(spacing, k);
    OffsetIs(spacing, |lines| - 1);
    OffsetIs(spacing, |lines|);
    hide Offset, LineCount, Hull, VertexBoxes, TransectLine, Extent, LiesAcross, SideAcrossHeading;
    GeneratedLines(boundary, heading, spacing);
    var b := BoundsOf(boundary);
    OffsetBounds(Extent(b, heading), spacing, k);
    LineCountExact(Extent(b, heading), spacing, |lines|);
    LineCountExact(Extent(b, heading), spacing, |lines| - 1);
    LineLiesAcross(b, heading, Offset(spacing, k));
    assert lines[k] == TransectLine(b, heading, Offset(spacing, k));
  }

  lemma OffsetIs(spacing: real, k: int)
    ensures Offset(spacing, k) == spacing / 2.0 + k as real * spacing
  {
  }

  /** A plan is refused without a box, with a spacing above both sides of the box, or when
      half a spacing does not fit across; in that order, and in no other case. */
  lemma Refusals(bounds: Option<Box>, heading: real, spacing: real)
    requires spacing > 0.0
    ensures Generated(bounds, heading, spacing) == Err(LineSpacingInvalid) <==>
            bounds.None? || (bounds.value.maxX - bounds.value.minX < spacing
                             && bounds.value.maxY - bounds.value.minY < spacing)
    ensures Generated(bounds, heading, spacing) == Err(NoTransects) <==>
            && bounds.Some?
            && (spacing <= bounds.value.maxX - bounds.value.minX || spacing <= bounds.value.maxY - bounds.value.minY)
            && (if NearEastOrWest(heading) then bounds.value.maxY - bounds.value.minY <= spacing / 2.0
                else bounds.value.maxX - bounds.value.minX <= spacing / 2.0)
  {
    if bounds.Some? {
      var extent := Extent(bounds.value, heading);
      LineCountExact(extent, spacing, 0);
      assert Offset(spacing, 0) == spacing / 2.0;
      assert LineCount(extent, spacing) == 0 <==> extent <= spacing / 2.0;
    }
  }

  // ---- turning the plan ----

  /** A heading turned by some degrees, kept below a full circle. */
  function Turned(heading: real, by_: real): real {
    if heading + by_ >= 360.0 then heading + by_ - 360.0 else heading + by_
  }

  /** A plan sailed the other way has the same lines. */
  lemma HalfTurn(bounds: Option<Box>, heading: real, spacing: real)
    requires spacing > 0.0 && 0.0 <= heading < 360.0
    ensures Generated(bounds, Turned(heading, 180.0), spacing) == Generated(bounds, heading, spacing)
  {
    if bounds.Some? {
      assert TransectLines(bounds.value, Turned(heading, 180.0), spacing)
          == TransectLines(bounds.value, heading, spacing);
    }
  }

  function Transposed(p: Point): Point {
    Point(p.y, p.x)
  }

  function TransposedBox(b: Box): Box {
    Box(b.minY, b.minX, b.maxY, b.maxX)
  }

  function TransposedLine(line: Line): Line {
    seq(|line|, (i: nat) requires i < |line| => Transposed(line[i]))
  }

  function TransposedLines(lines: seq<Line>): seq<Line> {
    seq(|lines|, (k: nat) requires k < |lines| => TransposedLine(lines[k]))
  }

  lemma QuarterTurnLine(b: Box, heading: real, offset: real)
    requires 0.0 <= heading < 360.0
    ensures TransectLine(TransposedBox(b), Turned(heading, 90.0), offset)
         == TransposedLine(TransectLine(b, heading, offset))
  {
    assert Horizontal(Turned(heading, 90.0)) != Horizontal(heading);
  }

  /** A quarter turn transposes the lines of the transposed box. */
  lemma QuarterTurn(b: Box, heading: real, spacing: real)
    requires spacing > 0.0 && 0.0 <= heading < 360.0
    ensures Generated(Some(TransposedBox(b)), Turned(heading, 90.0), spacing) ==
            match Generated(Some(b), heading, spacing)
            case Ok(lines) => Ok(TransposedLines(lines))
            case Err(e) => Err(e)
  {
    var turned := Turned(heading, 90.0);
    assert Horizontal(turned) != Horizontal(heading);
    assert Extent(TransposedBox(b), turned) == Extent(b, heading);
    var lines, lines' := TransectLines(b, heading, spacing), TransectLines(TransposedBox(b), turned, spacing);
    forall k | 0 <= k < |lines|
      ensures lines'[k] == TransposedLine(lines[k])
    {
      QuarterTurnLine(b, heading, Offset(spacing, k));
    }
    assert lines' == TransposedLines(lines);
  }
}
