/** Tracks and the number of tracks that sweep a point. */
module Tracks {
  import opened Plane
  import opened Shuffles

  datatype Track = Track(runId: nat, lines: seq<Line>, swath: real)

  predicate EdgeCovers(line: Line, i: nat, p: Point, swath: real) {
    1 <= i < |line| && SegmentInReach(p, line[i - 1], line[i], swath)
  }

  predicate LineCovers(line: Line, p: Point, swath: real) {
    exists i :: 1 <= i < |line| && EdgeCovers(line, i, p, swath)
  }

  /** Some segment of some line of the track is within half its swath. */
  predicate TrackCovers(track: Track, p: Point) {
    exists k :: 0 <= k < |track.lines| && LineCovers(track.lines[k], p, track.swath)
  }

  /** The indices of the tracks that sweep the point. */
  function Sweepers(tracks: seq<Track>, p: Point): set<nat> {
    set i: nat | i < |tracks| && TrackCovers(tracks[i], p)
  }

  function Passes(tracks: seq<Track>, p: Point): nat {
    |Sweepers(tracks, p)|
  }

  /** `coveragePasses`: three nested loops, the inner two left at the first hit. */
  method CoveragePasses(p: Point, tracks: seq<Track>) returns (passes: nat)
    ensures passes == Passes(tracks, p)
  {
    passes := 0;
    for n := 0 to |tracks|
      invariant passes == Passes(tracks[..n], p)
    {
      var track := tracks[n];
      var covered := false;
      var k := 0;
      while k < |track.lines| && !covered
        invariant 0 <= k <= |track.lines|
        invariant covered ==> TrackCovers(track, p)
        invariant !covered ==> forall j :: 0 <= j < k ==> !LineCovers(track.lines[j], p, track.swath)
        decreases |track.lines| - k, !covered
      {
        var line := track.lines[k];
        var index := 1;
        while index < |line|
          invariant 1 <= index
          invariant !covered
          invariant forall i :: 1 <= i < index && i < |line| ==> !EdgeCovers(line, i, p, track.swath)
        {
          if SegmentInReach(p, line[index - 1], line[index], track.swath) {
            assert EdgeCovers(line, index, p, track.swath);
            covered := true;
            break;
          }
          index := index + 1;
        }
        k := k + 1;
      }
      PassesSnoc(tracks[..n], track, p);
      assert tracks[..n + 1] == tracks[..n] + [track];
      if covered {
        passes := passes + 1;
      }
    }
    assert tracks[..|tracks|] == tracks;
  }

  lemma PassesSnoc(tracks: seq<Track>, track: Track, p: Point)
    ensures Passes(tracks + [track], p) == Passes(tracks, p) + if TrackCovers(track, p) then 1 else 0
  {
    var all := Sweepers(tracks + [track], p);
    if TrackCovers(track, p) {
      assert all == Sweepers(tracks, p) + {|tracks|};
    } else {
      assert all == Sweepers(tracks, p);
    }
  }

  lemma {:induction false} PassesConcat(left: seq<Track>, right: seq<Track>, p: Point)
    ensures Passes(left + right, p) == Passes(left, p) + Passes(right, p)
  {
    if right == [] {
      assert left + right == left;
      assert Sweepers(right, p) == {};
    } else {
      var n := |right| - 1;
      var front, last := right[..n], right[n];
      PassesConcat(left, front, p);
      PassesSnoc(left + front, last, p);
      PassesSnoc(front, last, p);
      assert left + right == left + front + [last];
      assert front + [last] == right;
    }
  }

  /** The order of the tracks does not matter. */
  lemma {:induction false} PassesPermute(tracks: seq<Track>, shuffled: seq<Track>, p: Point)
    requires multiset(tracks) == multiset(shuffled)
    ensures Passes(tracks, p) == Passes(shuffled, p)
    decreases |tracks|
  {
    if tracks == [] {
      ShuffleOfEmpty(shuffled);
    } else {
      var n := |tracks| - 1;
      var front, last := tracks[..n], tracks[n];
      assert tracks == front + [last];
      var k := TakeFromShuffle(front, last, shuffled);
      var left, right := shuffled[..k], shuffled[k + 1..];
      PassesPermute(front, left + right, p);
      PassesSnoc(front, last, p);
      PassesSnoc(left, last, p);
      PassesConcat(left, right, p);
      PassesConcat(left + [last], right, p);
    }
  }

  /** Every track of the one set is outdone by the track at the same place of the other. */
  ghost predicate Outdone(tracks: seq<Track>, wider: seq<Track>) {
    && |tracks| <= |wider|
    && forall i :: 0 <= i < |tracks| ==> tracks[i].lines == wider[i].lines && tracks[i].swath <= wider[i].swath
  }

  lemma WiderCoversMore(track: Track, wider: Track, p: Point)
    requires track.lines == wider.lines && track.swath <= wider.swath
    requires TrackCovers(track, p)
    ensures TrackCovers(wider, p)
  {
    var k :| 0 <= k < |track.lines| && LineCovers(track.lines[k], p, track.swath);
    var line := track.lines[k];
    var i :| 1 <= i < |line| && EdgeCovers(line, i, p, track.swath);
    WiderReachesMore(p, Projection(p, line[i - 1], line[i]), track.swath, wider.swath);
    assert EdgeCovers(line, i, p, wider.swath);
    assert LineCovers(wider.lines[k], p, wider.swath);
  }

  /** Adding tracks and widening swaths never lowers the number of passes. */
  lemma PassesMonotone(tracks: seq<Track>, wider: seq<Track>, p: Point)
    requires Outdone(tracks, wider)
    ensures Passes(tracks, p) <= Passes(wider, p)
  {
    forall i | i in Sweepers(tracks, p)
      ensures i in Sweepers(wider, p)
    {
      WiderCoversMore(tracks[i], wider[i], p);
    }
    SubsetIsSmaller(Sweepers(tracks, p), Sweepers(wider, p));
  }

  /** A track sweeps a point exactly when some point of its polylines is in reach. */
  lemma TrackCoversPointwise(track: Track, p: Point)
    ensures TrackCovers(track, p) <==>
            exists k, i :: 0 <= k < |track.lines| && 1 <= i < |track.lines[k]|
                           && SomePointInReach(p, track.lines[k][i - 1], track.lines[k][i], track.swath)
  {
    if TrackCovers(track, p) {
      var k :| 0 <= k < |track.lines| && LineCovers(track.lines[k], p, track.swath);
      var i :| 1 <= i < |track.lines[k]| && EdgeCovers(track.lines[k], i, p, track.swath);
      SegmentReachIsPointwise(p, track.lines[k][i - 1], track.lines[k][i], track.swath);
    }
    if k, i :| 0 <= k < |track.lines| && 1 <= i < |track.lines[k]|
               && SomePointInReach(p, track.lines[k][i - 1], track.lines[k][i], track.swath) {
      SegmentReachIsPointwise(p, track.lines[k][i - 1], track.lines[k][i], track.swath);
      assert EdgeCovers(track.lines[k], i, p, track.swath);
      assert LineCovers(track.lines[k], p, track.swath);
    }
  }

  function Backwards(line: Line): Line {
    seq(|line|, (i: nat) requires i < |line| => line[|line| - 1 - i])
  }

  /** A line sailed the other way sweeps the same points. */
  lemma LineCoversReversed(line: Line, p: Point, swath: real)
    ensures LineCovers(Backwards(line), p, swath) == LineCovers(line, p, swath)
  {
    var n, back := |line|, Backwards(line);
    if i :| 1 <= i < n && EdgeCovers(line, i, p, swath) {
      SegmentReachReversed(p, line[i - 1], line[i], swath);
      assert EdgeCovers(back, n - i, p, swath);
    }
    if i :| 1 <= i < n && EdgeCovers(back, i, p, swath) {
      SegmentReachReversed(p, back[i - 1], back[i], swath);
      assert EdgeCovers(line, n - i, p, swath);
    }
  }

  /** Inserting a vertex on a segment, degenerate or not, changes nothing. */
  lemma LineCoversSplit(line: Line, i: nat, s: real, p: Point, swath: real)
    requires 1 <= i < |line| && 0.0 <= s <= 1.0
    ensures var m := At(line[i - 1], line[i], s);
            LineCovers(line[..i] + [m] + line[i..], p, swath) == LineCovers(line, p, swath)
  {
    var m := At(line[i - 1], line[i], s);
    var longer := line[..i] + [m] + line[i..];
    SegmentReachSplit(p, line[i - 1], line[i], s, swath);
    assert longer[i - 1] == line[i - 1] && longer[i] == m && longer[i + 1] == line[i];
    if j :| 1 <= j < |line| && EdgeCovers(line, j, p, swath) {
      if j < i {
        assert EdgeCovers(longer, j, p, swath);
      } else if j > i {
        assert EdgeCovers(longer, j + 1, p, swath);
      } else {
        assert EdgeCovers(longer, i, p, swath) || EdgeCovers(longer, i + 1, p, swath);
      }
    }
    if j :| 1 <= j < |longer| && EdgeCovers(longer, j, p, swath) {
      if j < i {
        assert EdgeCovers(line, j, p, swath);
      } else if j > i + 1 {
        assert EdgeCovers(line, j - 1, p, swath);
      } else {
        assert EdgeCovers(line, i, p, swath);
      }
    }
  }

  /** The order of the lines inside a track does not matter. */
  lemma TrackLinesPermute(track: Track, lines: seq<Line>, p: Point)
    requires multiset(lines) == multiset(track.lines)
    ensures TrackCovers(track.(lines := lines), p) == TrackCovers(track, p)
  {
    if TrackCovers(track, p) {
      var k :| 0 <= k < |track.lines| && LineCovers(track.lines[k], p, track.swath);
      assert track.lines[k] in multiset(lines);
      var j :| 0 <= j < |lines| && lines[j] == track.lines[k];
    }
    if TrackCovers(track.(lines := lines), p) {
      var k :| 0 <= k < |lines| && LineCovers(lines[k], p, track.swath);
      assert lines[k] in multiset(track.lines);
      var j :| 0 <= j < |track.lines| && track.lines[j] == lines[k];
    }
  }
}
