/** Detection as a content-addressed cache in front of the coverage engine. */
module Cache {
  import opened Wrappers
  import opened Shuffles
  import opened Tracks
  import opened Coverage
  import opened Scores
  import opened Grounds
  import opened CacheKey
  import opened StateGraphs
  import opened Records
  import opened Workflow
  import opened Writes
  import opened Growth
  import opened Safety

  ghost predicate AllStored(runs: map<Id, Run>, ids: seq<Id>) {
    forall k :: 0 <= k < |ids| ==> ids[k] in runs
  }

  ghost function StoredTracks(runs: map<Id, Run>, ids: seq<Id>): seq<Track>
    requires AllStored(runs, ids)
  {
    seq(|ids|, (k: nat) requires k < |ids| => TrackOf(ids[k], runs[ids[k]].facts))
  }

  ghost function StoredChecksums(runs: map<Id, Run>, ids: seq<Id>): seq<string>
    requires AllStored(runs, ids)
  {
    seq(|ids|, (k: nat) requires k < |ids| => runs[ids[k]].facts.checksum)
  }

  /** A stored gap is the score of what its detection saw, filed under its key. */
  ghost predicate GapFaithful(s: Sys, g: Gap, h: GapHistory) {
    && NoDuplicates(h.loaded) && AllStored(s.runs, h.loaded)
    && Members(h.loaded) == Members(g.facts.sources)
    && g.facts.key.areaId == g.facts.areaId && g.facts.key.algorithm == g.facts.algorithm
    && g.facts.key.checksums == Sorted(StoredChecksums(s.runs, h.loaded))
    && HoldsScore(g.facts, Score(h.boundary, StoredTracks(s.runs, h.loaded), g.facts.key.resolution))
  }

  /** The measurements and geometry of the facts are those of the score. */
  ghost predicate HoldsScore(facts: GapFacts, score: Result<CoverageResult, GeometryError>) {
    && score.Ok?
    && facts.gap == score.value.gap && facts.coverage == score.value.coverage && facts.overlap == score.value.overlap
    && facts.gapRing == score.value.gapRing && facts.recommended == score.value.recommended
    && facts.areaSquareM == score.value.area * score.value.gap
  }

  ghost predicate CacheFaithful(s: Sys) {
    s.gapHistory.Keys == s.gaps.Keys && forall id :: id in s.gaps ==> GapFaithful(s, s.gaps[id], s.gapHistory[id])
  }

  // ---- stored runs never change what a detection sees ----

  lemma StoredStable(s: Sys, s': Sys, ids: seq<Id>)
    requires Grows(s, s') && AllStored(s.runs, ids)
    ensures AllStored(s'.runs, ids)
    ensures StoredTracks(s'.runs, ids) == StoredTracks(s.runs, ids)
    ensures StoredChecksums(s'.runs, ids) == StoredChecksums(s.runs, ids)
  {
    forall k | 0 <= k < |ids|
      ensures ids[k] in s'.runs && s'.runs[ids[k]].facts == s.runs[ids[k]].facts
    {
      assert RunLater(s.runs[ids[k]], s'.runs[ids[k]]);
    }
  }

  lemma GapFaithfulStable(s: Sys, s': Sys, g: Gap, g': Gap, h: GapHistory, h': GapHistory)
    requires Grows(s, s') && GapFaithful(s, g, h)
    requires g'.facts == g.facts && h'.loaded == h.loaded && h'.boundary == h.boundary
    ensures GapFaithful(s', g', h')
  {
    StoredStable(s, s', h.loaded);
  }

  // ---- a new gap ----

  lemma LoadedIsStored(s: Sys, request: DetectRequest, loaded: seq<Loaded>)
    requires SelectionOk(s, request, loaded)
    ensures AllStored(s.runs, LoadedIds(loaded))
    ensures TracksOf(loaded) == StoredTracks(s.runs, LoadedIds(loaded))
    ensures Checksums(loaded) == StoredChecksums(s.runs, LoadedIds(loaded))
  {
    forall k | 0 <= k < |loaded|
      ensures loaded[k].id in s.runs && loaded[k].run.facts == s.runs[loaded[k].id].facts
    {
      assert LoadedOk(s, request.areaId, loaded[k]);
    }
  }

  lemma NewGapFaithful(
      s: Sys, request: DetectRequest, area: Area, loaded: seq<Loaded>, res: CoverageResult, g: Gap, h: GapHistory)
    requires SelectionOk(s, request, loaded)
    requires Score(area.fields.boundary, TracksOf(loaded), Resolution(request, area)) == Ok(res)
    requires g.facts == FactsOf(request, Uniqued(request.runIds), KeyOf(request, area, loaded), res)
    requires h.boundary == area.fields.boundary && h.loaded == LoadedIds(loaded)
    ensures GapFaithful(s, g, h)
  {
    hide Score, Sorted, Uniqued, Resolution;
    LoadedIsStored(s, request, loaded);
    SameMembers(request.runIds, Uniqued(request.runIds));
  }

  lemma SameMembers(a: seq<Id>, b: seq<Id>)
    requires forall x :: x in a <==> x in b
    ensures Members(a) == Members(b)
  {
  }

  /** The gaps of the new state are old ones with the same facts and detection, or faithful
      in themselves. */
  ghost predicate FaithAccounted(s: Sys, s': Sys) {
    && s'.gapHistory.Keys == s'.gaps.Keys
    && forall id :: id in s'.gaps ==>
         || (id in s.gaps && id in s.gapHistory && s'.gaps[id].facts == s.gaps[id].facts
             && s'.gapHistory[id].loaded == s.gapHistory[id].loaded
             && s'.gapHistory[id].boundary == s.gapHistory[id].boundary)
         || GapFaithful(s', s'.gaps[id], s'.gapHistory[id])
  }

  lemma AccountedStaysFaithful(s: Sys, s': Sys)
    requires Grows(s, s') && CacheFaithful(s) && FaithAccounted(s, s')
    ensures CacheFaithful(s')
  {
    hide Grows, GapFaithful;
    forall id | id in s'.gaps
      ensures GapFaithful(s', s'.gaps[id], s'.gapHistory[id])
    {
      if id in s.gaps && s'.gaps[id].facts == s.gaps[id].facts && s'.gapHistory[id].loaded == s.gapHistory[id].loaded
         && s'.gapHistory[id].boundary == s.gapHistory[id].boundary {
        GapFaithfulStable(s, s', s.gaps[id], s'.gaps[id], s.gapHistory[id], s'.gapHistory[id]);
      }
    }
  }

  lemma DetectInsertAccounted(
      s: Sys, t: nat, request: DetectRequest, area: Area, loaded: seq<Loaded>, row: Id, text: string)
    requires CacheFaithful(s) && SelectionOk(s, request, loaded)
    ensures FaithAccounted(s, StepDetectInsert(s, t, request, area, loaded, row, text).0)
  {
    hide Score, KeyOf, Uniqued, Resolution, StepDetectInsert, GapFaithful, SelectionOk, HasKey, TracksOf;
    var s' := StepDetectInsert(s, t, request, area, loaded, row, text).0;
    DetectInsertWrites(s, t, request, area, loaded, row, text);
    if s' != s && !Ended(s, s', t) {
      SelectionSame(s, s', request, loaded);
      var score := Score(area.fields.boundary, TracksOf(loaded), Resolution(request, area));
      NewGapFaithful(s', request, area, loaded, score.value, s'.gaps[row], s'.gapHistory[row]);
    }
  }

  lemma SelectionSame(s: Sys, s': Sys, request: DetectRequest, loaded: seq<Loaded>)
    requires SelectionOk(s, request, loaded) && s'.runs == s.runs && s'.plans == s.plans
    ensures SelectionOk(s', request, loaded)
  {
    forall l | l in loaded
      ensures LoadedOk(s', request.areaId, l)
    {
      assert LoadedOk(s, request.areaId, l);
    }
  }

  lemma GapReviewAccounted(s: Sys, t: nat, id: Id, expected: nat, target: GapState, note: string, before: Gap)
    requires CacheFaithful(s)
    ensures FaithAccounted(s, StepGapReview(s, t, id, expected, target, note, before).0)
  {
    hide GapFaithful, StepGapReview;
    GapReviewWrites(s, t, id, expected, target, note, before);
  }

  lemma UntouchedAccounted(s: Sys, s': Sys)
    requires CacheFaithful(s) && s'.gaps == s.gaps && s'.gapHistory == s.gapHistory
    ensures FaithAccounted(s, s')
  {
    hide GapFaithful;
  }

  lemma ProceedFaithful(s: Sys, t: nat, call: Call, row: Id, text: string)
    requires CacheFaithful(s) && CallOk(s, call)
    ensures FaithAccounted(s, StepProceed(s, t, call, row, text).0)
  {
    hide StepRunMove, StepRunInsert, StepGapReview, StepDetectInsert, CacheFaithful, FaithAccounted;
    match call
    case GapReview(id, expected, target, note, before) => GapReviewAccounted(s, t, id, expected, target, note, before);
    case DetectInsert(request, area, loaded) => DetectInsertAccounted(s, t, request, area, loaded, row, text);
    case _ => OthersAccounted(s, t, call, row, text);
  }

  lemma OthersAccounted(s: Sys, t: nat, call: Call, row: Id, text: string)
    requires CacheFaithful(s) && !call.GapReview? && !call.DetectInsert?
    ensures FaithAccounted(s, StepProceed(s, t, call, row, text).0)
  {
    hide StepRunMove, StepRunInsert, CacheFaithful, FaithAccounted, HasChecksum, HasCode, Moved;
    match call
    case RunInsert(facts, actor) =>
      RunInsertWrites(s, t, facts, actor, row);
      UntouchedAccounted(s, StepRunInsert(s, t, facts, actor, row).0);
    case RunMove(id, expected, to, before) =>
      RunMoveWrites(s, t, id, expected, to, before);
      UntouchedAccounted(s, StepRunMove(s, t, id, expected, to, before).0);
    case _ =>
      hide StepProceed;
      OthersWrite(s, t, call, row, text);
      UntouchedAccounted(s, StepProceed(s, t, call, row, text).0);
  }

  /** Every step keeps the cache faithful. */
  lemma StepFaithful(s: Sys, a: Action)
    requires CallsOk(s) && CacheFaithful(s)
    ensures CacheFaithful(Step(s, a).0)
  {
    hide Step, StepProceed, CacheFaithful, FaithAccounted, Grows, CallOk;
    StepKeeps(s, a);
    if Proceeds(s, a) {
      assert CallOk(s, s.calls[a.t]);
      StepProceeds(s, a);
      ProceedFaithful(s, a.t, s.calls[a.t], a.row, a.text);
    } else {
      StartsWrite(s, a);
      UntouchedAccounted(s, Step(s, a).0);
    }
    AccountedStaysFaithful(s, Step(s, a).0);
  }

  lemma {:induction false} FaithfulThroughout(s: Sys, actions: seq<Action>)
    requires CallsOk(s) && CacheFaithful(s)
    ensures CacheFaithful(After(s, actions))
  {
    if actions != [] {
      var n := |actions| - 1;
      RunKeeps(s, actions[..n], 0);
      FaithfulThroughout(s, actions[..n]);
      StepFaithful(After(s, actions[..n]), actions[n]);
    }
  }

  // ---- equal keys mean equal tracks ----

  // With unique checksums, two selections with the same checksums are shuffles of each other.
  lemma SameChecksumsSameIds(runs: map<Id, Run>, a: seq<Id>, b: seq<Id>)
    requires RunsUnique(runs) && AllStored(runs, a) && AllStored(runs, b)
    requires multiset(StoredChecksums(runs, a)) == multiset(StoredChecksums(runs, b))
    ensures forall id :: id in a ==> id in b
  {
    forall k | 0 <= k < |a|
      ensures a[k] in b
    {
      var c := StoredChecksums(runs, a)[k];
      assert c in multiset(StoredChecksums(runs, a));
      assert c in multiset(StoredChecksums(runs, b));
      var j :| 0 <= j < |b| && StoredChecksums(runs, b)[j] == c;
      assert b[j] == a[k];
    }
  }

  lemma NoDuplicatesShuffle<T>(a: seq<T>, b: seq<T>)
    requires NoDuplicates(a) && NoDuplicates(b) && forall x :: x in a <==> x in b
    ensures multiset(a) == multiset(b)
  {
    forall x: T
      ensures multiset(a)[x] == multiset(b)[x]
    {
      CountOfMember(a, x);
      CountOfMember(b, x);
    }
  }

  lemma {:induction false} CountOfMember<T>(s: seq<T>, x: T)
    requires NoDuplicates(s)
    ensures multiset(s)[x] == if x in s then 1 else 0
  {
    if s != [] {
      var n := |s| - 1;
      CountOfMember(s[..n], x);
      assert s == s[..n] + [s[n]];
      ConcatAsMultiset(s[..n], [s[n]]);
    }
  }

  lemma {:induction false} TracksShuffle(runs: map<Id, Run>, a: seq<Id>, b: seq<Id>)
    requires AllStored(runs, a) && AllStored(runs, b) && multiset(a) == multiset(b)
    ensures multiset(StoredTracks(runs, a)) == multiset(StoredTracks(runs, b))
    decreases |a|
  {
    if a == [] {
      ShuffleOfEmpty(b);
    } else {
      var n := |a| - 1;
      assert a == a[..n] + [a[n]];
      var k := TakeFromShuffle(a[..n], a[n], b);
      var rest := b[..k] + b[k + 1..];
      TracksShuffle(runs, a[..n], rest);
      SplitTracks(runs, a, b, rest, k);
    }
  }

  lemma SplitTracks(runs: map<Id, Run>, a: seq<Id>, b: seq<Id>, rest: seq<Id>, k: nat)
    requires AllStored(runs, a) && AllStored(runs, b) && a != [] && k < |b|
    requires b[k] == a[|a| - 1] && rest == b[..k] + b[k + 1..]
    requires AllStored(runs, rest) && AllStored(runs, a[..|a| - 1])
    requires multiset(StoredTracks(runs, a[..|a| - 1])) == multiset(StoredTracks(runs, rest))
    ensures multiset(StoredTracks(runs, a)) == multiset(StoredTracks(runs, b))
  {
    var n := |a| - 1;
    assert a == a[..n] + [a[n]] && b == b[..k] + [b[k]] + b[k + 1..];
    TracksConcat(runs, a[..n], [a[n]]);
    TracksConcat(runs, b[..k], [b[k]]);
    TracksConcat(runs, b[..k] + [b[k]], b[k + 1..]);
    TracksConcat(runs, b[..k], b[k + 1..]);
  }

  lemma TracksConcat(runs: map<Id, Run>, a: seq<Id>, b: seq<Id>)
    requires AllStored(runs, a + b)
    ensures AllStored(runs, a) && AllStored(runs, b)
    ensures multiset(StoredTracks(runs, a + b)) == multiset(StoredTracks(runs, a)) + multiset(StoredTracks(runs, b))
  {
    forall k | 0 <= k < |a|
      ensures a[k] in runs
    {
      assert (a + b)[k] == a[k];
    }
    forall k | 0 <= k < |b|
      ensures b[k] in runs
    {
      assert (a + b)[|a| + k] == b[k];
    }
    assert StoredTracks(runs, a + b) == StoredTracks(runs, a) + StoredTracks(runs, b);
    ConcatAsMultiset(StoredTracks(runs, a), StoredTracks(runs, b));
  }

  /** Two selections of stored runs with the same checksums score alike. */
  lemma SameChecksumsSameScore(s: Sys, boundary: Polygon, a: seq<Id>, b: seq<Id>, resolution: real)
    requires RunsUnique(s.runs) && NoDuplicates(a) && NoDuplicates(b) && AllStored(s.runs, a) && AllStored(s.runs, b)
    requires multiset(StoredChecksums(s.runs, a)) == multiset(StoredChecksums(s.runs, b))
    ensures Members(a) == Members(b)
    ensures Score(boundary, StoredTracks(s.runs, a), resolution) == Score(boundary, StoredTracks(s.runs, b), resolution)
  {
    hide Score, RunsUnique;
    SameChecksumsSameIds(s.runs, a, b);
    SameChecksumsSameIds(s.runs, b, a);
    NoDuplicatesShuffle(a, b);
    TracksShuffle(s.runs, a, b);
    ScorePermutes(boundary, StoredTracks(s.runs, a), StoredTracks(s.runs, b), resolution);
  }

  // Unique checksums are listed once each.
  lemma ChecksumsOnce(runs: map<Id, Run>, ids: seq<Id>)
    requires RunsUnique(runs) && NoDuplicates(ids) && AllStored(runs, ids)
    ensures NoDuplicates(StoredChecksums(runs, ids))
  {
  }

  lemma ChecksumsOfMembers(runs: map<Id, Run>, a: seq<Id>, b: seq<Id>)
    requires AllStored(runs, a) && AllStored(runs, b) && Members(a) == Members(b)
    ensures forall c :: c in StoredChecksums(runs, a) ==> c in StoredChecksums(runs, b)
  {
    forall k | 0 <= k < |a|
      ensures StoredChecksums(runs, a)[k] in StoredChecksums(runs, b)
    {
      assert a[k] in Members(a);
      assert a[k] in Members(b);
      var j :| 0 <= j < |b| && b[j] == a[k];
      assert StoredChecksums(runs, b)[j] == StoredChecksums(runs, a)[k];
    }
  }

  /** Two detections that loaded their runs ask for one key exactly when they agree in area,
      coordinate system, algorithm, resolution and set of runs. */
  lemma SameKeyExactly(s: Sys, one: Call, two: Call)
    requires one.DetectLookup? && two.DetectLookup? && RunsUnique(s.runs)
    requires SelectionOk(s, one.request, one.loaded) && SelectionOk(s, two.request, two.loaded)
    ensures KeyOf(one.request, one.area, one.loaded) == KeyOf(two.request, two.area, two.loaded) <==>
            && one.request.areaId == two.request.areaId && one.area.fields.crs == two.area.fields.crs
            && one.request.algorithm == two.request.algorithm
            && Resolution(one.request, one.area) == Resolution(two.request, two.area)
            && Members(one.request.runIds) == Members(two.request.runIds)
  {
    var a, b := LoadedIds(one.loaded), LoadedIds(two.loaded);
    LoadedIsStored(s, one.request, one.loaded);
    LoadedIsStored(s, two.request, two.loaded);
    KeyIsCanonical(one.request.areaId, one.area.fields.crs, one.request.algorithm, Checksums(one.loaded),
                   Resolution(one.request, one.area), two.request.areaId, two.area.fields.crs, two.request.algorithm,
                   Checksums(two.loaded), Resolution(two.request, two.area));
    hide Resolution, StableInput, Checksums, LoadedIds, AllStored, StoredChecksums, RunsUnique;
    if multiset(StoredChecksums(s.runs, a)) == multiset(StoredChecksums(s.runs, b)) {
      MembersByChecksum(s.runs, a, b);
    }
    if Members(a) == Members(b) {
      ChecksumsOnce(s.runs, a);
      ChecksumsOnce(s.runs, b);
      ChecksumsOfMembers(s.runs, a, b);
      ChecksumsOfMembers(s.runs, b, a);
      NoDuplicatesShuffle(StoredChecksums(s.runs, a), StoredChecksums(s.runs, b));
    }
  }

  lemma MembersByChecksum(runs: map<Id, Run>, a: seq<Id>, b: seq<Id>)
    requires RunsUnique(runs) && AllStored(runs, a) && AllStored(runs, b)
    requires multiset(StoredChecksums(runs, a)) == multiset(StoredChecksums(runs, b))
    ensures Members(a) == Members(b)
  {
    SameChecksumsSameIds(runs, a, b);
    SameChecksumsSameIds(runs, b, a);
  }

  // ---- what an idempotent hit returns ----

  /** A detection that is about to look its key up, and the gap the lookup returns. */
  ghost predicate Hits(s: Sys, t: nat, row: Id) {
    && t in s.calls && s.calls[t].DetectLookup?
    && Step(s, Proceed(t, row, "")).1.ExistingGap?
  }

  ghost function FreshScore(call: Call): Result<CoverageResult, GeometryError>
    requires call.DetectLookup?
  {
    Score(call.area.fields.boundary, TracksOf(call.loaded), Resolution(call.request, call.area))
  }

  lemma HitIsLookup(s: Sys, t: nat, row: Id)
    requires Hits(s, t, row)
    ensures t in s.calls && s.calls[t].DetectLookup?
  {
  }

  lemma HitHasKey(s: Sys, t: nat, row: Id)
    requires Hits(s, t, row)
    ensures row in s.gaps && s.gaps[row].facts.key == KeyOf(s.calls[t].request, s.calls[t].area, s.calls[t].loaded)
    ensures Step(s, Proceed(t, row, "")).1 == ExistingGap(row, s.gaps[row])
  {
    hide KeyOf;
  }

  /** What a hit returns: a gap of the requested area, algorithm, resolution and runs; and
      if the boundary it was computed from offers the ground that the area's boundary
      offers, its ratios and geometry are those a fresh computation returns. */
  ghost predicate HitIsFaithful(call: Call, g: Gap, h: GapHistory)
    requires call.DetectLookup?
  {
    && g.facts.areaId == call.request.areaId && g.facts.algorithm == call.request.algorithm
    && Members(g.facts.sources) == Members(call.request.runIds)
    && g.facts.key.resolution == Resolution(call.request, call.area)
    && GroundOf(h.boundary, g.facts.key.resolution).Some?
    && (GroundOf(call.area.fields.boundary, g.facts.key.resolution) == GroundOf(h.boundary, g.facts.key.resolution) ==>
          HoldsScore(g.facts, FreshScore(call)))
  }

  lemma HitNow(s: Sys, t: nat, row: Id)
    requires CallsOk(s) && RunsUnique(s.runs) && CacheFaithful(s) && Hits(s, t, row)
    ensures t in s.calls && s.calls[t].DetectLookup? && row in s.gaps && row in s.gapHistory
    ensures Step(s, Proceed(t, row, "")).1 == ExistingGap(row, s.gaps[row])
    ensures HitIsFaithful(s.calls[t], s.gaps[row], s.gapHistory[row])
  {
    hide KeyOf, RunsUnique, Hits, Step, SelectionOk, GapFaithful, HitIsFaithful;
    HitIsLookup(s, t, row);
    HitHasKey(s, t, row);
    assert CallOk(s, s.calls[t]);
    HitScore(s, s.calls[t], s.gaps[row], s.gapHistory[row]);
  }

  /** Detection is a faithful cache, in every state any interleaving reaches. */
  lemma HitIsFresh(s: Sys, actions: seq<Action>, t: nat, row: Id)
    requires Safe(s) && CacheFaithful(s) && Hits(After(s, actions), t, row)
    ensures var now := After(s, actions);
            && t in now.calls && now.calls[t].DetectLookup? && row in now.gaps && row in now.gapHistory
            && Step(now, Proceed(t, row, "")).1 == ExistingGap(row, now.gaps[row])
            && HitIsFaithful(now.calls[t], now.gaps[row], now.gapHistory[row])
  {
    hide Step, CallsOk, RunsUnique, CacheFaithful, Hits, HitIsFaithful;
    RunSafeThroughout(s, actions);
    FaithfulThroughout(s, actions);
    HitNow(After(s, actions), t, row);
  }

  lemma HitScore(s: Sys, call: Call, g: Gap, h: GapHistory)
    requires call.DetectLookup? && SelectionOk(s, call.request, call.loaded) && RunsUnique(s.runs)
    requires GapFaithful(s, g, h) && g.facts.key == KeyOf(call.request, call.area, call.loaded)
    ensures HitIsFaithful(call, g, h)
  {
    hide Score, Sorted, RunsUnique, HoldsScore, Resolution, GroundOf, GroundScore;
    var ids := LoadedIds(call.loaded);
    HeldIsScored(g.facts, Score(h.boundary, StoredTracks(s.runs, h.loaded), g.facts.key.resolution));
    ScoredHasTracks(h.boundary, StoredTracks(s.runs, h.loaded), g.facts.key.resolution);
    ScoreSeesGround(h.boundary, StoredTracks(s.runs, h.loaded), g.facts.key.resolution);
    ScoreSeesGround(call.area.fields.boundary, StoredTracks(s.runs, h.loaded), g.facts.key.resolution);
    LoadedIsStored(s, call.request, call.loaded);
    SameSortedSameMultiset(StoredChecksums(s.runs, ids), StoredChecksums(s.runs, h.loaded));
    SameChecksumsSameScore(s, call.area.fields.boundary, ids, h.loaded, g.facts.key.resolution);
  }

  lemma HeldIsScored(facts: GapFacts, score: Result<CoverageResult, GeometryError>)
    requires HoldsScore(facts, score)
    ensures score.Ok?
  {
  }

  lemma ScoredHasTracks(boundary: Polygon, tracks: seq<Track>, resolution: real)
    requires Score(boundary, tracks, resolution).Ok?
    ensures tracks != []
  {
  }

  lemma SameSortedSameMultiset(a: seq<string>, b: seq<string>)
    requires Sorted(a) == Sorted(b)
    ensures multiset(a) == multiset(b)
  {
  }
}
