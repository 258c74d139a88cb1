/** Exactly when a boundary edit can make a cache hit stale: the key leaves the boundary
    out, so a hit may return a gap of a former boundary. */
module Stale {
  import opened Wrappers
  import opened Plane
  import opened Coverage
  import opened Grounds
  import opened CacheKey
  import opened StateGraphs
  import opened Records
  import opened Workflow
  import opened Requests
  import opened Safety
  import opened Cache
  import opened Walks

  /** A detection that read the boundary `after` is about to return a gap computed on the
      boundary `before`, and a fresh computation would not give that gap's record. */
  ghost predicate StaleHit(
      s: Sys, t: nat, row: Id, areaId: Id, before: Polygon, after: Polygon, resolution: real)
  {
    && Hits(s, t, row) && t in s.calls && s.calls[t].DetectLookup? && row in s.gaps && row in s.gapHistory
    && s.calls[t].request.areaId == areaId && Resolution(s.calls[t].request, s.calls[t].area) == resolution
    && s.gapHistory[row].boundary == before && s.calls[t].area.fields.boundary == after
    && !HoldsScore(s.gaps[row].facts, FreshScore(s.calls[t]))
  }

  /** Some continuation reaches a stale hit. */
  ghost predicate CanGoStale(s: Sys, areaId: Id, before: Polygon, after: Polygon, resolution: real) {
    exists actions, t, row :: StaleHit(After(s, actions), t, row, areaId, before, after, resolution)
  }

  /** Requests in range reach one. */
  ghost predicate CanGoStaleInRange(s: Sys, areaId: Id, before: Polygon, after: Polygon, resolution: real) {
    exists actions, t, row ::
      AllInRange(actions) && StaleHit(After(s, actions), t, row, areaId, before, after, resolution)
  }

  // ---- no stale hit on the same ground ----

  lemma StaleMeansOtherGround(s: Sys, areaId: Id, before: Polygon, after: Polygon, resolution: real)
    requires Safe(s) && CacheFaithful(s) && CanGoStale(s, areaId, before, after, resolution)
    ensures GroundOf(before, resolution).Some? && GroundOf(after, resolution) != GroundOf(before, resolution)
  {
    hide GroundOf, Hits, HoldsScore, After, Safe, CacheFaithful;
    var actions, t, row :| StaleHit(After(s, actions), t, row, areaId, before, after, resolution);
    HitIsFresh(s, actions, t, row);
  }

  // ---- a stale hit on any other ground ----

  lemma OneRunSeen(s: Sys, run: Id, areaId: Id)
    requires run in s.runs
    ensures TracksOf(LoadedRun(s, run, areaId)) == [TrackOf(run, s.runs[run].facts)]
    ensures Checksums(LoadedRun(s, run, areaId)) == [s.runs[run].facts.checksum]
  {
  }

  lemma LookupHits(s: Sys, u: nat, request: DetectRequest, area: Area, loaded: seq<Loaded>, row: Id)
    requires u in s.calls && s.calls[u] == DetectLookup(request, area, loaded)
    requires row in s.gaps && s.gaps[row].facts.key == KeyOf(request, area, loaded)
    ensures Hits(s, u, row)
  {
    hide KeyOf;
    assert HasKey(s.gaps, KeyOf(request, area, loaded));
  }

  /** One client detects over one run, edits the area, and detects again: the second
      detection is about to return the gap of the first. */
  lemma DetectEditDetect(
      s: Sys, u: nat, request: DetectRequest, run: Id, row: Id, fields: AreaFields, text: string, res: CoverageResult)
    returns (actions: seq<Action>)
    requires u !in s.calls && row !in s.gaps && request.resolution != 0.0
    requires DetectionAcceptable(s, request) && OneRunRequested(s, request, run)
    requires var current := s.areas[request.areaId].fields;
             && current.status != ARCHIVED && ValidPolygon(current.boundary) && fields.crs == current.crs
             && Score(current.boundary, [TrackOf(run, s.runs[run].facts)], request.resolution) == Ok(res)
    requires ValidStatus(fields.status) && AreaGeometryError(fields) == None
    requires !HasKey(s.gaps, KeyOf(request, s.areas[request.areaId], LoadedRun(s, run, request.areaId)))
    ensures var now := After(s, actions);
            && Hits(now, u, row) && row in now.gaps && row in now.gapHistory
            && HoldsScore(now.gaps[row].facts, Ok(res))
            && now.gapHistory[row].boundary == s.areas[request.areaId].fields.boundary
            && u in now.calls && now.calls[u].DetectLookup? && now.calls[u].request == request
            && now.calls[u].area.fields == fields
            && FreshScore(now.calls[u]) == Score(fields.boundary, [TrackOf(run, s.runs[run].facts)], request.resolution)
    ensures DetectInRange(request) && s.areas[request.areaId].version > 0 && AreaInRange(fields) ==>
              AllInRange(actions)
  {
    hide DetectInRange, AreaInRange, AllInRange;
    hide Score, After, Step, ValidPolygon, AreaGeometryError, KeyOf, Hits, HasKey, LoadedRun, TracksOf, ValidLines,
         NewGap, NewGapHistory, Projected;
    var id := request.areaId;
    var area, loaded := s.areas[id], LoadedRun(s, run, id);
    OneRunSeen(s, run, id);
    var a1 := DetectUpToLookup(s, u, request, run);
    var a2 := MissAndInsert(s, u, request, area, loaded, row, text, res);
    AfterConcat(s, a1, a2);
    var s2 := After(s, a1 + a2);
    NewGapHolds(request, area, loaded, text, res);
    GeometryNeedsProjection(fields);
    var a3 := AreaEditOnce(s2, u, id, fields);
    var s3 := After(s2, a3);
    RequestStands(s, s3, request, run);
    var a4 := DetectUpToLookup(s3, u, request, run);
    AfterConcat(s, a1 + a2, a3);
    AfterConcat(s, a1 + a2 + a3, a4);
    InRangeConcat(a1, a2);
    InRangeConcat(a1 + a2, a3);
    InRangeConcat(a1 + a2 + a3, a4);
    actions := a1 + a2 + a3 + a4;
    SameKey(request, area, s3.areas[id], loaded);
    LookupHits(After(s, actions), u, request, s3.areas[id], loaded, row);
  }

  lemma NewGapHolds(request: DetectRequest, area: Area, loaded: seq<Loaded>, text: string, res: CoverageResult)
    ensures HoldsScore(NewGap(request, area, loaded, text, res).facts, Ok(res))
    ensures NewGap(request, area, loaded, text, res).facts.key == KeyOf(request, area, loaded)
    ensures NewGapHistory(area, loaded, text).boundary == area.fields.boundary
  {
    hide KeyOf, Uniqued;
  }

  lemma GeometryNeedsProjection(fields: AreaFields)
    requires AreaGeometryError(fields) == None
    ensures Projected(fields.crs) && ValidPolygon(fields.boundary)
  {
  }

  lemma RequestStands(s: Sys, s': Sys, request: DetectRequest, run: Id)
    requires OneRunRequested(s, request, run) && s'.runs == s.runs && s'.plans == s.plans
    ensures OneRunRequested(s', request, run)
    ensures LoadedRun(s', run, request.areaId) == LoadedRun(s, run, request.areaId)
  {
  }

  lemma SameKey(request: DetectRequest, area: Area, area': Area, loaded: seq<Loaded>)
    requires request.resolution != 0.0 && area'.fields.crs == area.fields.crs
    ensures KeyOf(request, area', loaded) == KeyOf(request, area, loaded)
  {
  }

  // ---- a fresh processed run ----

  lemma {:induction false} LongerThanAll(used: set<string>) returns (n: nat)
    ensures forall x :: x in used ==> |x| < n
    decreases |used|
  {
    if used == {} {
      n := 0;
    } else {
      var x :| x in used;
      var rest := LongerThanAll(used - {x});
      n := if rest > |x| then rest else |x| + 1;
      assert forall y :: y in used ==> y == x || y in used - {x};
    }
  }

  // A text that no run uses and no cache key lists alone.
  lemma FreshText(s: Sys) returns (c: string)
    ensures !HasChecksum(s.runs, c) && !HasCode(s.runs, c)
    ensures forall id :: id in s.gaps ==> s.gaps[id].facts.key.checksums != [c]
  {
    var checksums := set id | id in s.runs :: s.runs[id].facts.checksum;
    var codes := set id | id in s.runs :: s.runs[id].facts.code;
    var listed := set id | id in s.gaps && s.gaps[id].facts.key.checksums != [] :: s.gaps[id].facts.key.checksums[0];
    var n := LongerThanAll(checksums + codes + listed);
    c := seq(n, _ => '0');
    assert c !in checksums + codes + listed;
  }

  const CONTENT: PlanContent := PlanContent("plan", [[Point(0.0, 0.0), Point(0.0, 0.0)]], 0.0, 1.0, 1.0)

  lemma LockedPlanMade(s: Sys, u: nat, areaId: Id, row: Id) returns (actions: seq<Action>)
    requires u !in s.calls && areaId in s.areas && s.areas[areaId].fields.status != ARCHIVED && row !in s.plans
    ensures After(s, actions) == s.(plans := s.plans[row := Plan(areaId, CONTENT, Locked, 2, 0)])
    ensures areaId > 0 ==> AllInRange(actions)
  {
    assert ContentInRange(CONTENT);
    hide After, AllInRange, ContentInRange;
    var a := AddPlanOnce(s, u, areaId, CONTENT, row);
    var b := LockOnce(After(s, a), u, row);
    AfterConcat(s, a, b);
    InRangeConcat(a, b);
    actions := a + b;
  }

  lemma ProcessedRunMade(s: Sys, u: nat, facts: RunFacts, row: Id) returns (actions: seq<Action>)
    requires u !in s.calls && RunAcceptable(s, facts) && row !in s.runs && facts.navigation != NavInvalid
    requires !HasChecksum(s.runs, facts.checksum) && !HasCode(s.runs, facts.code)
    ensures After(s, actions)
         == s.(runs := s.runs[row := Run(facts, Processed, 4, 0)], runHistory := After(s, actions).runHistory)
    ensures ImportInRange(facts) ==> AllInRange(actions)
  {
    hide After, Moved, HasChecksum, HasCode, AllInRange, ImportInRange;
    var a := ImportOnce(s, u, facts, row);
    var b := MoveOnce(After(s, a), u, row, QualityChecked);
    var c := MoveOnce(After(After(s, a), b), u, row, Processing);
    var d := MoveOnce(After(After(After(s, a), b), c), u, row, Processed);
    AfterConcat(s, a, b);
    AfterConcat(s, a + b, c);
    AfterConcat(s, a + b + c, d);
    InRangeConcat(a, b);
    InRangeConcat(a + b, c);
    InRangeConcat(a + b + c, d);
    actions := a + b + c + d;
  }

  lemma FreshKey(s: Sys, request: DetectRequest, area: Area, loaded: seq<Loaded>, c: string)
    requires Checksums(loaded) == [c] && forall id :: id in s.gaps ==> s.gaps[id].facts.key.checksums != [c]
    ensures !HasKey(s.gaps, KeyOf(request, area, loaded))
  {
    assert [c][1..] == [];
    assert Sorted([c]) == [c];
  }

  /** A processed run of its own on an area: its code, lines and swath are up to the client. */
  lemma FreshRunOnArea(s: Sys, u: nat, areaId: Id, run: Id, lines: seq<Line>, swath: real, code: string)
    returns (actions: seq<Action>, facts: RunFacts)
    requires u !in s.calls && areaId in s.areas && s.areas[areaId].fields.status != ARCHIVED && run !in s.runs
    requires ValidLines(lines) && !HasCode(s.runs, code)
    ensures facts.lines == lines && facts.swath == swath
    ensures var now := After(s, actions);
            && now == s.(plans := now.plans, runs := now.runs, runHistory := now.runHistory)
            && run in now.runs && now.runs[run] == Run(facts, Processed, 4, 0)
            && facts.planId in now.plans && now.plans[facts.planId].areaId == areaId
    ensures forall id :: id in s.gaps ==> s.gaps[id].facts.key.checksums != [facts.checksum]
    ensures areaId > 0 && LengthWithin(code, 3, 48) && 0.0 < swath <= 2000.0 ==> AllInRange(actions)
  {
    hide After, HasChecksum, HasCode, AllInRange;
    var plan := FreshId(s.plans.Keys);
    var c := FreshText(s);
    facts := RunFacts(plan, code, lines, swath, 0, 1, NavGood, c);
    var a := LockedPlanMade(s, u, areaId, plan);
    var b := ProcessedRunMade(After(s, a), u, facts, run);
    AfterConcat(s, a, b);
    InRangeConcat(a, b);
    actions := a + b;
  }

  /** An area, a resolution and a run code as the handlers accept them. */
  predicate EditInRange(area: Area, areaId: Id, resolution: real, code: string) {
    && areaId > 0 && area.version > 0 && AreaInRange(area.fields) && resolution <= 100.0
    && LengthWithin(code, 3, 48)
  }

  /** The witness run: any run code that is not taken will do. */
  lemma OtherGroundCanGoStale(s: Sys, areaId: Id, after: Polygon, resolution: real, code: string)
    requires !HasCode(s.runs, code)
    requires areaId in s.areas && s.areas[areaId].fields.status != ARCHIVED
    requires ValidPolygon(s.areas[areaId].fields.boundary)
    requires AreaGeometryError(s.areas[areaId].fields.(boundary := after)) == None
    requires GroundOf(s.areas[areaId].fields.boundary, resolution).Some?
    requires GroundOf(after, resolution) != GroundOf(s.areas[areaId].fields.boundary, resolution)
    ensures CanGoStale(s, areaId, s.areas[areaId].fields.boundary, after, resolution)
    ensures EditInRange(s.areas[areaId], areaId, resolution, code) ==>
              CanGoStaleInRange(s, areaId, s.areas[areaId].fields.boundary, after, resolution)
  {
    hide Score, After, Step, ValidPolygon, AreaGeometryError, KeyOf, Hits, HasKey, OneRunRequested, GroundOf,
         FreshScore, SameRecord, Projected, HoldsScore;
    var u := FreshId(s.calls.Keys);
    var run := FreshId(s.runs.Keys);
    var row := FreshId(s.gaps.Keys);
    var area := s.areas[areaId];
    var before := area.fields.boundary;
    var lines, swath := TellApart(before, after, resolution, run);
    var a, facts := FreshRunOnArea(s, u, areaId, run, lines, swath, code);
    var s1 := After(s, a);
    var request := DetectRequest(areaId, [run], "grid-v1", resolution, "idempotent-key");
    var fields := area.fields.(boundary := after);
    StatusIsNotGeometry(fields, "active");
    GeometryNeedsProjection(fields);
    AnalysableIsPositive(before, resolution);
    FreshRunRequested(s1, request, run);
    OneRunSeen(s1, run, areaId);
    FreshKey(s1, request, area, LoadedRun(s1, run, areaId), facts.checksum);
    var one := Score(before, [TrackOf(run, facts)], resolution);
    var b := DetectEditDetect(s1, u, request, run, row, fields.(status := "active"), "text", one.value);
    AfterConcat(s, a, b);
    InRangeConcat(a, b);
    DetectionInRange(area, request, fields, code);
    hide AllInRange, DetectInRange, AreaInRange;
    var now := After(s, a + b);
    OtherRecord(now.gaps[row].facts, one.value, FreshScore(now.calls[u]));
    assert StaleHit(After(s, a + b), u, row, areaId, before, after, resolution);
  }

  lemma DetectionInRange(area: Area, request: DetectRequest, fields: AreaFields, code: string)
    requires request.resolution > 0.0 && |request.runIds| == 1 && request.runIds[0] > 0
    requires request.algorithm == "grid-v1" && fields == area.fields.(boundary := fields.boundary)
    ensures EditInRange(area, request.areaId, request.resolution, code) ==>
              DetectInRange(request) && AreaInRange(fields.(status := "active"))
  {
  }

  lemma AnalysableIsPositive(boundary: Polygon, resolution: real)
    requires GroundOf(boundary, resolution).Some?
    ensures resolution > 0.0
  {
  }

  lemma FreshRunRequested(s: Sys, request: DetectRequest, run: Id)
    requires request.runIds == [run] && run in s.runs && s.runs[run].state == Processed
    requires ValidLines(s.runs[run].facts.lines)
    requires s.runs[run].facts.planId in s.plans && s.plans[s.runs[run].facts.planId].areaId == request.areaId
    ensures OneRunRequested(s, request, run)
  {
  }

  lemma OtherRecord(facts: GapFacts, one: CoverageResult, two: Result<CoverageResult, GeometryError>)
    requires HoldsScore(facts, Ok(one)) && !(two.Ok? && SameRecord(one, two.value))
    ensures !HoldsScore(facts, two)
  {
  }

  /** Replacing an area's boundary can make a later hit stale, in some continuation, exactly
      when the old boundary can be analysed at the resolution and the new one offers other
      ground: other inside cell centres, another middle or another area. */
  lemma BoundaryEditStales(s: Sys, areaId: Id, after: Polygon, resolution: real)
    requires Safe(s) && CacheFaithful(s)
    requires areaId in s.areas && s.areas[areaId].fields.status != ARCHIVED
    requires ValidPolygon(s.areas[areaId].fields.boundary)
    requires AreaGeometryError(s.areas[areaId].fields.(boundary := after)) == None
    ensures var before := s.areas[areaId].fields.boundary;
            CanGoStale(s, areaId, before, after, resolution)
            <==> GroundOf(before, resolution).Some? && GroundOf(after, resolution) != GroundOf(before, resolution)
  {
    hide GroundOf, CanGoStale, Safe, CacheFaithful, AreaGeometryError, ValidPolygon;
    var before := s.areas[areaId].fields.boundary;
    if CanGoStale(s, areaId, before, after, resolution) {
      StaleMeansOtherGround(s, areaId, before, after, resolution);
    } else if GroundOf(before, resolution).Some? && GroundOf(after, resolution) != GroundOf(before, resolution) {
      var code := FreshText(s);
      OtherGroundCanGoStale(s, areaId, after, resolution, code);
    }
  }

  /** The same for requests in range, as long as some run code in range is not taken. */
  lemma BoundaryEditStalesInRange(s: Sys, areaId: Id, after: Polygon, resolution: real, code: string)
    requires Safe(s) && CacheFaithful(s)
    requires areaId in s.areas && s.areas[areaId].fields.status != ARCHIVED
    requires ValidPolygon(s.areas[areaId].fields.boundary)
    requires AreaGeometryError(s.areas[areaId].fields.(boundary := after)) == None
    requires EditInRange(s.areas[areaId], areaId, resolution, code) && !HasCode(s.runs, code)
    ensures var before := s.areas[areaId].fields.boundary;
            CanGoStaleInRange(s, areaId, before, after, resolution)
            <==> GroundOf(before, resolution).Some? && GroundOf(after, resolution) != GroundOf(before, resolution)
  {
    var before := s.areas[areaId].fields.boundary;
    InRangeIsSome(s, areaId, before, after, resolution);
    hide GroundOf, CanGoStale, CanGoStaleInRange, Safe, CacheFaithful, AreaGeometryError, ValidPolygon, EditInRange;
    if CanGoStaleInRange(s, areaId, before, after, resolution) {
      StaleMeansOtherGround(s, areaId, before, after, resolution);
    } else if GroundOf(before, resolution).Some? && GroundOf(after, resolution) != GroundOf(before, resolution) {
      OtherGroundCanGoStale(s, areaId, after, resolution, code);
    }
  }

  lemma InRangeIsSome(s: Sys, areaId: Id, before: Polygon, after: Polygon, resolution: real)
    ensures CanGoStaleInRange(s, areaId, before, after, resolution) ==>
              CanGoStale(s, areaId, before, after, resolution)
  {
    hide StaleHit, After, AllInRange;
  }

  /** In particular, sending the same polygon again, with its rings rotated, reversed, closed
      or opened in any combination, makes no hit stale at any resolution. */
  lemma RedrawingIsHarmless(s: Sys, areaId: Id, before: Polygon, after: Polygon, resolution: real)
    requires Safe(s) && CacheFaithful(s) && Redrawn(before, after)
    ensures !CanGoStale(s, areaId, before, after, resolution)
  {
    hide GroundOf, CanGoStale, Safe, CacheFaithful;
    RedrawnSameGround(before, after, resolution);
    if CanGoStale(s, areaId, before, after, resolution) {
      StaleMeansOtherGround(s, areaId, before, after, resolution);
    }
  }
}
