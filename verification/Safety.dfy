/** Cross-table safety and uniqueness over every interleaving. */
module Safety {
  import opened CacheKey
  import opened StateGraphs
  import opened Records
  import opened Workflow
  import opened Writes
  import opened Growth

  // ---- what every reachable state satisfies ----

  /** A run's plan is locked, and a run with invalid navigation got nowhere. */
  ghost predicate RunSafe(s: Sys, r: Run) {
    && PlanIsLocked(s, r.facts.planId)
    && (r.facts.navigation == NavInvalid ==> r.state in {Imported, Rejected})
  }

  /** A source of a gap: a run of the gap's area that was processed. */
  ghost predicate SourceSafe(s: Sys, areaId: Id, id: Id) {
    && id in s.runs && s.runs[id].state in {Processed, Superseded}
    && s.runs[id].facts.planId in s.plans && s.plans[s.runs[id].facts.planId].areaId == areaId
  }

  ghost predicate GapSafe(s: Sys, g: Gap) {
    && g.facts.areaId in s.areas
    && NoDuplicates(g.facts.sources)
    && forall id :: id in g.facts.sources ==> SourceSafe(s, g.facts.areaId, id)
  }

  ghost predicate RowsSafe(s: Sys) {
    && (forall id :: id in s.runs ==> RunSafe(s, s.runs[id]))
    && (forall id :: id in s.gaps ==> GapSafe(s, s.gaps[id]))
  }

  /** The unique indexes: area codes, run codes, run checksums and cache keys. */
  ghost predicate KeysUnique(s: Sys) {
    AreasUnique(s.areas) && RunsUnique(s.runs) && GapsUnique(s.gaps)
  }

  ghost predicate AreasUnique(areas: map<Id, Area>) {
    forall a, b :: a in areas && b in areas && areas[a].code == areas[b].code ==> a == b
  }

  ghost predicate RunsUnique(runs: map<Id, Run>) {
    && (forall a, b :: a in runs && b in runs && runs[a].facts.code == runs[b].facts.code ==> a == b)
    && (forall a, b :: a in runs && b in runs && runs[a].facts.checksum == runs[b].facts.checksum ==> a == b)
  }

  ghost predicate GapsUnique(gaps: map<Id, Gap>) {
    forall a, b :: a in gaps && b in gaps && gaps[a].facts.key == gaps[b].facts.key ==> a == b
  }

  // ---- stability ----

  lemma RunSafeStable(s: Sys, s': Sys, r: Run)
    requires Grows(s, s') && RunSafe(s, r)
    ensures RunSafe(s', r)
  {
    assert PlanLater(s.plans[r.facts.planId], s'.plans[r.facts.planId]);
  }

  lemma GapSafeStable(s: Sys, s': Sys, g: Gap, g': Gap)
    requires Grows(s, s') && GapSafe(s, g) && g'.facts == g.facts
    ensures GapSafe(s', g')
  {
    forall id | id in g.facts.sources
      ensures SourceSafe(s', g.facts.areaId, id)
    {
      assert SourceSafe(s, g.facts.areaId, id);
      assert RunLater(s.runs[id], s'.runs[id]);
      assert PlanLater(s.plans[s.runs[id].facts.planId], s'.plans[s.runs[id].facts.planId]);
    }
  }

  /** Every run of the new table is an unchanged old one or safe in itself. */
  ghost predicate RunsAccounted(s: Sys, s': Sys) {
    forall id :: id in s'.runs ==> (id in s.runs && s'.runs[id] == s.runs[id]) || RunSafe(s', s'.runs[id])
  }

  ghost predicate GapsAccounted(s: Sys, s': Sys) {
    forall id :: id in s'.gaps ==> (id in s.gaps && s'.gaps[id].facts == s.gaps[id].facts) || GapSafe(s', s'.gaps[id])
  }

  /** Only the rows a step wrote need looking at. */
  lemma UnwrittenRowsStaySafe(s: Sys, s': Sys)
    requires Grows(s, s') && RowsSafe(s) && RunsAccounted(s, s') && GapsAccounted(s, s')
    ensures RowsSafe(s')
  {
    hide Grows, RunSafe, GapSafe;
    forall id | id in s'.runs
      ensures RunSafe(s', s'.runs[id])
    {
      if id in s.runs && s'.runs[id] == s.runs[id] {
        RunSafeStable(s, s', s.runs[id]);
      }
    }
    forall id | id in s'.gaps
      ensures GapSafe(s', s'.gaps[id])
    {
      if id in s.gaps && s'.gaps[id].facts == s.gaps[id].facts {
        GapSafeStable(s, s', s.gaps[id], s'.gaps[id]);
      }
    }
  }

  // ---- the steps that write runs and gaps ----

  lemma MovedRunSafe(s: Sys, s': Sys, id: Id, to: RunState, before: Run)
    requires Grows(s, s') && RowsSafe(s)
    requires id in s.runs && s.runs[id] == before && to in RunTargets(before.state)
    requires to == QualityChecked ==> before.facts.navigation != NavInvalid
    requires id in s'.runs && s'.runs[id] == before.(state := to, version := before.version + 1)
    ensures RunSafe(s', s'.runs[id])
  {
    assert RunSafe(s, s.runs[id]);
    RunSafeStable(s, s', s.runs[id]);
  }

  lemma RunMoveAccounted(s: Sys, t: nat, id: Id, expected: nat, to: RunState, before: Run)
    requires CallsOk(s) && RowsSafe(s) && CallOk(s, RunMove(id, expected, to, before))
    ensures var s' := StepRunMove(s, t, id, expected, to, before).0;
            Grows(s, s') && RunsAccounted(s, s') && GapsAccounted(s, s')
  {
    hide Grows, RunSafe, GapSafe, CallsOk, RowsSafe, StepRunMove, Moved;
    var s' := StepRunMove(s, t, id, expected, to, before).0;
    RunMoveKeeps(s, t, id, expected, to, before);
    RunMoveWrites(s, t, id, expected, to, before);
    if !Ended(s, s', t) {
      SameStateSameRun(before, s.runs[id]);
      MovedRunSafe(s, s', id, to, before);
    }
  }

  lemma RunInsertAccounted(s: Sys, t: nat, facts: RunFacts, actor: Id, row: Id)
    requires CallsOk(s) && RowsSafe(s) && PlanIsLocked(s, facts.planId)
    ensures var s' := StepRunInsert(s, t, facts, actor, row).0;
            Grows(s, s') && RunsAccounted(s, s') && GapsAccounted(s, s')
  {
    hide Grows, GapSafe, HasChecksum, HasCode, CallsOk, RowsSafe, StepRunInsert;
    RunInsertKeeps(s, t, facts, actor, row);
    RunInsertWrites(s, t, facts, actor, row);
  }

  lemma NewGapSafe(s: Sys, request: DetectRequest, area: Area, loaded: seq<Loaded>, sources: seq<Id>, g: Gap)
    requires AreaRead(s, request.areaId, area) && SelectionOk(s, request, loaded)
    requires IsUniqued(request.runIds, sources) && g.facts.sources == sources && g.facts.areaId == request.areaId
    ensures GapSafe(s, g)
  {
    forall id | id in sources
      ensures SourceSafe(s, request.areaId, id)
    {
      assert id in Members(request.runIds);
      assert id in Members(LoadedIds(loaded));
      var k :| 0 <= k < |loaded| && LoadedIds(loaded)[k] == id;
      assert LoadedOk(s, request.areaId, loaded[k]);
    }
  }

  lemma DetectInsertAccounted(
      s: Sys, t: nat, request: DetectRequest, area: Area, loaded: seq<Loaded>, row: Id, text: string)
    requires CallsOk(s) && RowsSafe(s) && CallOk(s, DetectInsert(request, area, loaded))
    ensures var s' := StepDetectInsert(s, t, request, area, loaded, row, text).0;
            Grows(s, s') && RunsAccounted(s, s') && GapsAccounted(s, s')
  {
    hide StepDetectInsert, HasKey, Uniqued, Grows, RunSafe, GapSafe, RowsSafe, SelectionOk, AreaRead, CallsOk,
         Coverage.Score, KeyOf, TracksOf, Resolution;
    var s' := StepDetectInsert(s, t, request, area, loaded, row, text).0;
    DetectInsertKeeps(s, t, request, area, loaded, row, text);
    DetectInsertWrites(s, t, request, area, loaded, row, text);
    if s'.gaps != s.gaps {
      SelectionStable(s, s', request, loaded);
      AreaReadStable(s, s', request.areaId, area);
      NewGapSafe(s', request, area, loaded, Uniqued(request.runIds), s'.gaps[row]);
    }
  }

  /** A step that writes no run, and of a gap at most its state and explanation. */
  ghost predicate FactsKept(s: Sys, s': Sys) {
    && s'.runs == s.runs
    && s'.gaps.Keys == s.gaps.Keys
    && forall id :: id in s.gaps ==> s'.gaps[id].facts == s.gaps[id].facts
  }

  predicate WritesFacts(call: Call) {
    call.RunMove? || call.RunInsert? || call.DetectInsert?
  }

  lemma ProceedKeepsFacts(s: Sys, t: nat, call: Call, row: Id, text: string)
    requires !WritesFacts(call)
    ensures FactsKept(s, StepProceed(s, t, call, row, text).0)
  {
    hide StepAreaEdit, StepGapReview, StepProceed, Workflow.Reviewed;
    if call.GapReview? {
      ProceedReviews(s, t, call, row, text);
      GapReviewWrites(s, t, call.id, call.expected, call.target, call.note, call.gapBefore);
    } else {
      OthersWrite(s, t, call, row, text);
    }
  }

  lemma ProceedReviews(s: Sys, t: nat, call: Call, row: Id, text: string)
    requires call.GapReview?
    ensures StepProceed(s, t, call, row, text)
         == StepGapReview(s, t, call.id, call.expected, call.target, call.note, call.gapBefore)
  {
  }

  predicate OnPlans(call: Call) {
    call.PlanAdd? || call.PlanEdit? || call.PlanLock? || call.PlanCopy?
  }

  lemma PlanStepsWrite(s: Sys, t: nat, call: Call, row: Id, text: string)
    requires OnPlans(call)
    ensures var s' := StepProceed(s, t, call, row, text).0; s' == s.(plans := s'.plans, calls := s'.calls)
  {
    hide StepPlanAdd, StepPlanEdit, StepPlanLock, StepPlanCopy, CopyOf;
    match call
    case PlanAdd(areaId, content, actor) => PlanAddWrites(s, t, areaId, content, actor, row);
    case PlanEdit(id, expected, content, _) => PlanEditWrites(s, t, id, expected, content);
    case PlanLock(id, expected, _) => PlanLockWrites(s, t, id, expected);
    case PlanCopy(_, actor, before) => PlanCopyWrites(s, t, before, actor, row);
  }

  lemma LookupsWriteNothing(s: Sys, t: nat, call: Call, row: Id, text: string)
    requires call.RunLookup? || call.DetectArea? || call.DetectLookup?
    ensures TablesKept(s, StepProceed(s, t, call, row, text).0)
  {
    hide StepRunLookup, StepDetectLookup;
    match call
    case RunLookup(facts, actor) => RunLookupWrites(s, t, facts, actor, row);
    case DetectLookup(request, area, loaded) => DetectLookupWrites(s, t, request, area, loaded, row);
    case DetectArea(_, _) =>
  }

  lemma AreaStepWrites(s: Sys, t: nat, call: Call, row: Id, text: string)
    requires call.AreaEdit?
    ensures var s' := StepProceed(s, t, call, row, text).0;
            s' == s.(areas := s'.areas, calls := s'.calls) && s'.areas.Keys == s.areas.Keys
  {
    hide StepAreaEdit;
    AreaEditWrites(s, t, call.id, call.expected, call.fields);
  }

  /** Steps that write neither runs nor gaps: at most one area or one plan. */
  lemma OthersWrite(s: Sys, t: nat, call: Call, row: Id, text: string)
    requires !WritesFacts(call) && !call.GapReview?
    ensures var s' := StepProceed(s, t, call, row, text).0;
            s' == s.(areas := s'.areas, plans := s'.plans, calls := s'.calls) && s'.areas.Keys == s.areas.Keys
  {
    hide StepProceed;
    if call.AreaEdit? {
      AreaStepWrites(s, t, call, row, text);
    } else if OnPlans(call) {
      PlanStepsWrite(s, t, call, row, text);
    } else {
      LookupsWriteNothing(s, t, call, row, text);
    }
  }

  lemma FactsKeptAccounted(s: Sys, s': Sys)
    requires FactsKept(s, s')
    ensures RunsAccounted(s, s') && GapsAccounted(s, s')
  {
  }

  /** Every run and gap after a step is accounted for. */
  lemma StepAccounted(s: Sys, a: Action)
    requires CallsOk(s) && RowsSafe(s)
    ensures RunsAccounted(s, Step(s, a).0) && GapsAccounted(s, Step(s, a).0)
  {
    hide RowsSafe, RunsAccounted, GapsAccounted, Step, CallOk;
    if Proceeds(s, a) {
      assert CallOk(s, s.calls[a.t]);
      StepProceeds(s, a);
      ProceedAccounted(s, a.t, s.calls[a.t], a.row, a.text);
    } else {
      StartsWrite(s, a);
      FactsKeptAccounted(s, Step(s, a).0);
    }
  }

  lemma ProceedAccounted(s: Sys, t: nat, call: Call, row: Id, text: string)
    requires CallsOk(s) && RowsSafe(s) && CallOk(s, call)
    ensures var s' := StepProceed(s, t, call, row, text).0; RunsAccounted(s, s') && GapsAccounted(s, s')
  {
    hide RowsSafe, RunsAccounted, GapsAccounted, StepRunMove, StepRunInsert, StepDetectInsert;
    match call
    case RunMove(id, expected, to, before) => RunMoveAccounted(s, t, id, expected, to, before);
    case RunInsert(facts, actor) => RunInsertAccounted(s, t, facts, actor, row);
    case DetectInsert(request, area, loaded) => DetectInsertAccounted(s, t, request, area, loaded, row, text);
    case _ =>
      ProceedKeepsFacts(s, t, call, row, text);
      FactsKeptAccounted(s, StepProceed(s, t, call, row, text).0);
  }

  /** Every step keeps the rows safe. */
  lemma StepSafe(s: Sys, a: Action)
    requires CallsOk(s) && RowsSafe(s)
    ensures RowsSafe(Step(s, a).0)
  {
    hide RowsSafe, RunsAccounted, GapsAccounted, Grows;
    StepKeeps(s, a);
    StepAccounted(s, a);
    UnwrittenRowsStaySafe(s, Step(s, a).0);
  }

  // ---- uniqueness ----

  ghost predicate AddsFreshArea(before: map<Id, Area>, after: map<Id, Area>) {
    after.Keys == before.Keys
    || exists row :: row !in before && row in after && after.Keys == before.Keys + {row}
         && forall id :: id in before ==> before[id].code != after[row].code
  }

  ghost predicate AddsFreshRun(before: map<Id, Run>, after: map<Id, Run>) {
    after.Keys == before.Keys
    || exists row :: row !in before && row in after && after.Keys == before.Keys + {row}
         && !HasCode(before, after[row].facts.code) && !HasChecksum(before, after[row].facts.checksum)
  }

  ghost predicate AddsFreshGap(before: map<Id, Gap>, after: map<Id, Gap>) {
    after.Keys == before.Keys
    || exists row :: row !in before && row in after && after.Keys == before.Keys + {row}
         && !HasKey(before, after[row].facts.key)
  }

  lemma AreasStayUnique(before: map<Id, Area>, after: map<Id, Area>)
    requires AreasUnique(before) && TableGrows(AreaLater, before, after) && AddsFreshArea(before, after)
    ensures AreasUnique(after)
  {
    assert forall id :: id in before ==> AreaLater(before[id], after[id]);
  }

  lemma RunsStayUnique(before: map<Id, Run>, after: map<Id, Run>)
    requires RunsUnique(before) && TableGrows(RunLater, before, after) && AddsFreshRun(before, after)
    ensures RunsUnique(after)
  {
    assert forall id :: id in before ==> RunLater(before[id], after[id]);
  }

  lemma GapsStayUnique(before: map<Id, Gap>, after: map<Id, Gap>)
    requires GapsUnique(before) && TableGrows(GapLater, before, after) && AddsFreshGap(before, after)
    ensures GapsUnique(after)
  {
    assert forall id :: id in before ==> GapLater(before[id], after[id]);
  }

  ghost predicate AddsFresh(s: Sys, s': Sys) {
    AddsFreshArea(s.areas, s'.areas) && AddsFreshRun(s.runs, s'.runs) && AddsFreshGap(s.gaps, s'.gaps)
  }

  lemma SameIdsAddFresh(s: Sys, s': Sys)
    requires s'.areas.Keys == s.areas.Keys && s'.runs.Keys == s.runs.Keys && s'.gaps.Keys == s.gaps.Keys
    ensures AddsFresh(s, s')
  {
  }

  lemma AreaAddedFresh(s: Sys, s': Sys, newId: Id, code: string, fields: AreaFields)
    requires AreaAdded(s, s', newId, code, fields)
    ensures AddsFresh(s, s')
  {
    assert s'.areas.Keys == s.areas.Keys + {newId};
  }

  lemma RunAddedFresh(s: Sys, s': Sys, t: nat, row: Id, facts: RunFacts, actor: Id)
    requires RunAdded(s, s', t, row, facts, actor)
    ensures AddsFresh(s, s')
  {
    hide HasChecksum, HasCode;
    assert s'.runs.Keys == s.runs.Keys + {row};
  }

  lemma GapAddedFresh(s: Sys, s': Sys, t: nat, row: Id, facts: GapFacts, history: GapHistory)
    requires GapAdded(s, s', t, row, facts, history)
    ensures AddsFresh(s, s')
  {
    hide HasKey;
    assert s'.gaps.Keys == s.gaps.Keys + {row};
  }

  lemma ProceedAddsFresh(s: Sys, t: nat, call: Call, row: Id, text: string)
    ensures AddsFresh(s, StepProceed(s, t, call, row, text).0)
  {
    hide StepDetectInsert, StepRunInsert, StepRunMove, StepGapReview, AddsFresh;
    match call
    case RunInsert(facts, actor) => RunInsertAddsFresh(s, t, facts, actor, row);
    case RunMove(id, expected, to, before) => RunMoveAddsFresh(s, t, id, expected, to, before);
    case GapReview(id, expected, target, note, before) => GapReviewAddsFresh(s, t, id, expected, target, note, before);
    case DetectInsert(request, area, loaded) => DetectInsertAddsFresh(s, t, request, area, loaded, row, text);
    case _ => OthersAddFresh(s, t, call, row, text);
  }

  lemma OthersAddFresh(s: Sys, t: nat, call: Call, row: Id, text: string)
    requires !WritesFacts(call) && !call.GapReview?
    ensures AddsFresh(s, StepProceed(s, t, call, row, text).0)
  {
    hide StepProceed, AddsFresh;
    OthersWrite(s, t, call, row, text);
    SameIdsAddFresh(s, StepProceed(s, t, call, row, text).0);
  }

  lemma RunMoveAddsFresh(s: Sys, t: nat, id: Id, expected: nat, to: RunState, before: Run)
    ensures AddsFresh(s, StepRunMove(s, t, id, expected, to, before).0)
  {
    hide StepRunMove, AddsFresh, Moved;
    RunMoveWrites(s, t, id, expected, to, before);
    SameIdsAddFresh(s, StepRunMove(s, t, id, expected, to, before).0);
  }

  lemma GapReviewAddsFresh(s: Sys, t: nat, id: Id, expected: nat, target: GapState, note: string, before: Gap)
    ensures AddsFresh(s, StepGapReview(s, t, id, expected, target, note, before).0)
  {
    hide StepGapReview, AddsFresh, Workflow.Reviewed;
    GapReviewWrites(s, t, id, expected, target, note, before);
    SameIdsAddFresh(s, StepGapReview(s, t, id, expected, target, note, before).0);
  }

  lemma RunInsertAddsFresh(s: Sys, t: nat, facts: RunFacts, actor: Id, row: Id)
    ensures AddsFresh(s, StepRunInsert(s, t, facts, actor, row).0)
  {
    hide StepRunInsert, AddsFresh, RunAdded;
    var s' := StepRunInsert(s, t, facts, actor, row).0;
    RunInsertWrites(s, t, facts, actor, row);
    if RunAdded(s, s', t, row, facts, actor) {
      RunAddedFresh(s, s', t, row, facts, actor);
    } else {
      SameIdsAddFresh(s, s');
    }
  }

  lemma DetectInsertAddsFresh(
      s: Sys, t: nat, request: DetectRequest, area: Area, loaded: seq<Loaded>, row: Id, text: string)
    ensures AddsFresh(s, StepDetectInsert(s, t, request, area, loaded, row, text).0)
  {
    hide StepDetectInsert, GapAdded, AddsFresh, Coverage.Score, KeyOf, Uniqued, Resolution, TracksOf;
    var s' := StepDetectInsert(s, t, request, area, loaded, row, text).0;
    DetectInsertWrites(s, t, request, area, loaded, row, text);
    if DetectionAdded(s, s', t, request, area, loaded, row, text) {
      var score := Coverage.Score(area.fields.boundary, TracksOf(loaded), Resolution(request, area));
      GapAddedFresh(s, s', t, row, FactsOf(request, Uniqued(request.runIds), KeyOf(request, area, loaded), score.value),
                    GapHistory(text, area.fields.boundary, LoadedIds(loaded), []));
    } else {
      SameIdsAddFresh(s, s');
    }
  }

  lemma StepAddsFresh(s: Sys, a: Action)
    ensures AddsFresh(s, Step(s, a).0)
  {
    hide Step, StepProceed, AddsFresh, AreaAdded;
    if Proceeds(s, a) {
      StepProceeds(s, a);
      ProceedAddsFresh(s, a.t, s.calls[a.t], a.row, a.text);
    } else {
      StartsWrite(s, a);
      if a.CreateArea? && AreaAdded(s, Step(s, a).0, a.newId, a.code, a.fields) {
        AreaAddedFresh(s, Step(s, a).0, a.newId, a.code, a.fields);
      } else {
        SameIdsAddFresh(s, Step(s, a).0);
      }
    }
  }

  /** Every step keeps the unique indexes. */
  lemma StepUnique(s: Sys, a: Action)
    requires CallsOk(s) && KeysUnique(s)
    ensures KeysUnique(Step(s, a).0)
  {
    hide Step, AddsFreshArea, AddsFreshRun, AddsFreshGap, TableGrows, AreasUnique, RunsUnique, GapsUnique;
    var s' := Step(s, a).0;
    StepKeeps(s, a);
    StepAddsFresh(s, a);
    AreasStayUnique(s.areas, s'.areas);
    RunsStayUnique(s.runs, s'.runs);
    GapsStayUnique(s.gaps, s'.gaps);
  }

  // ---- over runs ----

  /** What the planner starts from: no waiting requests, safe rows, unique keys. */
  ghost predicate Safe(s: Sys) {
    CallsOk(s) && RowsSafe(s) && KeysUnique(s)
  }

  /** From a safe state every interleaving of every length leads to safe states. */
  lemma {:induction false} RunSafeThroughout(s: Sys, actions: seq<Action>)
    requires Safe(s)
    ensures Safe(After(s, actions))
  {
    if actions != [] {
      var n := |actions| - 1;
      RunSafeThroughout(s, actions[..n]);
      StepKeeps(After(s, actions[..n]), actions[n]);
      StepSafe(After(s, actions[..n]), actions[n]);
      StepUnique(After(s, actions[..n]), actions[n]);
    }
  }

  /** Read out for one gap: its sources are distinct processed or superseded runs of its
      own area, on locked plans, none with invalid navigation. */
  lemma SourcesOfEveryGap(s: Sys, actions: seq<Action>, gap: Id, id: Id)
    requires Safe(s) && gap in After(s, actions).gaps && id in After(s, actions).gaps[gap].facts.sources
    ensures var now := After(s, actions); var g := now.gaps[gap];
            && NoDuplicates(g.facts.sources)
            && id in now.runs && now.runs[id].state in {Processed, Superseded}
            && now.runs[id].facts.navigation != NavInvalid
            && PlanIsLocked(now, now.runs[id].facts.planId)
            && now.plans[now.runs[id].facts.planId].areaId == g.facts.areaId
  {
    RunSafeThroughout(s, actions);
    var now := After(s, actions);
    assert GapSafe(now, now.gaps[gap]);
    assert SourceSafe(now, now.gaps[gap].facts.areaId, id);
    assert RunSafe(now, now.runs[id]);
  }
}
