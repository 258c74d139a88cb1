/** Short runs of one client that no other request interrupts: what each request does when
    it is served alone. They are the steps that witness runs are made of. */
module Walks {
  import opened Wrappers
  import opened Coverage
  import opened CacheKey
  import opened StateGraphs
  import opened Records
  import opened Workflow
  import opened Requests

  lemma FreshId(ids: set<nat>) returns (u: nat)
    ensures u > 0 && u !in ids
  {
    u := AboveAll(ids);
  }

  lemma {:induction false} AboveAll(ids: set<nat>) returns (u: nat)
    ensures u > 0 && forall id :: id in ids ==> id < u
    decreases |ids|
  {
    if ids == {} {
      u := 1;
    } else {
      var id :| id in ids;
      var rest := AboveAll(ids - {id});
      u := if rest > id then rest else id + 1;
      assert forall x :: x in ids ==> x == id || x in ids - {id};
    }
  }

  lemma {:induction false} AfterConcat(s: Sys, a: seq<Action>, b: seq<Action>)
    ensures After(s, a + b) == After(After(s, a), b)
  {
    if b == [] {
      assert a + b == a;
    } else {
      var n := |b| - 1;
      AfterConcat(s, a, b[..n]);
      assert (a + b)[..|a + b| - 1] == a + b[..n];
      assert (a + b)[|a + b| - 1] == b[n];
    }
  }

  lemma TwoSteps(s: Sys, a: Action, b: Action)
    ensures After(s, [a, b]) == Step(Step(s, a).0, b).0
  {
    assert [a][..0] == [] && After(s, []) == s;
    assert After(s, [a]) == Step(After(s, []), a).0;
    assert [a, b][..1] == [a];
    assert After(s, [a, b]) == Step(After(s, [a]), b).0;
  }

  // Another client edits the draft once, under a fresh ticket.
  lemma EditOnce(s: Sys, u: nat, id: Id, content: PlanContent) returns (actions: seq<Action>)
    requires u !in s.calls && id in s.plans && s.plans[id].state == Draft && ValidLines(content.lines)
    ensures var plan := s.plans[id].(content := content, version := s.plans[id].version + 1);
            After(s, actions) == s.(plans := s.plans[id := plan])
    ensures s.plans[id].version > 0 && ContentInRange(content) ==> AllInRange(actions)
  {
    hide Step, After, ContentInRange;
    var v := s.plans[id].version;
    actions := [BeginPlanEdit(u, id, v, content), Proceed(u, 0, "")];
    TwoSteps(s, actions[0], actions[1]);
    BeginPlanEditWaits(s, u, id, v, content);
    PlanEditCommits(s, u, id, content);
  }

  lemma BeginPlanEditWaits(s: Sys, u: nat, id: Id, v: nat, content: PlanContent)
    requires u !in s.calls && id in s.plans && s.plans[id].state == Draft && ValidLines(content.lines)
    ensures Step(s, BeginPlanEdit(u, id, v, content)).0
         == s.(calls := s.calls[u := PlanEdit(id, v, content, s.plans[id])])
  {
  }

  lemma PlanEditCommits(s: Sys, u: nat, id: Id, content: PlanContent)
    requires u !in s.calls && id in s.plans
    ensures var v := s.plans[id].version;
            Step(s.(calls := s.calls[u := PlanEdit(id, v, content, s.plans[id])]), Proceed(u, 0, "")).0
            == s.(plans := s.plans[id := s.plans[id].(content := content, version := v + 1)])
  {
    var v := s.plans[id].version;
    var waiting := s.(calls := s.calls[u := PlanEdit(id, v, content, s.plans[id])]);
    assert Step(waiting, Proceed(u, 0, "")) == StepPlanEdit(waiting, u, id, v, content);
    assert waiting.calls - {u} == s.calls;
  }

  lemma LockOnce(s: Sys, u: nat, id: Id) returns (actions: seq<Action>)
    requires u !in s.calls && id in s.plans && s.plans[id].state == Draft
    ensures var plan := s.plans[id].(state := Locked, version := s.plans[id].version + 1);
            After(s, actions) == s.(plans := s.plans[id := plan])
    ensures s.plans[id].version > 0 ==> AllInRange(actions)
  {
    hide Step, After;
    var v := s.plans[id].version;
    actions := [BeginPlanLock(u, id, v, "locked"), Proceed(u, 0, "")];
    TwoSteps(s, actions[0], actions[1]);
    BeginPlanLockWaits(s, u, id, v);
    PlanLockCommits(s, u, id);
  }

  lemma BeginPlanLockWaits(s: Sys, u: nat, id: Id, v: nat)
    requires u !in s.calls && id in s.plans && s.plans[id].state == Draft
    ensures Step(s, BeginPlanLock(u, id, v, "locked")).0 == s.(calls := s.calls[u := PlanLock(id, v, s.plans[id])])
  {
  }

  lemma PlanLockCommits(s: Sys, u: nat, id: Id)
    requires u !in s.calls && id in s.plans && s.plans[id].state == Draft
    ensures var v := s.plans[id].version;
            Step(s.(calls := s.calls[u := PlanLock(id, v, s.plans[id])]), Proceed(u, 0, "")).0
            == s.(plans := s.plans[id := s.plans[id].(state := Locked, version := v + 1)])
  {
    var v := s.plans[id].version;
    var waiting := s.(calls := s.calls[u := PlanLock(id, v, s.plans[id])]);
    assert Step(waiting, Proceed(u, 0, "")) == StepPlanLock(waiting, u, id, v);
    assert waiting.calls - {u} == s.calls;
  }

  // Another client edits the area once, under a fresh ticket.
  lemma AreaEditOnce(s: Sys, u: nat, id: Id, fields: AreaFields) returns (actions: seq<Action>)
    requires u !in s.calls && id in s.areas && s.areas[id].fields.status != ARCHIVED
    requires ValidStatus(fields.status) && AreaGeometryError(fields) == None
    ensures var area := s.areas[id].(fields := fields, version := s.areas[id].version + 1);
            After(s, actions) == s.(areas := s.areas[id := area])
    ensures s.areas[id].version > 0 && AreaInRange(fields) ==> AllInRange(actions)
  {
    hide Step, After, AreaGeometryError, AreaInRange;
    var v := s.areas[id].version;
    actions := [BeginAreaEdit(u, id, v, fields), Proceed(u, 0, "")];
    TwoSteps(s, actions[0], actions[1]);
    BeginAreaEditWaits(s, u, id, v, fields);
    AreaEditCommits(s, u, id, fields);
  }

  lemma BeginAreaEditWaits(s: Sys, u: nat, id: Id, v: nat, fields: AreaFields)
    requires u !in s.calls && id in s.areas && s.areas[id].fields.status != ARCHIVED
    requires ValidStatus(fields.status) && AreaGeometryError(fields) == None
    ensures Step(s, BeginAreaEdit(u, id, v, fields)).0
         == s.(calls := s.calls[u := AreaEdit(id, v, fields, s.areas[id])])
  {
    hide AreaGeometryError;
  }

  lemma AreaEditCommits(s: Sys, u: nat, id: Id, fields: AreaFields)
    requires u !in s.calls && id in s.areas
    ensures var v := s.areas[id].version;
            Step(s.(calls := s.calls[u := AreaEdit(id, v, fields, s.areas[id])]), Proceed(u, 0, "")).0
            == s.(areas := s.areas[id := s.areas[id].(fields := fields, version := v + 1)])
  {
    var v := s.areas[id].version;
    var waiting := s.(calls := s.calls[u := AreaEdit(id, v, fields, s.areas[id])]);
    assert Step(waiting, Proceed(u, 0, "")) == StepAreaEdit(waiting, u, id, v, fields);
    assert waiting.calls - {u} == s.calls;
  }

  lemma StatusIsNotGeometry(fields: AreaFields, status: string)
    ensures AreaGeometryError(fields.(status := status)) == AreaGeometryError(fields)
  {
  }

  // ---- a new locked plan ----

  lemma AddPlanOnce(s: Sys, u: nat, areaId: Id, content: PlanContent, row: Id) returns (actions: seq<Action>)
    requires u !in s.calls && areaId in s.areas && s.areas[areaId].fields.status != ARCHIVED
    requires ValidLines(content.lines) && row !in s.plans
    ensures After(s, actions) == s.(plans := s.plans[row := Plan(areaId, content, Draft, 1, 0)])
    ensures areaId > 0 && ContentInRange(content) ==> AllInRange(actions)
  {
    hide Step, After, ContentInRange;
    actions := [BeginPlanAdd(u, areaId, content, 0), Proceed(u, row, "")];
    TwoSteps(s, actions[0], actions[1]);
    BeginPlanAddWaits(s, u, areaId, content);
    PlanAddCommits(s, u, areaId, content, row);
  }

  lemma BeginPlanAddWaits(s: Sys, u: nat, areaId: Id, content: PlanContent)
    requires u !in s.calls && areaId in s.areas && s.areas[areaId].fields.status != ARCHIVED
    requires ValidLines(content.lines)
    ensures Step(s, BeginPlanAdd(u, areaId, content, 0)).0 == s.(calls := s.calls[u := PlanAdd(areaId, content, 0)])
  {
  }

  lemma PlanAddCommits(s: Sys, u: nat, areaId: Id, content: PlanContent, row: Id)
    requires u !in s.calls && row !in s.plans
    ensures Step(s.(calls := s.calls[u := PlanAdd(areaId, content, 0)]), Proceed(u, row, "")).0
            == s.(plans := s.plans[row := Plan(areaId, content, Draft, 1, 0)])
  {
    var waiting := s.(calls := s.calls[u := PlanAdd(areaId, content, 0)]);
    assert Step(waiting, Proceed(u, row, "")) == StepPlanAdd(waiting, u, areaId, content, 0, row);
    assert waiting.calls - {u} == s.calls;
  }

  // ---- a new run ----

  /** What an import checks before it looks the checksum up. */
  predicate RunAcceptable(s: Sys, facts: RunFacts) {
    && facts.planId in s.plans && s.plans[facts.planId].state == Locked
    && ValidLines(facts.lines) && facts.startedAt < facts.endedAt
  }

  lemma ImportOnce(s: Sys, u: nat, facts: RunFacts, row: Id) returns (actions: seq<Action>)
    requires u !in s.calls && RunAcceptable(s, facts) && row !in s.runs
    requires !HasChecksum(s.runs, facts.checksum) && !HasCode(s.runs, facts.code)
    ensures After(s, actions) == s.(runs := s.runs[row := Run(facts, Imported, 1, 0)],
                                    runHistory := s.runHistory[row := RunHistory(1, [Imported])])
    ensures ImportInRange(facts) ==> AllInRange(actions)
  {
    hide Step, After, HasChecksum, HasCode, RunAcceptable, ImportInRange;
    var first, last := [BeginImport(u, facts, 0), Proceed(u, 0, "")], Proceed(u, row, "");
    actions := first + [last];
    TwoSteps(s, first[0], first[1]);
    OneStep(After(s, first), last);
    AfterConcat(s, first, [last]);
    BeginImportWaits(s, u, facts);
    RunLookupMisses(s, u, facts);
    RunInsertCommits(s, u, facts, row);
  }

  lemma OneStep(s: Sys, a: Action)
    ensures After(s, [a]) == Step(s, a).0
  {
    assert [a][..0] == [] && After(s, []) == s;
  }

  lemma BeginImportWaits(s: Sys, u: nat, facts: RunFacts)
    requires u !in s.calls && RunAcceptable(s, facts)
    ensures Step(s, BeginImport(u, facts, 0)).0 == s.(calls := s.calls[u := RunLookup(facts, 0)])
  {
    hide ValidLines;
  }

  lemma RunLookupMisses(s: Sys, u: nat, facts: RunFacts)
    requires u !in s.calls && !HasChecksum(s.runs, facts.checksum)
    ensures Step(s.(calls := s.calls[u := RunLookup(facts, 0)]), Proceed(u, 0, "")).0
            == s.(calls := s.calls[u := RunInsert(facts, 0)])
  {
    hide HasChecksum;
    var waiting := s.(calls := s.calls[u := RunLookup(facts, 0)]);
    assert Step(waiting, Proceed(u, 0, "")) == StepRunLookup(waiting, u, facts, 0, 0);
    assert waiting.calls[u := RunInsert(facts, 0)] == s.calls[u := RunInsert(facts, 0)];
  }

  lemma RunInsertCommits(s: Sys, u: nat, facts: RunFacts, row: Id)
    requires u !in s.calls && row !in s.runs
    requires !HasChecksum(s.runs, facts.checksum) && !HasCode(s.runs, facts.code)
    ensures Step(s.(calls := s.calls[u := RunInsert(facts, 0)]), Proceed(u, row, "")).0
            == s.(runs := s.runs[row := Run(facts, Imported, 1, 0)],
                  runHistory := s.runHistory[row := RunHistory(1, [Imported])])
  {
    hide HasChecksum, HasCode;
    var waiting := s.(calls := s.calls[u := RunInsert(facts, 0)]);
    assert Step(waiting, Proceed(u, row, "")) == StepRunInsert(waiting, u, facts, 0, row);
    assert waiting.calls - {u} == s.calls;
  }

  // ---- a transition of a run ----

  lemma MoveOnce(s: Sys, u: nat, id: Id, to: RunState) returns (actions: seq<Action>)
    requires u !in s.calls && id in s.runs && to in RunTargets(s.runs[id].state)
    requires to == QualityChecked ==> s.runs[id].facts.navigation != NavInvalid
    ensures After(s, actions) == s.(runs := s.runs[id := s.runs[id].(state := to, version := s.runs[id].version + 1)],
                                    runHistory := Moved(s.runHistory, id, to))
    ensures s.runs[id].version > 0 ==> AllInRange(actions)
  {
    TargetParses(s.runs[id].state, to);
    hide Step, After, RunTargets, Moved, RunName, ParseRunState;
    var v := s.runs[id].version;
    actions := [BeginRunMove(u, id, v, RunName(to), "reason"), Proceed(u, 0, "")];
    TwoSteps(s, actions[0], actions[1]);
    BeginRunMoveWaits(s, u, id, v, to);
    RunMoveCommits(s, u, id, to);
  }

  lemma TargetParses(from: RunState, to: RunState)
    requires to in RunTargets(from)
    ensures ParseRunState(RunName(to)).Some? && RunName(to) != RunName(Imported)
  {
  }

  lemma ParsesRunName(to: RunState)
    ensures ParseRunState(RunName(to)) == Some(to)
  {
  }

  lemma BeginRunMoveWaits(s: Sys, u: nat, id: Id, v: nat, to: RunState)
    requires u !in s.calls && id in s.runs && to in RunTargets(s.runs[id].state)
    requires to == QualityChecked ==> s.runs[id].facts.navigation != NavInvalid
    ensures Step(s, BeginRunMove(u, id, v, RunName(to), "reason")).0
            == s.(calls := s.calls[u := RunMove(id, v, to, s.runs[id])])
  {
    ParsesRunName(to);
    hide ParseRunState, RunTargets, RunName;
  }

  lemma RunMoveCommits(s: Sys, u: nat, id: Id, to: RunState)
    requires u !in s.calls && id in s.runs
    ensures var v := s.runs[id].version;
            Step(s.(calls := s.calls[u := RunMove(id, v, to, s.runs[id])]), Proceed(u, 0, "")).0
            == s.(runs := s.runs[id := s.runs[id].(state := to, version := v + 1)],
                  runHistory := Moved(s.runHistory, id, to))
  {
    hide Moved;
    var v := s.runs[id].version;
    var waiting := s.(calls := s.calls[u := RunMove(id, v, to, s.runs[id])]);
    assert Step(waiting, Proceed(u, 0, "")) == StepRunMove(waiting, u, id, v, to, s.runs[id]);
    assert waiting.calls - {u} == s.calls;
  }

  // ---- a review of a gap ----

  lemma ReviewOnce(s: Sys, u: nat, id: Id, to: GapState, note: string) returns (actions: seq<Action>)
    requires u !in s.calls && id in s.gaps && to in GapTargets(s.gaps[id].state)
    ensures var g := s.gaps[id];
            var text := g.explanation + NOTE_MARK + note;
            After(s, actions)
            == s.(gaps := s.gaps[id := g.(state := to, explanation := text, version := g.version + 1)],
                  gapHistory := Workflow.Reviewed(s.gapHistory, id, Review(note, to)))
    ensures s.gaps[id].version > 0 && NoteInRange(note) ==> AllInRange(actions)
  {
    ReviewParses(s.gaps[id].state, to);
    hide Step, After, GapTargets, Workflow.Reviewed, GapName, ParseGapState, NoteInRange;
    var v := s.gaps[id].version;
    actions := [BeginReview(u, id, v, GapName(to), note), Proceed(u, 0, "")];
    TwoSteps(s, actions[0], actions[1]);
    BeginReviewWaits(s, u, id, v, to, note);
    ReviewCommits(s, u, id, to, note);
  }

  lemma ReviewParses(from: GapState, to: GapState)
    requires to in GapTargets(from)
    ensures ParseGapState(GapName(to)).Some? && GapName(to) != GapName(Detected)
  {
  }

  lemma ParsesGapName(to: GapState)
    ensures ParseGapState(GapName(to)) == Some(to)
  {
  }

  lemma BeginReviewWaits(s: Sys, u: nat, id: Id, v: nat, to: GapState, note: string)
    requires u !in s.calls && id in s.gaps && to in GapTargets(s.gaps[id].state)
    ensures Step(s, BeginReview(u, id, v, GapName(to), note)).0
            == s.(calls := s.calls[u := GapReview(id, v, to, note, s.gaps[id])])
  {
    ParsesGapName(to);
    hide ParseGapState, GapTargets, GapName;
  }

  lemma ReviewCommits(s: Sys, u: nat, id: Id, to: GapState, note: string)
    requires u !in s.calls && id in s.gaps
    ensures var g := s.gaps[id];
            var text := g.explanation + NOTE_MARK + note;
            Step(s.(calls := s.calls[u := GapReview(id, g.version, to, note, g)]), Proceed(u, 0, "")).0
            == s.(gaps := s.gaps[id := g.(state := to, explanation := text, version := g.version + 1)],
                  gapHistory := Workflow.Reviewed(s.gapHistory, id, Review(note, to)))
  {
    hide Workflow.Reviewed;
    var g := s.gaps[id];
    var waiting := s.(calls := s.calls[u := GapReview(id, g.version, to, note, g)]);
    assert Step(waiting, Proceed(u, 0, "")) == StepGapReview(waiting, u, id, g.version, to, note, g);
    assert waiting.calls - {u} == s.calls;
  }

  // ---- a detection over one run ----

  /** One processed run of the requested area, and nothing else, is requested. */
  ghost predicate OneRunRequested(s: Sys, request: DetectRequest, run: Id) {
    && request.runIds == [run] && run in s.runs && s.runs[run].state == Processed
    && ValidLines(s.runs[run].facts.lines)
    && s.runs[run].facts.planId in s.plans && s.plans[s.runs[run].facts.planId].areaId == request.areaId
  }

  function LoadedRun(s: Sys, run: Id, areaId: Id): seq<Loaded>
    requires run in s.runs
  {
    [Loaded(run, s.runs[run], Some(areaId))]
  }

  lemma OneRunLoads(s: Sys, request: DetectRequest, run: Id)
    requires OneRunRequested(s, request, run)
    ensures IsSelection(s.runs, request.runIds, [run]) && |Members(request.runIds)| == 1
    ensures forall id :: id in [run] ==> id in s.runs
    ensures Load(s.runs, s.plans, [run]) == LoadedRun(s, run, request.areaId)
    ensures FirstError(LoadedRun(s, run, request.areaId), request.areaId) == None
  {
    var loaded := LoadedRun(s, run, request.areaId);
    assert Members([run]) == {run};
    MembersCounted(request.runIds);
    assert Load(s.runs, s.plans, [run])[0] == loaded[0];
    assert FirstError([], request.areaId) == None && loaded[..0] == [];
    assert FirstError(loaded, request.areaId) == LoadedError(loaded[0], request.areaId);
  }

  /** What a detection checks when it begins. */
  predicate DetectionAcceptable(s: Sys, request: DetectRequest) {
    && 8 <= |request.idempotencyKey| <= 120
    && request.areaId in s.areas && Projected(s.areas[request.areaId].fields.crs)
  }

  lemma DetectUpToLookup(s: Sys, u: nat, request: DetectRequest, run: Id) returns (actions: seq<Action>)
    requires u !in s.calls && DetectionAcceptable(s, request) && OneRunRequested(s, request, run)
    ensures After(s, actions)
         == s.(calls := s.calls[u := DetectLookup(request, s.areas[request.areaId], LoadedRun(s, run, request.areaId))])
    ensures DetectInRange(request) ==> AllInRange(actions)
  {
    hide Step, After, OneRunRequested, Projected, DetectInRange;
    actions := [BeginDetect(u, request), Action.LoadRuns(u, [run])];
    TwoSteps(s, actions[0], actions[1]);
    DetectBegins(s, u, request);
    DetectLoads(s, u, request, run);
  }

  lemma DetectBegins(s: Sys, u: nat, request: DetectRequest)
    requires u !in s.calls && DetectionAcceptable(s, request)
    ensures Step(s, BeginDetect(u, request)).0
         == s.(calls := s.calls[u := DetectArea(request, s.areas[request.areaId])])
  {
    hide Projected;
  }

  lemma DetectLoads(s: Sys, u: nat, request: DetectRequest, run: Id)
    requires u !in s.calls && request.areaId in s.areas && OneRunRequested(s, request, run)
    ensures var area := s.areas[request.areaId];
            Step(s.(calls := s.calls[u := DetectArea(request, area)]), Action.LoadRuns(u, [run])).0
            == s.(calls := s.calls[u := DetectLookup(request, area, LoadedRun(s, run, request.areaId))])
  {
    OneRunLoads(s, request, run);
    hide IsSelection, FirstError, Load, Members, LoadedRun, OneRunRequested;
    var area := s.areas[request.areaId];
    var begun := s.(calls := s.calls[u := DetectArea(request, area)]);
    var call := DetectLookup(request, area, LoadedRun(s, run, request.areaId));
    assert Step(begun, Action.LoadRuns(u, [run])) == StepLoadRuns(begun, u, request, area, [run]);
    assert StepLoadRuns(begun, u, request, area, [run]) == Wait(begun, u, call);
    assert begun.calls[u := call] == s.calls[u := call];
  }

  // Its lookup misses, and the gap is inserted.
  lemma MissAndInsert(
      s: Sys, u: nat, request: DetectRequest, area: Area, loaded: seq<Loaded>, row: Id, text: string,
      res: CoverageResult)
    returns (actions: seq<Action>)
    requires u !in s.calls && row !in s.gaps && !HasKey(s.gaps, KeyOf(request, area, loaded))
    requires ValidPolygon(area.fields.boundary)
    requires Score(area.fields.boundary, TracksOf(loaded), Resolution(request, area)) == Ok(res)
    ensures After(s.(calls := s.calls[u := DetectLookup(request, area, loaded)]), actions)
         == s.(gaps := s.gaps[row := NewGap(request, area, loaded, text, res)],
               gapHistory := s.gapHistory[row := NewGapHistory(area, loaded, text)])
    ensures AllInRange(actions)
  {
    hide Step, After, Score, ValidPolygon, NewGap, NewGapHistory, KeyOf, TracksOf, Resolution, HasKey;
    var looking := s.(calls := s.calls[u := DetectLookup(request, area, loaded)]);
    actions := [Proceed(u, 0, ""), Proceed(u, row, text)];
    TwoSteps(looking, actions[0], actions[1]);
    LookupMisses(s, u, request, area, loaded);
    DetectionInserts(s, u, request, area, loaded, row, text, res);
  }

  ghost function NewGap(
      request: DetectRequest, area: Area, loaded: seq<Loaded>, text: string, res: CoverageResult): Gap
  {
    Gap(FactsOf(request, Uniqued(request.runIds), KeyOf(request, area, loaded), res), Detected, text, 1)
  }

  ghost function NewGapHistory(area: Area, loaded: seq<Loaded>, text: string): GapHistory {
    GapHistory(text, area.fields.boundary, LoadedIds(loaded), [])
  }

  lemma LookupMisses(s: Sys, u: nat, request: DetectRequest, area: Area, loaded: seq<Loaded>)
    requires u !in s.calls && !HasKey(s.gaps, KeyOf(request, area, loaded))
    ensures Step(s.(calls := s.calls[u := DetectLookup(request, area, loaded)]), Proceed(u, 0, "")).0
         == s.(calls := s.calls[u := DetectInsert(request, area, loaded)])
  {
    hide KeyOf, HasKey;
    var looking := s.(calls := s.calls[u := DetectLookup(request, area, loaded)]);
    var call := DetectInsert(request, area, loaded);
    assert Step(looking, Proceed(u, 0, "")) == StepDetectLookup(looking, u, request, area, loaded, 0);
    assert StepDetectLookup(looking, u, request, area, loaded, 0) == Wait(looking, u, call);
    assert looking.calls[u := call] == s.calls[u := call];
  }

  lemma DetectionInserts(
      s: Sys, u: nat, request: DetectRequest, area: Area, loaded: seq<Loaded>, row: Id, text: string,
      res: CoverageResult)
    requires u !in s.calls && row !in s.gaps && !HasKey(s.gaps, KeyOf(request, area, loaded))
    requires ValidPolygon(area.fields.boundary)
    requires Score(area.fields.boundary, TracksOf(loaded), Resolution(request, area)) == Ok(res)
    ensures Step(s.(calls := s.calls[u := DetectInsert(request, area, loaded)]), Proceed(u, row, text)).0
         == s.(gaps := s.gaps[row := NewGap(request, area, loaded, text, res)],
               gapHistory := s.gapHistory[row := NewGapHistory(area, loaded, text)])
  {
    hide Score, ValidPolygon, KeyOf, TracksOf, Resolution, Uniqued, InsertGap, HasKey, LoadedIds;
    var inserting := s.(calls := s.calls[u := DetectInsert(request, area, loaded)]);
    var gap, history := NewGap(request, area, loaded, text, res), NewGapHistory(area, loaded, text);
    assert Step(inserting, Proceed(u, row, text)) == StepDetectInsert(inserting, u, request, area, loaded, row, text);
    assert StepDetectInsert(inserting, u, request, area, loaded, row, text)
        == InsertGap(inserting, u, row, gap.facts, history);
    GapIsInserted(s, u, inserting.calls[u], row, gap.facts, history);
  }

  lemma GapIsInserted(s: Sys, u: nat, call: Call, row: Id, facts: GapFacts, history: GapHistory)
    requires u !in s.calls && row !in s.gaps && !HasKey(s.gaps, facts.key)
    ensures InsertGap(s.(calls := s.calls[u := call]), u, row, facts, history).0
         == s.(gaps := s.gaps[row := Gap(facts, Detected, history.text, 1)], gapHistory := s.gapHistory[row := history])
  {
    hide HasKey;
    var waiting := s.(calls := s.calls[u := call]);
    assert waiting.calls - {u} == s.calls;
  }
}
