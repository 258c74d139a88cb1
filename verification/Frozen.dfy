/** Locked plans and archived areas. The updates of `transect_plan.go` and
    `survey_area.go` test only the version; the state was tested on an earlier read. */
module Frozen {
  import opened Wrappers
  import opened CacheKey
  import opened StateGraphs
  import opened Records
  import opened Workflow
  import opened Requests
  import opened Writes
  import opened Growth
  import opened Safety
  import opened Trails
  import opened Walks

  // ---- requests whose expected version had been observed ----

  /** A waiting edit expects no version later than the one it read. */
  ghost predicate Prudent(call: Call) {
    && (call.PlanEdit? ==> call.expected <= call.planBefore.version)
    && (call.AreaEdit? ==> call.expected <= call.areaBefore.version)
  }

  ghost predicate AllPrudent(s: Sys) {
    forall t :: t in s.calls ==> Prudent(s.calls[t])
  }

  /** A prudent edit that commits on a plan commits on the draft it read. */
  lemma PrudentEditSpares(s: Sys, call: Call)
    requires CallOk(s, call) && Prudent(call)
    ensures call.PlanEdit? && s.plans[call.id].version == call.expected ==> s.plans[call.id] == call.planBefore
    ensures call.AreaEdit? && s.areas[call.id].version == call.expected ==> s.areas[call.id] == call.areaBefore
  {
  }

  /** Locked plans and archived areas of the old state are rows of the new one. */
  ghost predicate FrozenKept(s: Sys, s': Sys) {
    && (forall id :: id in s.plans && s.plans[id].state == Locked ==> id in s'.plans && s'.plans[id] == s.plans[id])
    && (forall id :: id in s.areas && s.areas[id].fields.status == ARCHIVED ==>
          id in s'.areas && s'.areas[id] == s.areas[id])
  }

  lemma ProceedFrozen(s: Sys, t: nat, call: Call, row: Id, text: string)
    requires CallOk(s, call) && Prudent(call)
    ensures FrozenKept(s, StepProceed(s, t, call, row, text).0)
  {
    hide StepProceed, CallOk, FrozenKept;
    if call.AreaEdit? {
      AreaEditFrozen(s, t, call, row, text);
    } else if OnPlans(call) {
      PlanStepFrozen(s, t, call, row, text);
    } else {
      OthersLeavePlansAndAreas(s, t, call, row, text);
      FrozenSame(s, StepProceed(s, t, call, row, text).0);
    }
  }

  lemma AreaEditFrozen(s: Sys, t: nat, call: Call, row: Id, text: string)
    requires call.AreaEdit? && CallOk(s, call) && Prudent(call)
    ensures FrozenKept(s, StepProceed(s, t, call, row, text).0)
  {
    hide StepAreaEdit;
    PrudentEditSpares(s, call);
    AreaEditWrites(s, t, call.id, call.expected, call.fields);
  }

  // Replacing a draft changes no locked plan.
  lemma ReplacedDraft(s: Sys, s': Sys, t: nat, id: Id, expected: nat, plan: Plan)
    requires PlanReplaced(s, s', t, id, expected, plan) && s.plans[id].state == Draft
    ensures FrozenKept(s, s')
  {
  }

  lemma PlanStepFrozen(s: Sys, t: nat, call: Call, row: Id, text: string)
    requires OnPlans(call) && CallOk(s, call) && Prudent(call)
    ensures FrozenKept(s, StepProceed(s, t, call, row, text).0)
  {
    PrudentEditSpares(s, call);
    hide StepPlanAdd, StepPlanEdit, StepPlanLock, StepPlanCopy, CopyOf, FrozenKept;
    var s' := StepProceed(s, t, call, row, text).0;
    FrozenSame(s, s');
    match call
    case PlanAdd(areaId, content, actor) =>
      PlanAddWrites(s, t, areaId, content, actor, row);
      AddedPlan(s, s', t, row, Plan(areaId, content, Draft, 1, actor));
    case PlanCopy(_, actor, before) =>
      PlanCopyWrites(s, t, before, actor, row);
      AddedPlan(s, s', t, row, CopyOf(before, actor));
    case PlanEdit(id, expected, content, before) =>
      PlanEditWrites(s, t, id, expected, content);
      if !Ended(s, s', t) {
        ReplacedDraft(s, s', t, id, expected, s.plans[id].(content := content, version := expected + 1));
      }
    case PlanLock(id, expected, _) =>
      PlanLockWrites(s, t, id, expected);
      if !Ended(s, s', t) {
        ReplacedDraft(s, s', t, id, expected, s.plans[id].(state := Locked, version := expected + 1));
      }
  }

  lemma AddedPlan(s: Sys, s': Sys, t: nat, row: Id, plan: Plan)
    requires s' == s || PlanAdded(s, s', t, row, plan)
    ensures FrozenKept(s, s')
  {
  }

  lemma OthersLeavePlansAndAreas(s: Sys, t: nat, call: Call, row: Id, text: string)
    requires !OnPlans(call) && !call.AreaEdit?
    ensures var s' := StepProceed(s, t, call, row, text).0; s'.plans == s.plans && s'.areas == s.areas
  {
    hide StepRunMove, StepRunInsert, StepGapReview, StepDetectInsert, StepRunLookup, StepDetectLookup, GapAdded, Moved,
         Workflow.Reviewed, HasChecksum, HasCode;
    match call
    case RunInsert(facts, actor) => RunInsertWrites(s, t, facts, actor, row);
    case RunMove(id, expected, to, before) => RunMoveWrites(s, t, id, expected, to, before);
    case GapReview(id, expected, target, note, before) => GapReviewWrites(s, t, id, expected, target, note, before);
    case DetectInsert(request, area, loaded) => DetectInsertLeaves(s, t, request, area, loaded, row, text);
    case RunLookup(facts, actor) => RunLookupWrites(s, t, facts, actor, row);
    case DetectLookup(request, area, loaded) => DetectLookupWrites(s, t, request, area, loaded, row);
    case DetectArea(_, _) =>
  }

  lemma DetectInsertLeaves(
      s: Sys, t: nat, request: DetectRequest, area: Area, loaded: seq<Loaded>, row: Id, text: string)
    ensures var s' := StepDetectInsert(s, t, request, area, loaded, row, text).0;
            s'.plans == s.plans && s'.areas == s.areas && (s'.calls == s.calls || s'.calls == s.calls - {t})
  {
    hide StepDetectInsert, Coverage.Score, KeyOf, Uniqued, Resolution, TracksOf, FactsOf, HasKey;
    DetectInsertWrites(s, t, request, area, loaded, row, text);
  }

  lemma StepFrozen(s: Sys, a: Action)
    requires CallsOk(s) && AllPrudent(s)
    ensures FrozenKept(s, Step(s, a).0)
  {
    hide Step, StepProceed, FrozenKept, CallOk;
    var s' := Step(s, a).0;
    if Proceeds(s, a) {
      assert CallOk(s, s.calls[a.t]);
      StepProceeds(s, a);
      ProceedFrozen(s, a.t, s.calls[a.t], a.row, a.text);
    } else {
      StartsWrite(s, a);
      FrozenSame(s, s');
      if a.CreateArea? && AreaAdded(s, s', a.newId, a.code, a.fields) {
        AddedArea(s, s', a.newId, a.code, a.fields);
      }
    }
  }

  lemma FrozenSame(s: Sys, s': Sys)
    ensures s'.plans == s.plans && s'.areas == s.areas ==> FrozenKept(s, s')
  {
  }

  lemma AddedArea(s: Sys, s': Sys, newId: Id, code: string, fields: AreaFields)
    requires AreaAdded(s, s', newId, code, fields)
    ensures FrozenKept(s, s')
  {
  }

  // ---- runs of clients that only expect what they could have seen ----

  /** The version an edit expects, when the action begins one. */
  function ExpectedOnBegin(a: Action): Option<(Table, Id, nat)> {
    match a
    case BeginPlanEdit(_, id, expected, _) => Some((OnPlan, id, expected))
    case BeginAreaEdit(_, id, expected, _) => Some((OnArea, id, expected))
    case _ => None
  }

  /** The version was that of the row in some state up to the k-th. */
  ghost predicate ObservedBy(s: Sys, actions: seq<Action>, k: nat, table: Table, id: Id, expected: nat)
    requires k <= |actions|
  {
    exists i :: 0 <= i <= k && VersionAt(After(s, actions[..i]), table, id) == Some(expected)
  }

  /** Every edit expects a version its client had observed before the request began. */
  ghost predicate Observant(s: Sys, actions: seq<Action>) {
    forall k :: 0 <= k < |actions| && ExpectedOnBegin(actions[k]).Some? ==>
      var (table, id, expected) := ExpectedOnBegin(actions[k]).value;
      ObservedBy(s, actions, k, table, id, expected)
  }

  lemma ObservedIsNotLater(s: Sys, actions: seq<Action>, k: nat, table: Table, id: Id, expected: nat)
    requires CallsOk(s) && k <= |actions| && ObservedBy(s, actions, k, table, id, expected)
    ensures VersionAt(After(s, actions[..k]), table, id).Some?
    ensures expected <= VersionAt(After(s, actions[..k]), table, id).value
  {
    hide After, VersionAt, Grows, CallsOk;
    var i :| 0 <= i <= k && VersionAt(After(s, actions[..i]), table, id) == Some(expected);
    assert actions[..k][..i] == actions[..i];
    RunKeeps(s, actions[..k], i);
    VersionsGrow(After(s, actions[..i]), After(s, actions[..k]), table, id);
  }

  // A step adds at most the call it begins, or one that is no edit.
  lemma StepPrudent(s: Sys, a: Action)
    requires AllPrudent(s)
    requires ExpectedOnBegin(a).Some? ==>
               var (table, id, expected) := ExpectedOnBegin(a).value;
               VersionAt(s, table, id).Some? && expected <= VersionAt(s, table, id).value
    ensures AllPrudent(Step(s, a).0)
  {
    hide StepBegin, StepLoadRuns, StepCreateArea, StepProceed, AreaAdded, VersionAt, ExpectedOnBegin;
    if a.Proceed? {
      if a.t in s.calls {
        ProceedAddsNoEdit(s, a.t, s.calls[a.t], a.row, a.text);
      }
    } else if a.LoadRuns? {
      if a.t in s.calls && s.calls[a.t].DetectArea? {
        LoadRunsAddsNoEdit(s, a.t, s.calls[a.t].request, s.calls[a.t].area, a.order);
      }
    } else if a.CreateArea? {
      CreateAreaLeavesCalls(s, a.newId, a.code, a.fields);
    } else {
      BeginPrudent(s, a);
    }
  }

  lemma CreateAreaLeavesCalls(s: Sys, newId: Id, code: string, fields: AreaFields)
    ensures StepCreateArea(s, newId, code, fields).0.calls == s.calls
  {
    hide StepCreateArea;
    CreateAreaWrites(s, newId, code, fields);
  }

  /** The waiting requests are old ones or no imprudent edits. */
  ghost predicate AddsNoEdit(before: map<nat, Call>, after: map<nat, Call>) {
    forall u :: u in after ==> (u in before && after[u] == before[u]) || Prudent(after[u])
  }

  lemma ProceedAddsNoEdit(s: Sys, t: nat, call: Call, row: Id, text: string)
    ensures AddsNoEdit(s.calls, StepProceed(s, t, call, row, text).0.calls)
  {
    hide StepProceed;
    if call.RunLookup? || call.DetectLookup? {
      LookupsContinue(s, t, call, row, text);
    } else {
      OthersEnd(s, t, call, row, text);
    }
  }

  lemma LookupsContinue(s: Sys, t: nat, call: Call, row: Id, text: string)
    requires call.RunLookup? || call.DetectLookup?
    ensures AddsNoEdit(s.calls, StepProceed(s, t, call, row, text).0.calls)
  {
    hide StepRunLookup, StepDetectLookup, AddsNoEdit;
    EndedAddsNoEdit(s.calls, t);
    match call
    case RunLookup(facts, actor) =>
      RunLookupWrites(s, t, facts, actor, row);
      BegunAddsNoEdit(s.calls, t, RunInsert(facts, actor));
    case DetectLookup(request, area, loaded) =>
      DetectLookupWrites(s, t, request, area, loaded, row);
      BegunAddsNoEdit(s.calls, t, DetectInsert(request, area, loaded));
  }

  lemma EndedAddsNoEdit(before: map<nat, Call>, t: nat)
    ensures AddsNoEdit(before, before) && AddsNoEdit(before, before - {t})
  {
  }

  lemma BegunAddsNoEdit(before: map<nat, Call>, t: nat, call: Call)
    requires Prudent(call)
    ensures AddsNoEdit(before, before[t := call])
  {
  }

  lemma OthersEnd(s: Sys, t: nat, call: Call, row: Id, text: string)
    requires !call.RunLookup? && !call.DetectLookup?
    ensures var calls := StepProceed(s, t, call, row, text).0.calls; calls == s.calls || calls == s.calls - {t}
  {
    hide StepRunMove, StepRunInsert, StepGapReview, StepDetectInsert, StepAreaEdit, StepPlanAdd, StepPlanEdit,
         StepPlanLock, StepPlanCopy, CopyOf, Moved, Workflow.Reviewed, HasChecksum, HasCode;
    match call
    case AreaEdit(id, expected, fields, _) => AreaEditWrites(s, t, id, expected, fields);
    case PlanAdd(areaId, content, actor) => PlanAddWrites(s, t, areaId, content, actor, row);
    case PlanEdit(id, expected, content, _) => PlanEditWrites(s, t, id, expected, content);
    case PlanLock(id, expected, _) => PlanLockWrites(s, t, id, expected);
    case PlanCopy(_, actor, before) => PlanCopyWrites(s, t, before, actor, row);
    case RunInsert(facts, actor) => RunInsertWrites(s, t, facts, actor, row);
    case RunMove(id, expected, to, before) => RunMoveWrites(s, t, id, expected, to, before);
    case GapReview(id, expected, target, note, before) => GapReviewWrites(s, t, id, expected, target, note, before);
    case DetectInsert(request, area, loaded) => DetectInsertLeaves(s, t, request, area, loaded, row, text);
    case DetectArea(_, _) =>
  }

  lemma LoadRunsAddsNoEdit(s: Sys, t: nat, request: DetectRequest, area: Area, order: seq<Id>)
    ensures AddsNoEdit(s.calls, StepLoadRuns(s, t, request, area, order).0.calls)
  {
    hide StepLoadRuns, IsSelection, FirstError, Load, Members;
    LoadRunsWrites(s, t, request, area, order);
  }

  lemma BeginPrudent(s: Sys, a: Action)
    requires AllPrudent(s) && !a.CreateArea? && !a.LoadRuns? && !a.Proceed?
    requires ExpectedOnBegin(a).Some? ==>
               var (table, id, expected) := ExpectedOnBegin(a).value;
               VersionAt(s, table, id).Some? && expected <= VersionAt(s, table, id).value
    ensures AllPrudent(StepBegin(s, a).0)
  {
    hide ParseRunState, ParseGapState, RunTargets, GapTargets, AreaGeometryError, ValidLines, Projected, ValidStatus;
  }

  lemma {:induction false} PrudentThroughout(s: Sys, actions: seq<Action>)
    requires CallsOk(s) && AllPrudent(s) && Observant(s, actions)
    ensures AllPrudent(After(s, actions))
  {
    if actions != [] {
      var n := |actions| - 1;
      ObservantPrefix(s, actions, n);
      PrudentThroughout(s, actions[..n]);
      if ExpectedOnBegin(actions[n]).Some? {
        var (table, id, expected) := ExpectedOnBegin(actions[n]).value;
        ObservedIsNotLater(s, actions, n, table, id, expected);
      }
      StepPrudent(After(s, actions[..n]), actions[n]);
    }
  }

  lemma ObservantPrefix(s: Sys, actions: seq<Action>, n: nat)
    requires n <= |actions| && Observant(s, actions)
    ensures Observant(s, actions[..n])
  {
    forall k | 0 <= k < n && ExpectedOnBegin(actions[..n][k]).Some?
      ensures var (table, id, expected) := ExpectedOnBegin(actions[..n][k]).value;
              ObservedBy(s, actions[..n], k, table, id, expected)
    {
      var (table, id, expected) := ExpectedOnBegin(actions[k]).value;
      var i :| 0 <= i <= k && VersionAt(After(s, actions[..i]), table, id) == Some(expected);
      assert actions[..n][..i] == actions[..i];
    }
  }

  /** Frozen rows: if every edit expects a version that was observed before it began, no
      interleaving changes a locked plan or an archived area in any field. */
  lemma {:induction false} FrozenThroughout(s: Sys, actions: seq<Action>, i: nat)
    requires CallsOk(s) && AllPrudent(s) && Observant(s, actions) && i <= |actions|
    ensures FrozenKept(After(s, actions[..i]), After(s, actions))
    decreases |actions|
  {
    hide After, Step, FrozenKept, Observant, AllPrudent, CallsOk;
    var n := |actions|;
    if i == n {
      assert actions[..i] == actions;
      FrozenSame(After(s, actions), After(s, actions));
    } else {
      var front := actions[..n - 1];
      ObservantPrefix(s, actions, n - 1);
      FrozenThroughout(s, front, i);
      assert front[..i] == actions[..i];
      RunKeeps(s, front, 0);
      PrudentThroughout(s, front);
      StepFrozen(After(s, front), actions[n - 1]);
      LastStep(s, actions);
      FrozenTransitive(After(s, actions[..i]), After(s, front), After(s, actions));
    }
  }

  lemma LastStep(s: Sys, actions: seq<Action>)
    requires actions != []
    ensures After(s, actions) == Step(After(s, actions[..|actions| - 1]), actions[|actions| - 1]).0
  {
    hide Step;
  }

  lemma FrozenTransitive(a: Sys, b: Sys, c: Sys)
    requires FrozenKept(a, b) && FrozenKept(b, c)
    ensures FrozenKept(a, c)
  {
  }

  // ---- and exactly then ----

  /** Committing the waiting edit now would change a locked plan. */
  ghost predicate WouldThaw(s: Sys, t: nat, call: Call)
    requires call.PlanEdit?
  {
    && t in s.calls && s.calls[t] == call
    && call.id in s.plans && s.plans[call.id].state == Locked
    && Step(s, Proceed(t, 0, "")).0.plans != s.plans
  }

  /** The waiting edit is safe: no continuation reaches a state in which it would change
      a locked plan. */
  ghost predicate NeverThaws(s: Sys, t: nat, call: Call)
    requires call.PlanEdit?
  {
    forall actions :: !WouldThaw(After(s, actions), t, call)
  }

  /** Requests in range can lead to that state. */
  ghost predicate ThawsInRange(s: Sys, t: nat, call: Call)
    requires call.PlanEdit?
  {
    exists actions :: AllInRange(actions) && WouldThaw(After(s, actions), t, call)
  }

  lemma ThawMatches(s: Sys, t: nat, call: Call)
    requires call.PlanEdit? && WouldThaw(s, t, call)
    ensures s.plans[call.id].version == call.expected
  {
    assert Step(s, Proceed(t, 0, "")) == StepPlanEdit(s, t, call.id, call.expected, call.content);
  }

  lemma PrudentNeverThaws(s: Sys, t: nat, call: Call)
    requires CallsOk(s) && call.PlanEdit? && t in s.calls && s.calls[t] == call
    requires call.expected <= call.planBefore.version
    ensures NeverThaws(s, t, call)
  {
    forall actions
      ensures !WouldThaw(After(s, actions), t, call)
    {
      RunKeeps(s, actions, 0);
      var now := After(s, actions);
      if WouldThaw(now, t, call) {
        assert CallOk(now, call);
        ThawMatches(now, t, call);
        PrudentEditSpares(now, call);
      }
    }
  }

  // Other clients bring the draft to a version and lock it there.
  lemma {:induction false} LockAt(s: Sys, u: nat, id: Id, content: PlanContent, version: nat)
    returns (actions: seq<Action>)
    requires u !in s.calls && id in s.plans && s.plans[id].state == Draft && ValidLines(content.lines)
    requires version > s.plans[id].version
    ensures After(s, actions).calls == s.calls
    ensures id in After(s, actions).plans
    ensures After(s, actions).plans[id].state == Locked && After(s, actions).plans[id].version == version
    ensures s.plans[id].version > 0 && ContentInRange(content) ==> AllInRange(actions)
    decreases version - s.plans[id].version
  {
    hide AllInRange, ContentInRange;
    if version == s.plans[id].version + 1 {
      actions := LockOnce(s, u, id);
    } else {
      var first := EditOnce(s, u, id, content);
      var rest := LockAt(After(s, first), u, id, content, version);
      AfterConcat(s, first, rest);
      InRangeConcat(first, rest);
      actions := first + rest;
    }
  }

  lemma ImprudentThaws(s: Sys, t: nat, call: Call)
    requires call.PlanEdit? && t in s.calls && s.calls[t] == call && ValidLines(call.content.lines)
    requires call.id in s.plans && s.plans[call.id] == call.planBefore && call.planBefore.state == Draft
    requires call.expected > call.planBefore.version
    ensures !NeverThaws(s, t, call)
    ensures call.planBefore.version > 0 && ContentInRange(call.content) ==> ThawsInRange(s, t, call)
  {
    hide AllInRange, ContentInRange;
    var u := FreshId(s.calls.Keys);
    var actions := LockAt(s, u, call.id, call.content, call.expected);
    var now := After(s, actions);
    var after := Step(now, Proceed(t, 0, "")).0;
    assert after.plans[call.id].version == call.expected + 1;
    assert WouldThaw(now, t, call);
  }

  /** A plan edit that was just accepted can change a locked plan in some continuation
      if and only if it expects a version later than the one it read. If that edit is in
      range, a continuation of requests in range is enough. */
  lemma FrozenExactly(s: Sys, a: Action)
    requires CallsOk(s) && a.BeginPlanEdit? && Step(s, a).1 == Waiting
    ensures a.t in Step(s, a).0.calls && Step(s, a).0.calls[a.t].PlanEdit?
    ensures NeverThaws(Step(s, a).0, a.t, Step(s, a).0.calls[a.t])
            <==> a.expected <= Step(s, a).0.calls[a.t].planBefore.version
    ensures InRange(a) && Step(s, a).0.calls[a.t].planBefore.version > 0 ==>
              (ThawsInRange(Step(s, a).0, a.t, Step(s, a).0.calls[a.t])
               <==> a.expected > Step(s, a).0.calls[a.t].planBefore.version)
  {
    hide AllInRange, ContentInRange;
    StepKeeps(s, a);
    var now := Step(s, a).0;
    var call := now.calls[a.t];
    if a.expected <= call.planBefore.version {
      PrudentNeverThaws(now, a.t, call);
    } else {
      ImprudentThaws(now, a.t, call);
    }
  }

  // ---- the same for archived areas ----

  /** Committing the waiting edit now would change an archived area. */
  ghost predicate WouldRevive(s: Sys, t: nat, call: Call)
    requires call.AreaEdit?
  {
    && t in s.calls && s.calls[t] == call
    && call.id in s.areas && s.areas[call.id].fields.status == ARCHIVED
    && Step(s, Proceed(t, 0, "")).0.areas != s.areas
  }

  ghost predicate NeverRevives(s: Sys, t: nat, call: Call)
    requires call.AreaEdit?
  {
    forall actions :: !WouldRevive(After(s, actions), t, call)
  }

  ghost predicate RevivesInRange(s: Sys, t: nat, call: Call)
    requires call.AreaEdit?
  {
    exists actions :: AllInRange(actions) && WouldRevive(After(s, actions), t, call)
  }

  lemma ReviveMatches(s: Sys, t: nat, call: Call)
    requires call.AreaEdit? && WouldRevive(s, t, call)
    ensures s.areas[call.id].version == call.expected
  {
    assert Step(s, Proceed(t, 0, "")) == StepAreaEdit(s, t, call.id, call.expected, call.fields);
  }

  lemma PrudentNeverRevives(s: Sys, t: nat, call: Call)
    requires CallsOk(s) && call.AreaEdit? && t in s.calls && s.calls[t] == call
    requires call.expected <= call.areaBefore.version
    ensures NeverRevives(s, t, call)
  {
    forall actions
      ensures !WouldRevive(After(s, actions), t, call)
    {
      RunKeeps(s, actions, 0);
      var now := After(s, actions);
      if WouldRevive(now, t, call) {
        assert CallOk(now, call);
        ReviveMatches(now, t, call);
        PrudentEditSpares(now, call);
      }
    }
  }

  // Other clients bring the area to a version and archive it there.
  lemma {:induction false} ArchiveAt(s: Sys, u: nat, id: Id, fields: AreaFields, version: nat)
    returns (actions: seq<Action>)
    requires u !in s.calls && id in s.areas && s.areas[id].fields.status != ARCHIVED
    requires AreaGeometryError(fields) == None && version > s.areas[id].version
    ensures After(s, actions).calls == s.calls
    ensures id in After(s, actions).areas
    ensures After(s, actions).areas[id].fields.status == ARCHIVED && After(s, actions).areas[id].version == version
    ensures s.areas[id].version > 0 && AreaInRange(fields) ==> AllInRange(actions)
    decreases version - s.areas[id].version
  {
    hide AreaGeometryError;
    StatusIsNotGeometry(fields, "active");
    StatusIsNotGeometry(fields, ARCHIVED);
    assert AreaInRange(fields) ==> forall status :: AreaInRange(fields.(status := status));
    hide AreaInRange, AllInRange;
    if version == s.areas[id].version + 1 {
      actions := AreaEditOnce(s, u, id, fields.(status := ARCHIVED));
    } else {
      var first := AreaEditOnce(s, u, id, fields.(status := "active"));
      var rest := ArchiveAt(After(s, first), u, id, fields, version);
      AfterConcat(s, first, rest);
      InRangeConcat(first, rest);
      actions := first + rest;
    }
  }

  lemma ImprudentRevives(s: Sys, t: nat, call: Call)
    requires call.AreaEdit? && t in s.calls && s.calls[t] == call && AreaGeometryError(call.fields) == None
    requires call.id in s.areas && s.areas[call.id] == call.areaBefore && call.areaBefore.fields.status != ARCHIVED
    requires call.expected > call.areaBefore.version
    ensures !NeverRevives(s, t, call)
    ensures call.areaBefore.version > 0 && AreaInRange(call.fields) ==> RevivesInRange(s, t, call)
  {
    hide AreaGeometryError, AllInRange, AreaInRange;
    var u := FreshId(s.calls.Keys);
    var actions := ArchiveAt(s, u, call.id, call.fields, call.expected);
    var now := After(s, actions);
    var after := Step(now, Proceed(t, 0, "")).0;
    assert after.areas[call.id].version == call.expected + 1;
    assert WouldRevive(now, t, call);
  }

  /** An area edit that was just accepted can change an archived area in some
      continuation if and only if it expects a version later than the one it read. */
  lemma ArchivedExactly(s: Sys, a: Action)
    requires CallsOk(s) && a.BeginAreaEdit? && Step(s, a).1 == Waiting
    ensures a.t in Step(s, a).0.calls && Step(s, a).0.calls[a.t].AreaEdit?
    ensures NeverRevives(Step(s, a).0, a.t, Step(s, a).0.calls[a.t])
            <==> a.expected <= Step(s, a).0.calls[a.t].areaBefore.version
    ensures InRange(a) && Step(s, a).0.calls[a.t].areaBefore.version > 0 ==>
              (RevivesInRange(Step(s, a).0, a.t, Step(s, a).0.calls[a.t])
               <==> a.expected > Step(s, a).0.calls[a.t].areaBefore.version)
  {
    hide AreaGeometryError, AllInRange, AreaInRange;
    StepKeeps(s, a);
    var now := Step(s, a).0;
    var call := now.calls[a.t];
    if a.expected <= call.areaBefore.version {
      PrudentNeverRevives(now, a.t, call);
    } else {
      ImprudentRevives(now, a.t, call);
    }
  }
}
