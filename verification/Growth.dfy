/** How rows change over time: what is read once stays a truthful, possibly outdated,
    account of the row. The relations between an earlier and a later version of a row are
    what every waiting request can rely on. */
module Growth {
  import opened Wrappers
  import opened CacheKey
  import opened StateGraphs
  import opened Records
  import opened Workflow
  import opened Writes

  // ---- later versions of a row ----

  ghost predicate AreaLater(a: Area, b: Area) {
    a.code == b.code && a.version <= b.version && (a.version == b.version ==> a == b)
  }

  /** A locked plan never becomes a draft again. */
  ghost predicate PlanLater(a: Plan, b: Plan) {
    && a.areaId == b.areaId && a.createdBy == b.createdBy
    && a.version <= b.version && (a.version == b.version ==> a == b)
    && (a.state == Locked ==> b.state == Locked)
  }

  /** Every commit climbs a rank, so an equal state means an equal version and row. */
  ghost predicate RunLater(a: Run, b: Run) {
    && a.facts == b.facts && a.importedBy == b.importedBy
    && 0 <= b.version - a.version <= RunRank(b.state) - RunRank(a.state)
    && (a.version == b.version ==> a == b)
    && (a.state in {Processed, Superseded} ==> b.state in {Processed, Superseded})
  }

  ghost predicate GapLater(a: Gap, b: Gap) {
    && a.facts == b.facts
    && 0 <= b.version - a.version <= GapRank(b.state) - GapRank(a.state)
    && (a.version == b.version ==> a == b)
    && a.explanation <= b.explanation
  }

  lemma SameStateSameRun(a: Run, b: Run)
    requires RunLater(a, b) && a.state == b.state
    ensures a == b
  {
  }

  /** No ABA: a gap found in the state in which it was read is the gap that was read. */
  lemma SameStateSameGap(a: Gap, b: Gap)
    requires GapLater(a, b) && a.state == b.state
    ensures a == b
  {
  }

  // ---- later versions of a table ----

  ghost predicate TableGrows<R(!new)>(later: (R, R) -> bool, before: map<Id, R>, after: map<Id, R>) {
    forall id :: id in before ==> id in after && later(before[id], after[id])
  }

  ghost predicate Grows(s: Sys, s': Sys) {
    && TableGrows(AreaLater, s.areas, s'.areas)
    && TableGrows(PlanLater, s.plans, s'.plans)
    && TableGrows(RunLater, s.runs, s'.runs)
    && TableGrows(GapLater, s.gaps, s'.gaps)
  }

  lemma SameTablesGrow(s: Sys, s': Sys)
    requires s.areas == s'.areas && s.plans == s'.plans && s.runs == s'.runs && s.gaps == s'.gaps
    ensures Grows(s, s')
  {
  }

  // One row of one table written or added.
  lemma AreaWritten(s: Sys, s': Sys, id: Id)
    requires s'.plans == s.plans && s'.runs == s.runs && s'.gaps == s.gaps
    requires id in s'.areas && s'.areas == s.areas[id := s'.areas[id]]
    requires id in s.areas ==> AreaLater(s.areas[id], s'.areas[id])
    ensures Grows(s, s')
  {
  }

  lemma PlanWritten(s: Sys, s': Sys, id: Id)
    requires s'.areas == s.areas && s'.runs == s.runs && s'.gaps == s.gaps
    requires id in s'.plans && s'.plans == s.plans[id := s'.plans[id]]
    requires id in s.plans ==> PlanLater(s.plans[id], s'.plans[id])
    ensures Grows(s, s')
  {
  }

  lemma RunWritten(s: Sys, s': Sys, id: Id)
    requires s'.areas == s.areas && s'.plans == s.plans && s'.gaps == s.gaps
    requires id in s'.runs && s'.runs == s.runs[id := s'.runs[id]]
    requires id in s.runs ==> RunLater(s.runs[id], s'.runs[id])
    ensures Grows(s, s')
  {
  }

  lemma GapWritten(s: Sys, s': Sys, id: Id)
    requires s'.areas == s.areas && s'.plans == s.plans && s'.runs == s.runs
    requires id in s'.gaps && s'.gaps == s.gaps[id := s'.gaps[id]]
    requires id in s.gaps ==> GapLater(s.gaps[id], s'.gaps[id])
    ensures Grows(s, s')
  {
  }

  lemma GrowsTransitive(a: Sys, b: Sys, c: Sys)
    requires Grows(a, b) && Grows(b, c)
    ensures Grows(a, c)
  {
    AreasTransitive(a.areas, b.areas, c.areas);
    PlansTransitive(a.plans, b.plans, c.plans);
    RunsTransitive(a.runs, b.runs, c.runs);
    GapsTransitive(a.gaps, b.gaps, c.gaps);
  }

  lemma AreasTransitive(a: map<Id, Area>, b: map<Id, Area>, c: map<Id, Area>)
    requires TableGrows(AreaLater, a, b) && TableGrows(AreaLater, b, c)
    ensures TableGrows(AreaLater, a, c)
  {
    forall id | id in a
      ensures id in c && AreaLater(a[id], c[id])
    {
      assert AreaLater(a[id], b[id]) && AreaLater(b[id], c[id]);
    }
  }

  lemma PlansTransitive(a: map<Id, Plan>, b: map<Id, Plan>, c: map<Id, Plan>)
    requires TableGrows(PlanLater, a, b) && TableGrows(PlanLater, b, c)
    ensures TableGrows(PlanLater, a, c)
  {
    forall id | id in a
      ensures id in c && PlanLater(a[id], c[id])
    {
      assert PlanLater(a[id], b[id]) && PlanLater(b[id], c[id]);
    }
  }

  lemma RunsTransitive(a: map<Id, Run>, b: map<Id, Run>, c: map<Id, Run>)
    requires TableGrows(RunLater, a, b) && TableGrows(RunLater, b, c)
    ensures TableGrows(RunLater, a, c)
  {
    forall id | id in a
      ensures id in c && RunLater(a[id], c[id])
    {
      assert RunLater(a[id], b[id]) && RunLater(b[id], c[id]);
    }
  }

  lemma GapsTransitive(a: map<Id, Gap>, b: map<Id, Gap>, c: map<Id, Gap>)
    requires TableGrows(GapLater, a, b) && TableGrows(GapLater, b, c)
    ensures TableGrows(GapLater, a, c)
  {
    forall id | id in a
      ensures id in c && GapLater(a[id], c[id])
    {
      assert GapLater(a[id], b[id]) && GapLater(b[id], c[id]);
      PrefixTransitive(a[id].explanation, b[id].explanation, c[id].explanation);
    }
  }

  lemma PrefixTransitive<T>(a: seq<T>, b: seq<T>, c: seq<T>)
    requires a <= b && b <= c
    ensures a <= c
  {
  }

  // ---- what a waiting request can rely on ----

  ghost predicate LoadedOk(s: Sys, areaId: Id, l: Loaded) {
    && l.id in s.runs && RunLater(l.run, s.runs[l.id]) && l.run.state == Processed
    && l.run.facts.planId in s.plans && s.plans[l.run.facts.planId].areaId == areaId
  }

  /** The loaded runs are exactly the requested ones, each once. */
  ghost predicate SelectionOk(s: Sys, request: DetectRequest, loaded: seq<Loaded>) {
    && NoDuplicates(LoadedIds(loaded))
    && Members(LoadedIds(loaded)) == Members(request.runIds)
    && forall l :: l in loaded ==> LoadedOk(s, request.areaId, l)
  }

  ghost predicate AreaRead(s: Sys, id: Id, before: Area) {
    id in s.areas && AreaLater(before, s.areas[id])
  }

  ghost predicate PlanRead(s: Sys, id: Id, before: Plan) {
    id in s.plans && PlanLater(before, s.plans[id])
  }

  ghost predicate PlanIsLocked(s: Sys, id: Id) {
    id in s.plans && s.plans[id].state == Locked
  }

  ghost predicate CallOk(s: Sys, call: Call) {
    match call
    case AreaEdit(id, _, _, before) => AreaRead(s, id, before) && before.fields.status != ARCHIVED
    case PlanAdd(areaId, _, _) => areaId in s.areas
    case PlanEdit(id, _, _, before) => PlanRead(s, id, before) && before.state == Draft
    case PlanLock(id, _, before) => PlanRead(s, id, before) && before.state == Draft
    case PlanCopy(id, _, before) => PlanRead(s, id, before)
    case RunLookup(facts, _) => PlanIsLocked(s, facts.planId)
    case RunInsert(facts, _) => PlanIsLocked(s, facts.planId)
    case RunMove(id, _, to, before) =>
      && id in s.runs && RunLater(before, s.runs[id]) && to in RunTargets(before.state)
      && (to == QualityChecked ==> before.facts.navigation != NavInvalid)
    case GapReview(id, _, target, _, before) =>
      id in s.gaps && GapLater(before, s.gaps[id]) && target in GapTargets(before.state)
    case DetectArea(request, area) => AreaRead(s, request.areaId, area)
    case DetectLookup(request, area, loaded) => AreaRead(s, request.areaId, area) && SelectionOk(s, request, loaded)
    case DetectInsert(request, area, loaded) => AreaRead(s, request.areaId, area) && SelectionOk(s, request, loaded)
  }

  ghost predicate CallsOk(s: Sys) {
    forall t :: t in s.calls ==> CallOk(s, s.calls[t])
  }

  // What a request relies on survives every change of the tables.
  lemma CallStable(s: Sys, s': Sys, call: Call)
    requires Grows(s, s') && CallOk(s, call)
    ensures CallOk(s', call)
  {
    hide Grows, RunLater, GapLater, PlanIsLocked, SelectionOk;
    match call
    case AreaEdit(id, _, _, before) => AreaReadStable(s, s', id, before);
    case PlanAdd(areaId, _, _) => AreaReadStable(s, s', areaId, s.areas[areaId]);
    case PlanEdit(id, _, _, before) => PlanReadStable(s, s', id, before);
    case PlanLock(id, _, before) => PlanReadStable(s, s', id, before);
    case PlanCopy(id, _, before) => PlanReadStable(s, s', id, before);
    case RunLookup(facts, _) => PlanStaysLocked(s, s', facts.planId);
    case RunInsert(facts, _) => PlanStaysLocked(s, s', facts.planId);
    case RunMove(id, _, to, before) => RunReadStable(s, s', id, before);
    case GapReview(id, _, target, _, before) => GapReadStable(s, s', id, before);
    case DetectArea(request, area) => AreaReadStable(s, s', request.areaId, area);
    case DetectLookup(request, area, loaded) =>
      AreaReadStable(s, s', request.areaId, area);
      SelectionStable(s, s', request, loaded);
    case DetectInsert(request, area, loaded) =>
      AreaReadStable(s, s', request.areaId, area);
      SelectionStable(s, s', request, loaded);
  }

  lemma AreaReadStable(s: Sys, s': Sys, id: Id, before: Area)
    requires Grows(s, s') && AreaRead(s, id, before)
    ensures AreaRead(s', id, before)
  {
    assert AreaLater(s.areas[id], s'.areas[id]);
  }

  lemma PlanReadStable(s: Sys, s': Sys, id: Id, before: Plan)
    requires Grows(s, s') && PlanRead(s, id, before)
    ensures PlanRead(s', id, before)
  {
    assert PlanLater(s.plans[id], s'.plans[id]);
  }

  lemma PlanStaysLocked(s: Sys, s': Sys, id: Id)
    requires Grows(s, s') && PlanIsLocked(s, id)
    ensures PlanIsLocked(s', id)
  {
    assert PlanLater(s.plans[id], s'.plans[id]);
  }

  lemma RunReadStable(s: Sys, s': Sys, id: Id, before: Run)
    requires Grows(s, s') && id in s.runs && RunLater(before, s.runs[id])
    ensures id in s'.runs && RunLater(before, s'.runs[id])
  {
    assert RunLater(s.runs[id], s'.runs[id]);
  }

  lemma GapReadStable(s: Sys, s': Sys, id: Id, before: Gap)
    requires Grows(s, s') && id in s.gaps && GapLater(before, s.gaps[id])
    ensures id in s'.gaps && GapLater(before, s'.gaps[id])
  {
    assert GapLater(s.gaps[id], s'.gaps[id]);
    PrefixTransitive(before.explanation, s.gaps[id].explanation, s'.gaps[id].explanation);
  }

  lemma SelectionStable(s: Sys, s': Sys, request: DetectRequest, loaded: seq<Loaded>)
    requires Grows(s, s') && SelectionOk(s, request, loaded)
    ensures SelectionOk(s', request, loaded)
  {
    forall l | l in loaded
      ensures LoadedOk(s', request.areaId, l)
    {
      assert LoadedOk(s, request.areaId, l);
      assert RunLater(s.runs[l.id], s'.runs[l.id]);
      assert PlanLater(s.plans[l.run.facts.planId], s'.plans[l.run.facts.planId]);
    }
  }

  // ---- steps keep what requests rely on ----

  lemma WaitKeeps(s: Sys, t: nat, call: Call)
    requires CallsOk(s) && CallOk(s, call)
    ensures CallsOk(Wait(s, t, call).0) && Grows(s, Wait(s, t, call).0)
  {
    var s' := Wait(s, t, call).0;
    SameTablesGrow(s, s');
    forall u | u in s'.calls
      ensures CallOk(s', s'.calls[u])
    {
      if u == t {
        CallStable(s, s', call);
      } else {
        CallStable(s, s', s.calls[u]);
      }
    }
  }

  lemma FinishKeeps(s: Sys, s': Sys, t: nat)
    requires CallsOk(s) && Grows(s, s') && s'.calls == s.calls - {t}
    ensures CallsOk(s')
  {
    forall u | u in s'.calls
      ensures CallOk(s', s'.calls[u])
    {
      CallStable(s, s', s.calls[u]);
    }
  }

  /** The conclusion every step lemma below reaches. */
  ghost predicate Kept(s: Sys, s': Sys) {
    CallsOk(s') && Grows(s, s')
  }

  lemma IdleKeeps(s: Sys)
    requires CallsOk(s)
    ensures Kept(s, s)
  {
    SameTablesGrow(s, s);
  }

  lemma CreateAreaKeeps(s: Sys, newId: Id, code: string, fields: AreaFields)
    requires CallsOk(s)
    ensures Kept(s, StepCreateArea(s, newId, code, fields).0)
  {
    hide Grows, StepCreateArea;
    var s' := StepCreateArea(s, newId, code, fields).0;
    CreateAreaWrites(s, newId, code, fields);
    if s' == s {
      SameTablesGrow(s, s');
    } else {
      AreaWritten(s, s', newId);
    }
    forall u | u in s'.calls
      ensures CallOk(s', s'.calls[u])
    {
      CallStable(s, s', s.calls[u]);
    }
  }

  lemma BeginKeeps(s: Sys, a: Action)
    requires CallsOk(s) && !a.CreateArea? && !a.LoadRuns? && !a.Proceed?
    ensures Kept(s, StepBegin(s, a).0)
  {
    IdleKeeps(s);
    var (s', reply) := StepBegin(s, a);
    if s' != s {
      assert BeginCallOk(s, a) by { BeginReads(s, a); }
      WaitKeeps(s, a.t, s'.calls[a.t]);
    }
  }

  ghost predicate BeginCallOk(s: Sys, a: Action)
    requires !a.CreateArea? && !a.LoadRuns? && !a.Proceed?
  {
    var s' := StepBegin(s, a).0;
    a.t in s'.calls && CallOk(s, s'.calls[a.t]) && s' == Wait(s, a.t, s'.calls[a.t]).0
  }

  // What a request reads when it begins is the row itself.
  lemma BeginReads(s: Sys, a: Action)
    requires !a.CreateArea? && !a.LoadRuns? && !a.Proceed? && StepBegin(s, a).0 != s
    ensures BeginCallOk(s, a)
  {
    hide ParseRunState, ParseGapState, AreaGeometryError, ValidLines, Projected, ValidStatus, RunTargets, GapTargets,
         SelectionOk, RunRank, GapRank;
  }

  lemma EndedKeeps(s: Sys, s': Sys, t: nat)
    requires CallsOk(s) && Ended(s, s', t)
    ensures Kept(s, s')
  {
    SameTablesGrow(s, s');
    FinishKeeps(s, s', t);
  }

  lemma AreaEditKeeps(s: Sys, t: nat, id: Id, expected: nat, fields: AreaFields)
    requires CallsOk(s)
    ensures Kept(s, StepAreaEdit(s, t, id, expected, fields).0)
  {
    hide Grows, CallsOk, StepAreaEdit;
    var s' := StepAreaEdit(s, t, id, expected, fields).0;
    AreaEditWrites(s, t, id, expected, fields);
    if Ended(s, s', t) {
      EndedKeeps(s, s', t);
    } else {
      AreaWritten(s, s', id);
      FinishKeeps(s, s', t);
    }
  }

  lemma PlanAddedKeeps(s: Sys, s': Sys, t: nat, row: Id, plan: Plan)
    requires CallsOk(s) && (s' == s || PlanAdded(s, s', t, row, plan))
    ensures Kept(s, s')
  {
    hide Grows, CallsOk;
    IdleKeeps(s);
    if s' != s {
      PlanWritten(s, s', row);
      FinishKeeps(s, s', t);
    }
  }

  lemma PlanReplacedKeeps(s: Sys, s': Sys, t: nat, id: Id, expected: nat, plan: Plan)
    requires CallsOk(s) && PlanReplaced(s, s', t, id, expected, plan) && PlanLater(s.plans[id], plan)
    ensures Kept(s, s')
  {
    hide Grows, CallsOk;
    PlanWritten(s, s', id);
    FinishKeeps(s, s', t);
  }

  lemma PlanEditKeeps(s: Sys, t: nat, id: Id, expected: nat, content: PlanContent)
    requires CallsOk(s)
    ensures Kept(s, StepPlanEdit(s, t, id, expected, content).0)
  {
    hide Kept, CallsOk, StepPlanEdit;
    var s' := StepPlanEdit(s, t, id, expected, content).0;
    PlanEditWrites(s, t, id, expected, content);
    if Ended(s, s', t) {
      EndedKeeps(s, s', t);
    } else {
      PlanReplacedKeeps(s, s', t, id, expected, s.plans[id].(content := content, version := expected + 1));
    }
  }

  lemma PlanLockKeeps(s: Sys, t: nat, id: Id, expected: nat)
    requires CallsOk(s)
    ensures Kept(s, StepPlanLock(s, t, id, expected).0)
  {
    hide Kept, CallsOk, StepPlanLock;
    var s' := StepPlanLock(s, t, id, expected).0;
    PlanLockWrites(s, t, id, expected);
    if Ended(s, s', t) {
      EndedKeeps(s, s', t);
    } else {
      PlanReplacedKeeps(s, s', t, id, expected, s.plans[id].(state := Locked, version := expected + 1));
    }
  }

  lemma RunLookupKeeps(s: Sys, t: nat, facts: RunFacts, actor: Id, row: Id)
    requires CallsOk(s) && CallOk(s, RunLookup(facts, actor))
    ensures Kept(s, StepRunLookup(s, t, facts, actor, row).0)
  {
    hide Grows, CallsOk, StepRunLookup;
    var s' := StepRunLookup(s, t, facts, actor, row).0;
    RunLookupWrites(s, t, facts, actor, row);
    IdleKeeps(s);
    if Ended(s, s', t) {
      EndedKeeps(s, s', t);
    } else if s' != s {
      WaitKeeps(s, t, RunInsert(facts, actor));
    }
  }

  lemma RunInsertKeeps(s: Sys, t: nat, facts: RunFacts, actor: Id, row: Id)
    requires CallsOk(s)
    ensures Kept(s, StepRunInsert(s, t, facts, actor, row).0)
  {
    hide Grows, CallsOk, StepRunInsert, HasChecksum, HasCode;
    var s' := StepRunInsert(s, t, facts, actor, row).0;
    RunInsertWrites(s, t, facts, actor, row);
    IdleKeeps(s);
    if Ended(s, s', t) {
      EndedKeeps(s, s', t);
    } else if s' != s {
      RunWritten(s, s', row);
      FinishKeeps(s, s', t);
    }
  }

  lemma RunMoveKeeps(s: Sys, t: nat, id: Id, expected: nat, to: RunState, before: Run)
    requires CallsOk(s) && CallOk(s, RunMove(id, expected, to, before))
    ensures Kept(s, StepRunMove(s, t, id, expected, to, before).0)
  {
    hide Grows, CallsOk, StepRunMove, Moved;
    var s' := StepRunMove(s, t, id, expected, to, before).0;
    RunMoveWrites(s, t, id, expected, to, before);
    if Ended(s, s', t) {
      EndedKeeps(s, s', t);
    } else {
      RunWritten(s, s', id);
      FinishKeeps(s, s', t);
    }
  }

  /** A committed review extends the explanation the row has, although it was built from
      the explanation that was read. */
  lemma ReviewExtendsRow(s: Sys, id: Id, expected: nat, target: GapState, note: string, before: Gap)
    requires CallOk(s, GapReview(id, expected, target, note, before)) && s.gaps[id].state == before.state
    ensures s.gaps[id] == before
    ensures before.explanation + NOTE_MARK + note == s.gaps[id].explanation + NOTE_MARK + note
  {
    SameStateSameGap(before, s.gaps[id]);
  }

  lemma GapReviewKeeps(s: Sys, t: nat, id: Id, expected: nat, target: GapState, note: string, before: Gap)
    requires CallsOk(s) && CallOk(s, GapReview(id, expected, target, note, before))
    ensures Kept(s, StepGapReview(s, t, id, expected, target, note, before).0)
  {
    hide Grows, CallsOk, StepGapReview, Workflow.Reviewed;
    var s' := StepGapReview(s, t, id, expected, target, note, before).0;
    GapReviewWrites(s, t, id, expected, target, note, before);
    if Ended(s, s', t) {
      EndedKeeps(s, s', t);
    } else {
      ReviewExtendsRow(s, id, expected, target, note, before);
      assert before.explanation + NOTE_MARK + note == before.explanation + (NOTE_MARK + note);
      GapWritten(s, s', id);
      FinishKeeps(s, s', t);
    }
  }

  // ---- detection ----

  lemma {:induction false} NoErrorMeansAllFit(loaded: seq<Loaded>, areaId: Id)
    requires FirstError(loaded, areaId) == None
    ensures forall l :: l in loaded ==> LoadedError(l, areaId) == None
  {
    if loaded != [] {
      var n := |loaded| - 1;
      NoErrorMeansAllFit(loaded[..n], areaId);
      assert loaded == loaded[..n] + [loaded[n]];
    }
  }

  /** The count check makes the loaded runs exactly the requested ones. */
  lemma CountCheckIsExact(runs: map<Id, Run>, ids: seq<Id>, order: seq<Id>)
    requires IsSelection(runs, ids, order)
    ensures |order| == |Members(ids)| <==> forall id :: id in ids ==> id in runs
    ensures |order| == |Members(ids)| ==> Members(order) == Members(ids)
  {
    MembersCounted(order);
    if |order| == |Members(ids)| {
      SubsetOfSameSize(Members(order), Members(ids));
      forall id | id in ids
        ensures id in runs
      {
        assert id in Members(ids);
        assert id in Members(order);
      }
    }
    if forall id :: id in ids ==> id in runs {
      assert Members(order) == Members(ids);
    }
  }

  lemma SubsetOfSameSize<T>(a: set<T>, b: set<T>)
    requires a <= b && |a| == |b|
    ensures a == b
  {
    assert |b - a| == |b| - |a|;
    assert b - a == {};
  }

  lemma LoadIsOk(s: Sys, request: DetectRequest, order: seq<Id>)
    requires IsSelection(s.runs, request.runIds, order) && |order| == |Members(request.runIds)|
    requires forall id :: id in order ==> id in s.runs
    requires FirstError(Load(s.runs, s.plans, order), request.areaId) == None
    ensures SelectionOk(s, request, Load(s.runs, s.plans, order))
  {
    var loaded := Load(s.runs, s.plans, order);
    assert LoadedIds(loaded) == order;
    CountCheckIsExact(s.runs, request.runIds, order);
    NoErrorMeansAllFit(loaded, request.areaId);
    forall l | l in loaded
      ensures LoadedOk(s, request.areaId, l)
    {
      assert LoadedError(l, request.areaId) == None;
    }
  }

  lemma LoadRunsKeeps(s: Sys, t: nat, request: DetectRequest, area: Area, order: seq<Id>)
    requires CallsOk(s) && CallOk(s, DetectArea(request, area))
    ensures Kept(s, StepLoadRuns(s, t, request, area, order).0)
  {
    hide Kept, CallsOk, StepLoadRuns, IsSelection, Load, FirstError, SelectionOk;
    var s' := StepLoadRuns(s, t, request, area, order).0;
    LoadRunsWrites(s, t, request, area, order);
    IdleKeeps(s);
    if Ended(s, s', t) {
      EndedKeeps(s, s', t);
    } else if s' != s {
      LoadIsOk(s, request, order);
      WaitKept(s, t, DetectLookup(request, area, Load(s.runs, s.plans, order)));
    }
  }

  lemma WaitKept(s: Sys, t: nat, call: Call)
    requires CallsOk(s) && CallOk(s, call)
    ensures Kept(s, s.(calls := s.calls[t := call]))
  {
    WaitKeeps(s, t, call);
  }

  lemma DetectLookupKeeps(s: Sys, t: nat, request: DetectRequest, area: Area, loaded: seq<Loaded>, row: Id)
    requires CallsOk(s) && CallOk(s, DetectLookup(request, area, loaded))
    ensures Kept(s, StepDetectLookup(s, t, request, area, loaded, row).0)
  {
    hide Kept, CallsOk, StepDetectLookup, SelectionOk;
    var s' := StepDetectLookup(s, t, request, area, loaded, row).0;
    DetectLookupWrites(s, t, request, area, loaded, row);
    IdleKeeps(s);
    if Ended(s, s', t) {
      EndedKeeps(s, s', t);
    } else if s' != s {
      WaitKept(s, t, DetectInsert(request, area, loaded));
    }
  }

  lemma DetectInsertKeeps(
      s: Sys, t: nat, request: DetectRequest, area: Area, loaded: seq<Loaded>, row: Id, text: string)
    requires CallsOk(s)
    ensures Kept(s, StepDetectInsert(s, t, request, area, loaded, row, text).0)
  {
    hide Grows, CallsOk, StepDetectInsert, Coverage.Score, KeyOf, FactsOf, Uniqued, HasKey, Resolution, TracksOf;
    var s' := StepDetectInsert(s, t, request, area, loaded, row, text).0;
    DetectInsertWrites(s, t, request, area, loaded, row, text);
    IdleKeeps(s);
    if Ended(s, s', t) {
      EndedKeeps(s, s', t);
    } else if s' != s {
      GapWritten(s, s', row);
      FinishKeeps(s, s', t);
    }
  }

  // ---- every step ----

  lemma ProceedKeeps(s: Sys, t: nat, row: Id, text: string)
    requires CallsOk(s) && t in s.calls
    ensures Kept(s, StepProceed(s, t, s.calls[t], row, text).0)
  {
    hide Kept, StepAreaEdit, StepPlanAdd, StepPlanEdit, StepPlanLock, StepPlanCopy, StepRunLookup, StepRunInsert,
         StepRunMove, StepGapReview, StepDetectLookup, StepDetectInsert, CopyOf;
    assert CallOk(s, s.calls[t]);
    hide CallsOk, CallOk;
    IdleKeeps(s);
    var s' := StepProceed(s, t, s.calls[t], row, text).0;
    match s.calls[t]
    case AreaEdit(id, expected, fields, _) => AreaEditKeeps(s, t, id, expected, fields);
    case PlanAdd(areaId, content, actor) =>
      PlanAddWrites(s, t, areaId, content, actor, row);
      PlanAddedKeeps(s, s', t, row, Plan(areaId, content, Draft, 1, actor));
    case PlanEdit(id, expected, content, _) => PlanEditKeeps(s, t, id, expected, content);
    case PlanLock(id, expected, _) => PlanLockKeeps(s, t, id, expected);
    case PlanCopy(_, actor, before) =>
      PlanCopyWrites(s, t, before, actor, row);
      PlanAddedKeeps(s, s', t, row, CopyOf(before, actor));
    case RunLookup(facts, actor) => RunLookupKeeps(s, t, facts, actor, row);
    case RunInsert(facts, actor) => RunInsertKeeps(s, t, facts, actor, row);
    case RunMove(id, expected, to, before) => RunMoveKeeps(s, t, id, expected, to, before);
    case GapReview(id, expected, target, note, before) => GapReviewKeeps(s, t, id, expected, target, note, before);
    case DetectArea(_, _) =>
    case DetectLookup(request, area, loaded) => DetectLookupKeeps(s, t, request, area, loaded, row);
    case DetectInsert(request, area, loaded) => DetectInsertKeeps(s, t, request, area, loaded, row, text);
  }

  /** Every step keeps what the waiting requests rely on, and only grows the tables. */
  lemma StepKeeps(s: Sys, a: Action)
    requires CallsOk(s)
    ensures CallsOk(Step(s, a).0) && Grows(s, Step(s, a).0)
  {
    hide Grows, StepBegin, StepLoadRuns, StepCreateArea, StepProceed;
    IdleKeeps(s);
    match a
    case CreateArea(newId, code, fields) => CreateAreaKeeps(s, newId, code, fields);
    case LoadRuns(t, order) =>
      if t in s.calls && s.calls[t].DetectArea? {
        assert CallOk(s, s.calls[t]);
        LoadRunsKeeps(s, t, s.calls[t].request, s.calls[t].area, order);
      }
    case Proceed(t, row, text) =>
      if t in s.calls {
        ProceedKeeps(s, t, row, text);
      }
    case _ =>
      if a.t !in s.calls {
        BeginKeeps(s, a);
      }
  }

  /** Over any run of steps, from any of its states to any later one. */
  lemma {:induction false} RunKeeps(s: Sys, actions: seq<Action>, i: nat)
    requires CallsOk(s) && i <= |actions|
    ensures CallsOk(After(s, actions)) && Grows(After(s, actions[..i]), After(s, actions))
  {
    var n := |actions|;
    if i == n {
      assert actions[..i] == actions;
      if n > 0 {
        RunKeeps(s, actions[..n - 1], n - 1);
        StepKeeps(After(s, actions[..n - 1]), actions[n - 1]);
      }
      SameTablesGrow(After(s, actions), After(s, actions));
    } else {
      RunKeeps(s, actions[..n - 1], i);
      assert actions[..n - 1][..i] == actions[..i];
      StepKeeps(After(s, actions[..n - 1]), actions[n - 1]);
      GrowsTransitive(After(s, actions[..i]), After(s, actions[..n - 1]), After(s, actions));
    }
  }
}
