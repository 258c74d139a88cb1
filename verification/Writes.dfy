/** What the steps write: each leaves everything as it was, ends its request empty-handed,
    or writes exactly the rows named here. */
module Writes {
  import opened Wrappers
  import opened Coverage
  import opened CacheKey
  import opened StateGraphs
  import opened Records
  import opened Workflow

  /** The request is over and no table changed. */
  ghost predicate Ended(s: Sys, s': Sys, t: nat) {
    s' == s.(calls := s.calls - {t})
  }

  /** Nothing changed but which requests wait for what. */
  ghost predicate TablesKept(s: Sys, s': Sys) {
    s' == s.(calls := s'.calls)
  }

  // ---- areas and plans ----

  lemma AreaEditWrites(s: Sys, t: nat, id: Id, expected: nat, fields: AreaFields)
    ensures var s' := StepAreaEdit(s, t, id, expected, fields).0;
            || Ended(s, s', t)
            || (&& id in s.areas && s.areas[id].version == expected
                && s' == s.(areas := s.areas[id := s.areas[id].(fields := fields, version := expected + 1)],
                            calls := s.calls - {t}))
  {
  }

  ghost predicate PlanAdded(s: Sys, s': Sys, t: nat, row: Id, plan: Plan) {
    row !in s.plans && s' == s.(plans := s.plans[row := plan], calls := s.calls - {t})
  }

  lemma PlanAddWrites(s: Sys, t: nat, areaId: Id, content: PlanContent, actor: Id, row: Id)
    ensures var s' := StepPlanAdd(s, t, areaId, content, actor, row).0;
            s' == s || PlanAdded(s, s', t, row, Plan(areaId, content, Draft, 1, actor))
  {
  }

  lemma PlanCopyWrites(s: Sys, t: nat, before: Plan, actor: Id, row: Id)
    ensures var s' := StepPlanCopy(s, t, before, actor, row).0;
            s' == s || PlanAdded(s, s', t, row, CopyOf(before, actor))
  {
    hide CopyOf;
  }

  /** The row had the expected version and was replaced by the plan. */
  ghost predicate PlanReplaced(s: Sys, s': Sys, t: nat, id: Id, expected: nat, plan: Plan) {
    && id in s.plans && s.plans[id].version == expected
    && s' == s.(plans := s.plans[id := plan], calls := s.calls - {t})
  }

  lemma PlanEditWrites(s: Sys, t: nat, id: Id, expected: nat, content: PlanContent)
    ensures var s' := StepPlanEdit(s, t, id, expected, content).0;
            || Ended(s, s', t)
            || (id in s.plans
                && PlanReplaced(s, s', t, id, expected, s.plans[id].(content := content, version := expected + 1)))
  {
  }

  lemma PlanLockWrites(s: Sys, t: nat, id: Id, expected: nat)
    ensures var s' := StepPlanLock(s, t, id, expected).0;
            || Ended(s, s', t)
            || (id in s.plans && s.plans[id].state == Draft
                && PlanReplaced(s, s', t, id, expected, s.plans[id].(state := Locked, version := expected + 1)))
  {
  }

  // ---- runs ----

  lemma RunLookupWrites(s: Sys, t: nat, facts: RunFacts, actor: Id, row: Id)
    ensures var s' := StepRunLookup(s, t, facts, actor, row).0;
            s' == s || Ended(s, s', t) || s' == s.(calls := s.calls[t := RunInsert(facts, actor)])
  {
    hide HasChecksum;
  }

  ghost predicate RunAdded(s: Sys, s': Sys, t: nat, row: Id, facts: RunFacts, actor: Id) {
    && row !in s.runs && !HasChecksum(s.runs, facts.checksum) && !HasCode(s.runs, facts.code)
    && s' == s.(runs := s.runs[row := Run(facts, Imported, 1, actor)], calls := s.calls - {t},
                runHistory := s.runHistory[row := RunHistory(1, [Imported])])
  }

  lemma RunInsertWrites(s: Sys, t: nat, facts: RunFacts, actor: Id, row: Id)
    ensures var s' := StepRunInsert(s, t, facts, actor, row).0;
            s' == s || Ended(s, s', t) || RunAdded(s, s', t, row, facts, actor)
  {
    hide HasChecksum, HasCode;
  }

  ghost predicate RunMoved(s: Sys, s': Sys, t: nat, id: Id, expected: nat, from: RunState, to: RunState) {
    && id in s.runs && s.runs[id].version == expected && s.runs[id].state == from
    && s' == s.(runs := s.runs[id := s.runs[id].(state := to, version := expected + 1)], calls := s.calls - {t},
                runHistory := Moved(s.runHistory, id, to))
  }

  lemma RunMoveWrites(s: Sys, t: nat, id: Id, expected: nat, to: RunState, before: Run)
    ensures var s' := StepRunMove(s, t, id, expected, to, before).0;
            Ended(s, s', t) || RunMoved(s, s', t, id, expected, before.state, to)
  {
    hide Moved;
  }

  // ---- gaps ----

  ghost predicate GapReviewed(
      s: Sys, s': Sys, t: nat, id: Id, expected: nat, from: GapState, to: GapState, explanation: string, note: string)
  {
    && id in s.gaps && s.gaps[id].version == expected && s.gaps[id].state == from
    && s' == s.(gaps := s.gaps[id := s.gaps[id].(state := to, explanation := explanation, version := expected + 1)],
                calls := s.calls - {t}, gapHistory := Workflow.Reviewed(s.gapHistory, id, Review(note, to)))
  }

  lemma GapReviewWrites(s: Sys, t: nat, id: Id, expected: nat, target: GapState, note: string, before: Gap)
    ensures var s' := StepGapReview(s, t, id, expected, target, note, before).0;
            || Ended(s, s', t)
            || GapReviewed(s, s', t, id, expected, before.state, target, before.explanation + NOTE_MARK + note, note)
  {
    hide Workflow.Reviewed;
  }

  lemma DetectLookupWrites(s: Sys, t: nat, request: DetectRequest, area: Area, loaded: seq<Loaded>, row: Id)
    ensures var s' := StepDetectLookup(s, t, request, area, loaded, row).0;
            s' == s || Ended(s, s', t) || s' == s.(calls := s.calls[t := DetectInsert(request, area, loaded)])
  {
    hide KeyOf, HasKey;
  }

  ghost predicate GapAdded(s: Sys, s': Sys, t: nat, row: Id, facts: GapFacts, history: GapHistory) {
    && row !in s.gaps && !HasKey(s.gaps, facts.key)
    && s' == s.(gaps := s.gaps[row := Gap(facts, Detected, history.text, 1)], calls := s.calls - {t},
                gapHistory := s.gapHistory[row := history])
  }

  lemma InsertGapWrites(s: Sys, t: nat, row: Id, facts: GapFacts, history: GapHistory)
    ensures var s' := InsertGap(s, t, row, facts, history).0;
            s' == s || Ended(s, s', t) || GapAdded(s, s', t, row, facts, history)
  {
    hide HasKey;
  }

  /** The new gap holds the score of what the detection read, under the key of what it read. */
  ghost predicate DetectionAdded(
      s: Sys, s': Sys, t: nat, request: DetectRequest, area: Area, loaded: seq<Loaded>, row: Id, text: string)
  {
    var score := Score(area.fields.boundary, TracksOf(loaded), Resolution(request, area));
    && score.Ok?
    && GapAdded(s, s', t, row, FactsOf(request, Uniqued(request.runIds), KeyOf(request, area, loaded), score.value),
                GapHistory(text, area.fields.boundary, LoadedIds(loaded), []))
  }

  lemma DetectInsertWrites(
      s: Sys, t: nat, request: DetectRequest, area: Area, loaded: seq<Loaded>, row: Id, text: string)
    ensures var s' := StepDetectInsert(s, t, request, area, loaded, row, text).0;
            s' == s || Ended(s, s', t) || DetectionAdded(s, s', t, request, area, loaded, row, text)
  {
    hide Score, KeyOf, ValidPolygon, Uniqued, Resolution, InsertGap, GapAdded;
    var score := Score(area.fields.boundary, TracksOf(loaded), Resolution(request, area));
    if ValidPolygon(area.fields.boundary) && score.Ok? {
      InsertGapWrites(s, t, row, FactsOf(request, Uniqued(request.runIds), KeyOf(request, area, loaded), score.value),
                      GapHistory(text, area.fields.boundary, LoadedIds(loaded), []));
    }
  }

  // ---- steps that write no row, and the remaining insert ----

  lemma LoadRunsWrites(s: Sys, t: nat, request: DetectRequest, area: Area, order: seq<Id>)
    ensures var s' := StepLoadRuns(s, t, request, area, order).0;
            || s' == s || Ended(s, s', t)
            || (&& IsSelection(s.runs, request.runIds, order) && |order| == |Members(request.runIds)|
                && (forall id :: id in order ==> id in s.runs)
                && FirstError(Load(s.runs, s.plans, order), request.areaId) == None
                && s' == s.(calls := s.calls[t := DetectLookup(request, area, Load(s.runs, s.plans, order))]))
  {
    SelectionStored(s.runs, request.runIds, order);
    hide IsSelection, FirstError, Load, Members, NoDuplicates;
  }

  lemma SelectionStored(runs: map<Id, Run>, ids: seq<Id>, order: seq<Id>)
    ensures IsSelection(runs, ids, order) ==> forall id :: id in order ==> id in runs
  {
    assert forall id :: id in order ==> id in Members(order);
  }

  ghost predicate AreaAdded(s: Sys, s': Sys, newId: Id, code: string, fields: AreaFields) {
    && newId !in s.areas && (forall id :: id in s.areas ==> s.areas[id].code != code)
    && s' == s.(areas := s.areas[newId := Area(code, fields.(status := "draft"), 1)])
  }

  lemma CreateAreaWrites(s: Sys, newId: Id, code: string, fields: AreaFields)
    ensures var s' := StepCreateArea(s, newId, code, fields).0; s' == s || AreaAdded(s, s', newId, code, fields)
  {
    hide AreaGeometryError;
  }

  lemma BeginWritesNothing(s: Sys, a: Action)
    requires !a.CreateArea? && !a.LoadRuns? && !a.Proceed?
    ensures TablesKept(s, StepBegin(s, a).0)
  {
    hide ParseRunState, ParseGapState, RunTargets, GapTargets, AreaGeometryError, ValidLines, Projected, ValidStatus;
  }

  /** The action lets a waiting request run its next statement. */
  predicate Proceeds(s: Sys, a: Action) {
    a.Proceed? && a.t in s.calls
  }

  lemma StepProceeds(s: Sys, a: Action)
    requires Proceeds(s, a)
    ensures Step(s, a) == StepProceed(s, a.t, s.calls[a.t], a.row, a.text)
  {
  }

  /** All other steps write no row, except that one adds an area. */
  lemma StartsWrite(s: Sys, a: Action)
    requires !Proceeds(s, a)
    ensures var s' := Step(s, a).0;
            TablesKept(s, s') || (a.CreateArea? && AreaAdded(s, s', a.newId, a.code, a.fields))
  {
    hide StepBegin, StepLoadRuns, StepCreateArea, AreaAdded;
    if a.CreateArea? {
      CreateAreaWrites(s, a.newId, a.code, a.fields);
    } else if a.LoadRuns? {
      if a.t in s.calls && s.calls[a.t].DetectArea? {
        LoadRunsKeepsTables(s, a.t, s.calls[a.t].request, s.calls[a.t].area, a.order);
      }
    } else if !a.Proceed? {
      BeginWritesNothing(s, a);
    }
  }

  lemma LoadRunsKeepsTables(s: Sys, t: nat, request: DetectRequest, area: Area, order: seq<Id>)
    ensures TablesKept(s, StepLoadRuns(s, t, request, area, order).0)
  {
    hide StepLoadRuns, IsSelection, FirstError, Load, Members;
    LoadRunsWrites(s, t, request, area, order);
  }
}
