/** Stored input is checked input: whatever was refused when it was sent is nowhere in the
    tables, and no detection stumbles over it. */
module Inputs {
  import opened Wrappers
  import opened Coverage
  import opened Reports
  import opened CacheKey
  import opened StateGraphs
  import opened Records
  import opened Workflow
  import opened Writes
  import opened Safety

  predicate CheckedArea(fields: AreaFields) {
    AreaGeometryError(fields) == None && ValidStatus(fields.status)
  }

  predicate CheckedRun(facts: RunFacts) {
    ValidLines(facts.lines) && facts.startedAt < facts.endedAt
  }

  ghost predicate RowsChecked(s: Sys) {
    && (forall id :: id in s.areas ==> CheckedArea(s.areas[id].fields))
    && (forall id :: id in s.plans ==> ValidLines(s.plans[id].content.lines))
    && (forall id :: id in s.runs ==> CheckedRun(s.runs[id].facts))
  }

  /** What a waiting request is going to write, and what it read, was checked. */
  predicate CallChecked(call: Call) {
    match call
    case AreaEdit(_, _, fields, _) => CheckedArea(fields)
    case PlanAdd(_, content, _) => ValidLines(content.lines)
    case PlanEdit(_, _, content, _) => ValidLines(content.lines)
    case PlanCopy(_, _, before) => ValidLines(before.content.lines)
    case RunLookup(facts, _) => CheckedRun(facts)
    case RunInsert(facts, _) => CheckedRun(facts)
    case DetectArea(_, area) => CheckedArea(area.fields)
    case DetectLookup(_, area, _) => CheckedArea(area.fields)
    case DetectInsert(_, area, _) => CheckedArea(area.fields)
    case _ => true
  }

  ghost predicate InputsChecked(s: Sys) {
    RowsChecked(s) && forall t :: t in s.calls ==> CallChecked(s.calls[t])
  }

  // ---- what the checks check ----

  /** An area is accepted in a projected coordinate system, with at least four positions and a
      positive area of at most 1000000000; the refusals come in that order. */
  lemma AreaChecks(fields: AreaFields)
    ensures var boundary := fields.boundary;
            var drawn := boundary != [] && |boundary[0]| >= 4 && Coverage.Area(boundary) > 0.0;
            && (AreaGeometryError(fields) == Some(CoordinateSystemInvalid) <==> !Projected(fields.crs))
            && (AreaGeometryError(fields) == Some(GeometryInvalid) <==> Projected(fields.crs) && !drawn)
            && (AreaGeometryError(fields) == Some(AreaTooLarge) <==>
                  Projected(fields.crs) && drawn && Coverage.Area(boundary) > 1000000000.0)
            && (AreaGeometryError(fields) == None <==>
                  Projected(fields.crs) && drawn && Coverage.Area(boundary) <= 1000000000.0)
  {
    hide Projected;
  }

  lemma MentionsExactly(text: string, word: string)
    ensures Mentions(text, word) <==> exists before, after :: text == before + word + after
  {
    if k :| 0 <= k <= |text| && word <= text[k..] {
      assert text == text[..k] + word + text[k + |word|..];
    }
    if before, after :| text == before + word + after {
      assert word <= text[|before|..];
    }
  }

  /** Projected means that some system is named and no geographic one is mentioned. */
  lemma ProjectedExactly(crs: string)
    ensures Projected(crs) <==>
            && crs != ""
            && forall before, after ::
                 crs != before + "4326" + after && crs != before + "WGS84" + after && crs != before + "WGS 84" + after
  {
    hide Mentions;
    MentionsExactly(crs, "4326");
    MentionsExactly(crs, "WGS84");
    MentionsExactly(crs, "WGS 84");
  }

  // ---- steps ----

  lemma BeginChecked(s: Sys, a: Action)
    requires RowsChecked(s) && !a.CreateArea? && !a.LoadRuns? && !a.Proceed?
    ensures var s' := StepBegin(s, a).0;
            || s' == s
            || (&& a.t in s'.calls && CallChecked(s'.calls[a.t])
                && s' == s.(calls := s.calls[a.t := s'.calls[a.t]]))
  {
    hide ParseRunState, ParseGapState, RunTargets, GapTargets, AreaGeometryError, ValidLines, Projected, ValidStatus;
  }

  lemma BegunStaysChecked(s: Sys, s': Sys, t: nat, call: Call)
    requires InputsChecked(s) && CallChecked(call) && s' == s.(calls := s.calls[t := call])
    ensures InputsChecked(s')
  {
    hide CallChecked, RowsChecked;
    SameRowsChecked(s, s');
  }

  lemma SameRowsChecked(s: Sys, s': Sys)
    requires RowsChecked(s) && s'.areas == s.areas && s'.plans == s.plans && s'.runs == s.runs
    ensures RowsChecked(s')
  {
  }

  lemma EndedStaysChecked(s: Sys, s': Sys, t: nat)
    requires InputsChecked(s) && RowsChecked(s') && (s'.calls == s.calls || s'.calls == s.calls - {t})
    ensures InputsChecked(s')
  {
    hide CallChecked, RowsChecked;
  }

  lemma AreaStepChecked(s: Sys, t: nat, id: Id, expected: nat, fields: AreaFields)
    requires InputsChecked(s) && CheckedArea(fields)
    ensures InputsChecked(StepAreaEdit(s, t, id, expected, fields).0)
  {
    hide StepAreaEdit, CheckedArea, CallChecked;
    AreaEditWrites(s, t, id, expected, fields);
    EndedStaysChecked(s, StepAreaEdit(s, t, id, expected, fields).0, t);
  }

  lemma PlanStepsChecked(s: Sys, t: nat, call: Call, row: Id, text: string)
    requires InputsChecked(s) && OnPlans(call) && CallChecked(call)
    ensures InputsChecked(StepProceed(s, t, call, row, text).0)
  {
    hide StepPlanAdd, StepPlanEdit, StepPlanLock, StepPlanCopy, CheckedArea, ValidLines, CheckedRun;
    var s' := StepProceed(s, t, call, row, text).0;
    match call {
      case PlanAdd(areaId, content, actor) => PlanAddWrites(s, t, areaId, content, actor, row);
      case PlanCopy(_, actor, before) => PlanCopyWrites(s, t, before, actor, row);
      case PlanEdit(id, expected, content, before) => PlanEditWrites(s, t, id, expected, content);
      case PlanLock(id, expected, _) => PlanLockWrites(s, t, id, expected);
    }
    hide StepProceed, CallChecked;
    EndedStaysChecked(s, s', t);
  }

  lemma RunInsertChecked(s: Sys, t: nat, facts: RunFacts, actor: Id, row: Id)
    requires InputsChecked(s) && CheckedRun(facts)
    ensures InputsChecked(StepRunInsert(s, t, facts, actor, row).0)
  {
    hide StepRunInsert, CheckedArea, CheckedRun, CallChecked, HasChecksum, HasCode, ValidLines;
    var s' := StepRunInsert(s, t, facts, actor, row).0;
    RunInsertWrites(s, t, facts, actor, row);
    if RunAdded(s, s', t, row, facts, actor) {
      AddedRunChecked(s, s', row);
    }
    hide RowsChecked;
    if s'.runs == s.runs {
      SameRowsChecked(s, s');
    }
    EndedStaysChecked(s, s', t);
  }

  lemma AddedRunChecked(s: Sys, s': Sys, row: Id)
    requires RowsChecked(s) && s'.areas == s.areas && s'.plans == s.plans
    requires row in s'.runs && s'.runs == s.runs[row := s'.runs[row]] && CheckedRun(s'.runs[row].facts)
    ensures RowsChecked(s')
  {
    hide CheckedArea, CheckedRun, ValidLines;
  }

  lemma RunMoveChecked(s: Sys, t: nat, id: Id, expected: nat, to: RunState, before: Run)
    requires InputsChecked(s)
    ensures InputsChecked(StepRunMove(s, t, id, expected, to, before).0)
  {
    hide StepRunMove, CheckedArea, CheckedRun, CallChecked, Moved, ValidLines;
    RunMoveWrites(s, t, id, expected, to, before);
    EndedStaysChecked(s, StepRunMove(s, t, id, expected, to, before).0, t);
  }

  // The steps that change at most gaps.
  lemma GapStepsChecked(s: Sys, t: nat, call: Call, row: Id, text: string)
    requires InputsChecked(s) && (call.GapReview? || call.DetectInsert? || call.DetectArea?)
    ensures InputsChecked(StepProceed(s, t, call, row, text).0)
  {
    hide StepGapReview, StepDetectInsert, RowsChecked, CallChecked;
    var s' := StepProceed(s, t, call, row, text).0;
    match call {
      case GapReview(id, expected, target, note, before) =>
        GapReviewLeavesRows(s, t, id, expected, target, note, before);
      case DetectInsert(request, area, loaded) => DetectInsertLeavesRows(s, t, request, area, loaded, row, text);
      case DetectArea(_, _) =>
    }
    hide StepProceed;
    SameRowsChecked(s, s');
    EndedStaysChecked(s, s', t);
  }

  lemma GapReviewLeavesRows(s: Sys, t: nat, id: Id, expected: nat, target: GapState, note: string, before: Gap)
    ensures var s' := StepGapReview(s, t, id, expected, target, note, before).0;
            s'.areas == s.areas && s'.plans == s.plans && s'.runs == s.runs && s'.calls == s.calls - {t}
  {
    hide StepGapReview, Workflow.Reviewed;
    GapReviewWrites(s, t, id, expected, target, note, before);
  }

  lemma DetectInsertLeavesRows(
      s: Sys, t: nat, request: DetectRequest, area: Area, loaded: seq<Loaded>, row: Id, text: string)
    ensures var s' := StepDetectInsert(s, t, request, area, loaded, row, text).0;
            && s'.areas == s.areas && s'.plans == s.plans && s'.runs == s.runs
            && (s'.calls == s.calls || s'.calls == s.calls - {t})
  {
    hide StepDetectInsert, Score, KeyOf, Uniqued, Workflow.Resolution, TracksOf, FactsOf, HasKey;
    DetectInsertWrites(s, t, request, area, loaded, row, text);
  }

  lemma LookupsChecked(s: Sys, t: nat, call: Call, row: Id, text: string)
    requires InputsChecked(s) && (call.RunLookup? || call.DetectLookup?) && CallChecked(call)
    ensures InputsChecked(StepProceed(s, t, call, row, text).0)
  {
    hide StepRunLookup, StepDetectLookup, RowsChecked;
    var s' := StepProceed(s, t, call, row, text).0;
    match call {
      case RunLookup(facts, actor) =>
        RunLookupWrites(s, t, facts, actor, row);
        if s' == s.(calls := s.calls[t := RunInsert(facts, actor)]) {
          BegunStaysChecked(s, s', t, RunInsert(facts, actor));
        } else {
          SameRowsChecked(s, s');
          EndedStaysChecked(s, s', t);
        }
      case DetectLookup(request, area, loaded) =>
        DetectLookupWrites(s, t, request, area, loaded, row);
        if s' == s.(calls := s.calls[t := DetectInsert(request, area, loaded)]) {
          BegunStaysChecked(s, s', t, DetectInsert(request, area, loaded));
        } else {
          SameRowsChecked(s, s');
          EndedStaysChecked(s, s', t);
        }
    }
  }

  lemma ProceedChecked(s: Sys, t: nat, call: Call, row: Id, text: string)
    requires InputsChecked(s) && CallChecked(call)
    ensures InputsChecked(StepProceed(s, t, call, row, text).0)
  {
    hide StepAreaEdit, StepPlanAdd, StepPlanEdit, StepPlanLock, StepPlanCopy, StepRunLookup, StepRunInsert, StepRunMove,
         StepGapReview, StepDetectLookup, StepDetectInsert, InputsChecked, CheckedArea, CheckedRun, ValidLines;
    match call
    case AreaEdit(id, expected, fields, _) => AreaStepChecked(s, t, id, expected, fields);
    case RunInsert(facts, actor) => RunInsertChecked(s, t, facts, actor, row);
    case RunMove(id, expected, to, before) => RunMoveChecked(s, t, id, expected, to, before);
    case RunLookup(_, _) => LookupsChecked(s, t, call, row, text);
    case DetectLookup(_, _, _) => LookupsChecked(s, t, call, row, text);
    case GapReview(_, _, _, _, _) => GapStepsChecked(s, t, call, row, text);
    case DetectArea(_, _) => GapStepsChecked(s, t, call, row, text);
    case DetectInsert(_, _, _) => GapStepsChecked(s, t, call, row, text);
    case _ => PlanStepsChecked(s, t, call, row, text);
  }

  lemma CreateAreaChecked(s: Sys, newId: Id, code: string, fields: AreaFields)
    requires InputsChecked(s)
    ensures InputsChecked(StepCreateArea(s, newId, code, fields).0)
  {
    hide CallChecked, CheckedRun, ValidLines, Projected, ValidPolygon;
  }

  lemma LoadRunsChecked(s: Sys, t: nat, request: DetectRequest, area: Area, order: seq<Id>)
    requires InputsChecked(s) && CheckedArea(area.fields)
    ensures InputsChecked(StepLoadRuns(s, t, request, area, order).0)
  {
    hide StepLoadRuns, IsSelection, FirstError, Load, Members, RowsChecked, CheckedArea;
    var s' := StepLoadRuns(s, t, request, area, order).0;
    LoadRunsWrites(s, t, request, area, order);
    if s' == s || Ended(s, s', t) {
      SameRowsChecked(s, s');
      EndedStaysChecked(s, s', t);
    } else {
      BegunStaysChecked(s, s', t, DetectLookup(request, area, Load(s.runs, s.plans, order)));
    }
  }

  /** Every step keeps stored and waiting input checked. */
  lemma StepChecked(s: Sys, a: Action)
    requires InputsChecked(s)
    ensures InputsChecked(Step(s, a).0)
  {
    hide StepBegin, StepLoadRuns, StepCreateArea, StepProceed, RowsChecked, CheckedArea, CheckedRun, ValidLines;
    match a
    case CreateArea(newId, code, fields) => CreateAreaChecked(s, newId, code, fields);
    case LoadRuns(t, order) =>
      if t in s.calls && s.calls[t].DetectArea? {
        assert CallChecked(s.calls[t]);
        LoadRunsChecked(s, t, s.calls[t].request, s.calls[t].area, order);
      }
    case Proceed(t, row, text) =>
      if t in s.calls {
        ProceedChecked(s, t, s.calls[t], row, text);
      }
    case _ =>
      if a.t !in s.calls {
        BeginChecked(s, a);
        var s' := StepBegin(s, a).0;
        if s' != s {
          BegunStaysChecked(s, s', a.t, s'.calls[a.t]);
        }
      }
  }

  lemma {:induction false} CheckedThroughout(s: Sys, actions: seq<Action>)
    requires InputsChecked(s)
    ensures InputsChecked(After(s, actions))
  {
    if actions != [] {
      var n := |actions| - 1;
      hide Step, InputsChecked;
      CheckedThroughout(s, actions[..n]);
      StepChecked(After(s, actions[..n]), actions[n]);
    }
  }

  // ---- what detections are never refused for ----

  lemma {:induction false} LoadedLinesValid(s: Sys, order: seq<Id>, areaId: Id)
    requires RowsChecked(s) && forall id :: id in order ==> id in s.runs
    ensures FirstError(Load(s.runs, s.plans, order), areaId) != Some(GeometryInvalid)
  {
    hide ValidLines;
    var loaded := Load(s.runs, s.plans, order);
    if order != [] {
      var n := |order| - 1;
      assert order[..n] + [order[n]] == order;
      LoadedLinesValid(s, order[..n], areaId);
      assert Load(s.runs, s.plans, order[..n]) == loaded[..n];
      assert order[n] in order && CheckedRun(s.runs[order[n]].facts);
    }
  }

  /** In every reachable state a detection is never refused for malformed lines or boundaries,
      and its computation never for a boundary without an area. */
  lemma DetectionsAreWellFormed(s: Sys, actions: seq<Action>, a: Action)
    requires InputsChecked(s)
    requires var now := After(s, actions);
             || (a.LoadRuns? && a.t in now.calls && now.calls[a.t].DetectArea?)
             || (a.Proceed? && a.t in now.calls && now.calls[a.t].DetectInsert?)
    ensures Step(After(s, actions), a).1 != Refused(GeometryInvalid)
    ensures var call := After(s, actions).calls[a.t];
            call.DetectInsert? ==>
              Score(call.area.fields.boundary, TracksOf(call.loaded), Resolution(call.request, call.area))
              != Err(BoundaryHasNoArea)
  {
    hide After, Step, InputsChecked, Score;
    CheckedThroughout(s, actions);
    if a.LoadRuns? {
      LoadIsWellFormed(After(s, actions), a);
    } else {
      InsertIsWellFormed(After(s, actions), a);
    }
  }

  lemma LoadIsWellFormed(s: Sys, a: Action)
    requires InputsChecked(s) && a.LoadRuns? && a.t in s.calls && s.calls[a.t].DetectArea?
    ensures Step(s, a).1 != Refused(GeometryInvalid)
  {
    hide Step, StepLoadRuns, RowsChecked, CallChecked;
    StepLoads(s, a);
    LoadsWellFormed(s, a.t, s.calls[a.t].request, s.calls[a.t].area, a.order);
  }

  lemma InsertIsWellFormed(s: Sys, a: Action)
    requires InputsChecked(s) && a.Proceed? && a.t in s.calls && s.calls[a.t].DetectInsert?
    ensures Step(s, a).1 != Refused(GeometryInvalid)
    ensures var call := s.calls[a.t];
            Score(call.area.fields.boundary, TracksOf(call.loaded), Resolution(call.request, call.area))
            != Err(BoundaryHasNoArea)
  {
    hide Step, StepDetectInsert, RowsChecked, CheckedArea, Score, TracksOf, Workflow.Resolution;
    var call := s.calls[a.t];
    assert CallChecked(call);
    StepInserts(s, a);
    InsertsWellFormed(s, a.t, call.request, call.area, call.loaded, a.row, a.text);
  }

  lemma StepLoads(s: Sys, a: Action)
    requires a.LoadRuns? && a.t in s.calls && s.calls[a.t].DetectArea?
    ensures Step(s, a) == StepLoadRuns(s, a.t, s.calls[a.t].request, s.calls[a.t].area, a.order)
  {
    hide StepLoadRuns;
  }

  lemma StepInserts(s: Sys, a: Action)
    requires a.Proceed? && a.t in s.calls && s.calls[a.t].DetectInsert?
    ensures var call := s.calls[a.t];
            Step(s, a) == StepDetectInsert(s, a.t, call.request, call.area, call.loaded, a.row, a.text)
  {
    hide StepDetectInsert;
  }

  lemma LoadsWellFormed(s: Sys, t: nat, request: DetectRequest, area: Area, order: seq<Id>)
    requires RowsChecked(s)
    ensures StepLoadRuns(s, t, request, area, order).1 != Refused(GeometryInvalid)
  {
    SelectionStored(s.runs, request.runIds, order);
    if IsSelection(s.runs, request.runIds, order) {
      LoadedLinesValid(s, order, request.areaId);
    }
    hide IsSelection, FirstError, Load, Members, RowsChecked;
  }

  lemma InsertsWellFormed(
      s: Sys, t: nat, request: DetectRequest, area: Area, loaded: seq<Loaded>, row: Id, text: string)
    requires CheckedArea(area.fields)
    ensures StepDetectInsert(s, t, request, area, loaded, row, text).1 != Refused(GeometryInvalid)
    ensures Score(area.fields.boundary, TracksOf(loaded), Resolution(request, area)) != Err(BoundaryHasNoArea)
  {
    AreaChecks(area.fields);
    AreaNeedsWidth(area.fields.boundary);
    Reports.Refusals(area.fields.boundary, TracksOf(loaded), Resolution(request, area));
    hide Score, Flat, KeyOf, HasKey, Uniqued, TracksOf, Workflow.Resolution, FactsOf, LoadedIds;
  }
}
