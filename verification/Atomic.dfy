/** The services as single operations on the tables: the reference that requests are held
    against. A request that no other one interrupts does exactly what its operation does;
    and a request that is interrupted but commits does what its operation would do at the
    moment of the commit, as far as its conditional update makes sure of it. */
module Atomic {
  import opened Wrappers
  import opened Tracks
  import opened Coverage
  import opened CacheKey
  import opened StateGraphs
  import opened Records
  import opened Workflow
  import opened Writes
  import opened Growth
  import opened Safety
  import opened Trails
  import opened Cache
  import opened Inputs
  import opened Frozen
  import opened Soundness
  import opened Services

  // ---- the operations ----

  /** `SurveyAreaService.Create`. */
  function CreateArea(s: Sys, newId: Id, code: string, fields: AreaFields): Outcome {
    if AreaGeometryError(fields).Some? then (s, Refused(AreaGeometryError(fields).value))
    else if exists id :: id in s.areas && s.areas[id].code == code then (s, Refused(DuplicateResource))
    else
      var AreaFields(name, boundary, resolution, crs, swath, team, _) := fields;
      var created := AreaFields(name, boundary, resolution, crs, swath, team, "draft");
      (s.(areas := s.areas[newId := Area(code, created, 1)]), Committed(newId))
  }

  /** `SurveyAreaService.Update`. */
  function UpdateArea(s: Sys, id: Id, expected: nat, fields: AreaFields): Outcome {
    if id !in s.areas then (s, Refused(NotFound))
    else
      var area := s.areas[id];
      if area.fields.status == "archived" then (s, Refused(AreaArchived))
      else if fields.status != "draft" && fields.status != "active" && fields.status != "archived"
      then (s, Refused(AreaStatusInvalid))
      else if AreaGeometryError(fields).Some? then (s, Refused(AreaGeometryError(fields).value))
      else if area.version != expected then (s, Refused(VersionConflict))
      else (s.(areas := s.areas[id := Area(area.code, fields, area.version + 1)]), Committed(id))
  }

  /** `TransectPlanService.Create`. */
  function CreatePlan(s: Sys, areaId: Id, content: PlanContent, actor: Id, row: Id): Outcome {
    if areaId !in s.areas then (s, Refused(NotFound))
    else if s.areas[areaId].fields.status == "archived" then (s, Refused(AreaArchived))
    else if !LinesFit(content.lines) then (s, Refused(GeometryInvalid))
    else (s.(plans := s.plans[row := Plan(areaId, content, Draft, 1, actor)]), Committed(row))
  }

  /** There are lines, and none has fewer than two positions. */
  predicate LinesFit(lines: seq<seq<Plane.Point>>) {
    |lines| > 0 && !exists k :: 0 <= k < |lines| && |lines[k]| < 2
  }

  /** `TransectPlanService.Update`. */
  function UpdatePlan(s: Sys, id: Id, expected: nat, content: PlanContent): Outcome {
    if id !in s.plans then (s, Refused(NotFound))
    else
      var plan := s.plans[id];
      if plan.state == Locked then (s, Refused(Refusal.PlanLocked))
      else if !LinesFit(content.lines) then (s, Refused(GeometryInvalid))
      else if plan.version != expected then (s, Refused(VersionConflict))
      else (s.(plans := s.plans[id := Plan(plan.areaId, content, plan.state, plan.version + 1, plan.createdBy)]),
            Committed(id))
  }

  /** `TransectPlanService.Lock`. */
  function LockPlan(s: Sys, id: Id, expected: nat, target: string): Outcome {
    if id !in s.plans then (s, Refused(NotFound))
    else
      var plan := s.plans[id];
      if plan.state == Locked || target != "locked" then (s, Refused(PlanStateInvalid))
      else if plan.version != expected then (s, Refused(VersionConflict))
      else (s.(plans := s.plans[id := Plan(plan.areaId, plan.content, Locked, plan.version + 1, plan.createdBy)]),
            Committed(id))
  }

  /** `TransectPlanService.Copy`: a draft one version on, whatever the state of the source. */
  function CopyPlan(s: Sys, id: Id, actor: Id, row: Id): Outcome {
    if id !in s.plans then (s, Refused(NotFound))
    else
      var PlanContent(name, lines, heading, swath, spacing) := s.plans[id].content;
      var copy := PlanContent(name + " / 复制版本", lines, heading, swath, spacing);
      (s.(plans := s.plans[row := Plan(s.plans[id].areaId, copy, Draft, s.plans[id].version + 1, actor)]),
       Committed(row))
  }

  /** `SonarRunService.Import`; `found` is the row the lookup by checksum returns. */
  function ImportRun(s: Sys, facts: RunFacts, actor: Id, found: Id, row: Id): Outcome {
    if facts.planId !in s.plans then (s, Refused(NotFound))
    else if s.plans[facts.planId].state == Draft then (s, Refused(PlanNotLocked))
    else if !LinesFit(facts.lines) then (s, Refused(GeometryInvalid))
    else if facts.startedAt >= facts.endedAt then (s, Refused(RunTimeInvalid))
    else if exists id :: id in s.runs && s.runs[id].facts.checksum == facts.checksum then
      (s, if found in s.runs && s.runs[found].facts.checksum == facts.checksum then ExistingRun(found) else Idle)
    else if exists id :: id in s.runs && s.runs[id].facts.code == facts.code then (s, Refused(DuplicateResource))
    else
      (s.(runs := s.runs[row := Run(facts, Imported, 1, actor)],
          runHistory := s.runHistory[row := RunHistory(1, [Imported])]), Committed(row))
  }

  /** `SonarRunService.Transition`. */
  function TransitionRun(s: Sys, id: Id, expected: nat, target: string, reason: string): Outcome {
    if id !in s.runs then (s, Refused(NotFound))
    else
      var run := s.runs[id];
      match ParseRunState(target)
      case None => (s, Refused(RunStateInvalid))
      case Some(to) =>
        if to !in RunTargets(run.state) then (s, Refused(RunTransitionInvalid))
        else if to == QualityChecked && run.facts.navigation == NavInvalid then (s, Refused(NavigationInvalid))
        else if to == Rejected && |reason| < 4 then (s, Refused(RejectionReasonRequired))
        else if run.version != expected then (s, Refused(VersionConflict))
        else
          (s.(runs := s.runs[id := Run(run.facts, to, run.version + 1, run.importedBy)],
              runHistory := Moved(s.runHistory, id, to)), Committed(id))
  }

  /** `CoverageGapService.Transition`. */
  function TransitionGap(s: Sys, id: Id, expected: nat, target: string, note: string): Outcome {
    if id !in s.gaps then (s, Refused(NotFound))
    else
      var gap := s.gaps[id];
      match ParseGapState(target)
      case None => (s, Refused(GapStateInvalid))
      case Some(to) =>
        if to !in GapTargets(gap.state) then (s, Refused(GapTransitionInvalid))
        else if gap.version != expected then (s, Refused(VersionConflict))
        else
          (s.(gaps := s.gaps[id := Gap(gap.facts, to, gap.explanation + " 复核记录：" + note, gap.version + 1)],
              gapHistory := Workflow.Reviewed(s.gapHistory, id, Review(note, to))), Committed(id))
  }

  /** What a stored run is refused for as the source of a detection. */
  function SourceRefusal(s: Sys, areaId: Id, id: Id): Option<Refusal>
    requires id in s.runs
  {
    var run := s.runs[id];
    if run.facts.planId !in s.plans || s.plans[run.facts.planId].areaId != areaId then Some(RunAreaMismatch)
    else if run.state != Processed then Some(RunNotProcessed)
    else if !LinesFit(run.facts.lines) then Some(GeometryInvalid)
    else None
  }

  /** The refusal of the first run in the order that has one. */
  ghost function FirstRefusal(s: Sys, areaId: Id, order: seq<Id>): Option<Refusal>
    requires forall id :: id in order ==> id in s.runs
  {
    if order == [] then None
    else if SourceRefusal(s, areaId, order[0]).Some? then SourceRefusal(s, areaId, order[0])
    else FirstRefusal(s, areaId, order[1..])
  }

  ghost function TracksIn(s: Sys, order: seq<Id>): seq<Track>
    requires forall id :: id in order ==> id in s.runs
  {
    seq(|order|, (k: nat) requires k < |order| =>
      Track(order[k], s.runs[order[k]].facts.lines, s.runs[order[k]].facts.swath))
  }

  ghost function ChecksumsIn(s: Sys, order: seq<Id>): seq<string>
    requires forall id :: id in order ==> id in s.runs
  {
    seq(|order|, (k: nat) requires k < |order| => s.runs[order[k]].facts.checksum)
  }

  function ResolutionUsed(request: DetectRequest, area: AreaFields): real {
    if request.resolution == 0.0 then area.resolution else request.resolution
  }

  ghost function KeyIn(s: Sys, request: DetectRequest, area: AreaFields, order: seq<Id>): Key
    requires forall id :: id in order ==> id in s.runs
  {
    StableInput(request.areaId, area.crs, request.algorithm, ChecksumsIn(s, order), ResolutionUsed(request, area))
  }

  /** What a new gap records: the uncovered share of the area, the ratios and the geometry. */
  ghost function Measured(request: DetectRequest, key: Key, res: CoverageResult): GapFacts {
    GapFacts(request.areaId, Uniqued(request.runIds), res.gapRing, res.recommended, res.area * res.gap, res.gap,
             res.coverage, res.overlap, request.algorithm, key)
  }

  lemma FactsAreMeasured(request: DetectRequest, key: Key, res: CoverageResult)
    ensures FactsOf(request, Uniqued(request.runIds), key, res) == Measured(request, key, res)
  {
    hide Uniqued;
  }

  lemma MeasuredAlike(request: DetectRequest, filled: DetectRequest, key: Key, res: CoverageResult)
    requires filled == request.(resolution := filled.resolution)
    ensures Measured(filled, key, res) == Measured(request, key, res)
  {
    hide Uniqued;
  }

  /** What a detection does with a key that is not known. */
  ghost function DetectAnew(
      s: Sys, request: DetectRequest, area: AreaFields, order: seq<Id>, row: Id, text: string): Outcome
    requires forall id :: id in order ==> id in s.runs
  {
    if !ValidPolygon(area.boundary) then (s, Refused(GeometryInvalid))
    else
      match Score(area.boundary, TracksIn(s, order), ResolutionUsed(request, area))
      case Err(_) => (s, Refused(CoverageInvalid))
      case Ok(res) =>
        var facts := Measured(request, KeyIn(s, request, area, order), res);
        (s.(gaps := s.gaps[row := Gap(facts, Detected, text, 1)],
            gapHistory := s.gapHistory[row := GapHistory(text, area.boundary, order, [])]), Committed(row))
  }

  /** `CoverageGapService.Detect` over the stored runs in the order the database returns them;
      `found` is the row the lookup by key returns. */
  ghost function Detect(
      s: Sys, request: DetectRequest, order: seq<Id>, found: Id, row: Id, text: string): Outcome
    requires IsSelection(s.runs, request.runIds, order)
  {
    if |request.idempotencyKey| < 8 || |request.idempotencyKey| > 120 then (s, Refused(IdempotencyKeyRequired))
    else if request.areaId !in s.areas then (s, Refused(NotFound))
    else
      var area := s.areas[request.areaId].fields;
      if !Projected(area.crs) then (s, Refused(CoordinateSystemInvalid))
      else if exists id :: id in request.runIds && id !in s.runs then (s, Refused(RunSetIncomplete))
      else
        SelectionStored(s.runs, request.runIds, order);
        match FirstRefusal(s, request.areaId, order)
        case Some(why) => (s, Refused(why))
        case None =>
          var key := KeyIn(s, request, area, order);
          if HasKey(s.gaps, key) then
            (s, if found in s.gaps && s.gaps[found].facts.key == key then ExistingGap(found, s.gaps[found]) else Idle)
          else DetectAnew(s, request, area, order, row, text)
  }

  // ---- requests that no other request interrupts ----

  /** A request of two statements. */
  ghost function Serve(s: Sys, begin: Action, t: nat, row: Id): Outcome {
    var (s1, r1) := Step(s, begin);
    if r1.Waiting? then Step(s1, Proceed(t, row, "")) else (s1, r1)
  }

  lemma LinesFitExactly(lines: seq<seq<Plane.Point>>)
    ensures LinesFit(lines) <==> ValidLines(lines)
  {
  }

  lemma CreateAreaServed(s: Sys, newId: Id, code: string, fields: AreaFields)
    requires newId !in s.areas
    ensures Step(s, Action.CreateArea(newId, code, fields)) == CreateArea(s, newId, code, fields)
  {
    hide AreaGeometryError;
  }

  lemma UpdateAreaServed(s: Sys, t: nat, id: Id, expected: nat, fields: AreaFields)
    requires t !in s.calls
    ensures Serve(s, BeginAreaEdit(t, id, expected, fields), t, 0) == UpdateArea(s, id, expected, fields)
  {
    hide AreaGeometryError;
    RestoresCalls(s.calls, t);
  }

  lemma RestoresCalls(calls: map<nat, Call>, t: nat)
    requires t !in calls
    ensures forall call {:trigger calls[t := call]} :: calls[t := call] - {t} == calls
  {
    forall call: Call {:trigger calls[t := call]}
      ensures calls[t := call] - {t} == calls
    {
    }
  }

  lemma CreatePlanServed(s: Sys, t: nat, areaId: Id, content: PlanContent, actor: Id, row: Id)
    requires t !in s.calls && row !in s.plans
    ensures Serve(s, BeginPlanAdd(t, areaId, content, actor), t, row) == CreatePlan(s, areaId, content, actor, row)
  {
    LinesFitExactly(content.lines);
    hide LinesFit, ValidLines;
    RestoresCalls(s.calls, t);
  }

  lemma UpdatePlanServed(s: Sys, t: nat, id: Id, expected: nat, content: PlanContent)
    requires t !in s.calls
    ensures Serve(s, BeginPlanEdit(t, id, expected, content), t, 0) == UpdatePlan(s, id, expected, content)
  {
    LinesFitExactly(content.lines);
    hide LinesFit, ValidLines;
    RestoresCalls(s.calls, t);
  }

  lemma LockPlanServed(s: Sys, t: nat, id: Id, expected: nat, target: string)
    requires t !in s.calls
    ensures Serve(s, BeginPlanLock(t, id, expected, target), t, 0) == LockPlan(s, id, expected, target)
  {
    RestoresCalls(s.calls, t);
  }

  lemma CopyPlanServed(s: Sys, t: nat, id: Id, actor: Id, row: Id)
    requires t !in s.calls && row !in s.plans
    ensures Serve(s, BeginPlanCopy(t, id, actor), t, row) == CopyPlan(s, id, actor, row)
  {
    RestoresCalls(s.calls, t);
  }

  lemma TransitionRunServed(s: Sys, t: nat, id: Id, expected: nat, target: string, reason: string)
    requires t !in s.calls
    ensures Serve(s, BeginRunMove(t, id, expected, target, reason), t, 0)
         == TransitionRun(s, id, expected, target, reason)
  {
    hide ParseRunState, RunTargets, Moved;
    RestoresCalls(s.calls, t);
  }

  lemma TransitionRunCommits(s: Sys, id: Id, expected: nat, target: string, reason: string)
    ensures var (s', reply) := TransitionRun(s, id, expected, target, reason);
            && (reply.Refused? || reply == Committed(id))
            && (reply == Committed(id) <==> MoveFits(s.runs, id, expected, target, reason))
            && s' == s.(runs := if reply == Committed(id) then MoveOf(s.runs, id, target) else s.runs,
                        runHistory := s'.runHistory)
  {
    hide ParseRunState, RunTargets, Moved;
  }

  lemma TransitionGapServed(s: Sys, t: nat, id: Id, expected: nat, target: string, note: string)
    requires t !in s.calls
    ensures Serve(s, BeginReview(t, id, expected, target, note), t, 0) == TransitionGap(s, id, expected, target, note)
  {
    hide ParseGapState, GapTargets, Workflow.Reviewed;
    RestoresCalls(s.calls, t);
  }

  lemma ImportServedAtOnce(s: Sys, t: nat, facts: RunFacts, actor: Id, found: Id, row: Id)
    requires t !in s.calls && row !in s.runs
    ensures var (s1, r1) := ServeImport(s, t, facts, actor, found, row);
            var (s2, r2) := ImportRun(s, facts, actor, found, row);
            r1 == r2 && (!r1.Idle? ==> s1 == s2)
  {
    ImportBegins(s, t, facts, actor);
    var waiting := s.(calls := s.calls[t := RunLookup(facts, actor)]);
    ImportLooksUp(waiting, t, facts, actor, found);
    var looked := s.(calls := s.calls[t := Call.RunInsert(facts, actor)]);
    ImportInserts(looked, t, facts, actor, row);
    Overwritten(s.calls, t, RunLookup(facts, actor), Call.RunInsert(facts, actor));
    hide Step, LinesFit;
  }

  lemma ImportBegins(s: Sys, t: nat, facts: RunFacts, actor: Id)
    requires t !in s.calls
    ensures Step(s, Action.BeginImport(t, facts, actor)) ==
            if facts.planId !in s.plans then (s, Refused(NotFound))
            else if s.plans[facts.planId].state == Draft then (s, Refused(PlanNotLocked))
            else if !LinesFit(facts.lines) then (s, Refused(GeometryInvalid))
            else if facts.startedAt >= facts.endedAt then (s, Refused(RunTimeInvalid))
            else (s.(calls := s.calls[t := RunLookup(facts, actor)]), Waiting)
  {
    LinesFitExactly(facts.lines);
    hide LinesFit, ValidLines;
  }

  lemma ImportLooksUp(s: Sys, t: nat, facts: RunFacts, actor: Id, found: Id)
    requires t in s.calls && s.calls[t] == RunLookup(facts, actor)
    ensures Step(s, Proceed(t, found, "")) ==
            if !HasChecksum(s.runs, facts.checksum)
            then (s.(calls := s.calls[t := Call.RunInsert(facts, actor)]), Waiting)
            else if found in s.runs && s.runs[found].facts.checksum == facts.checksum
            then (s.(calls := s.calls - {t}), ExistingRun(found))
            else (s, Idle)
  {
    hide HasChecksum;
  }

  lemma ImportInserts(s: Sys, t: nat, facts: RunFacts, actor: Id, row: Id)
    requires t in s.calls && s.calls[t] == Call.RunInsert(facts, actor) && row !in s.runs
    ensures Step(s, Proceed(t, row, "")) ==
            if HasChecksum(s.runs, facts.checksum) || HasCode(s.runs, facts.code)
            then (s.(calls := s.calls - {t}), Refused(DuplicateResource))
            else
              (s.(runs := s.runs[row := Run(facts, Imported, 1, actor)], calls := s.calls - {t},
                  runHistory := s.runHistory[row := RunHistory(1, [Imported])]), Committed(row))
  {
    hide HasChecksum, HasCode;
  }

  // ---- detections ----

  lemma {:induction false} FirstRefusalLast(s: Sys, areaId: Id, order: seq<Id>, id: Id)
    requires (forall x :: x in order ==> x in s.runs) && id in s.runs
    ensures FirstRefusal(s, areaId, order + [id])
         == if FirstRefusal(s, areaId, order).Some? then FirstRefusal(s, areaId, order)
            else SourceRefusal(s, areaId, id)
  {
    hide SourceRefusal;
    if order == [] {
      assert order + [id] == [id] && [id][1..] == [];
    } else {
      assert (order + [id])[1..] == order[1..] + [id];
      FirstRefusalLast(s, areaId, order[1..], id);
    }
  }

  lemma {:induction false} FirstErrorIsFirst(s: Sys, areaId: Id, order: seq<Id>)
    requires forall id :: id in order ==> id in s.runs
    ensures FirstError(Load(s.runs, s.plans, order), areaId) == FirstRefusal(s, areaId, order)
  {
    hide LinesFit, ValidLines;
    var loaded := Load(s.runs, s.plans, order);
    if order != [] {
      var n := |order| - 1;
      assert order[..n] + [order[n]] == order;
      assert Load(s.runs, s.plans, order[..n]) == loaded[..n];
      FirstErrorIsFirst(s, areaId, order[..n]);
      FirstRefusalLast(s, areaId, order[..n], order[n]);
      LinesFitExactly(s.runs[order[n]].facts.lines);
      assert LoadedError(loaded[n], areaId) == SourceRefusal(s, areaId, order[n]);
    }
  }

  lemma DetectBegins(s: Sys, t: nat, request: DetectRequest)
    requires t !in s.calls
    ensures Step(s, Action.BeginDetect(t, request)) ==
            if |request.idempotencyKey| < 8 || |request.idempotencyKey| > 120 then (s, Refused(IdempotencyKeyRequired))
            else if request.areaId !in s.areas then (s, Refused(NotFound))
            else if !Projected(s.areas[request.areaId].fields.crs) then (s, Refused(CoordinateSystemInvalid))
            else (s.(calls := s.calls[t := DetectArea(request, s.areas[request.areaId])]), Waiting)
  {
    hide Projected;
  }

  lemma DetectLoads(s: Sys, t: nat, request: DetectRequest, area: Area, order: seq<Id>)
    requires t in s.calls && s.calls[t] == DetectArea(request, area) && IsSelection(s.runs, request.runIds, order)
    ensures forall id :: id in order ==> id in s.runs
    ensures Step(s, Action.LoadRuns(t, order)) ==
            if exists id :: id in request.runIds && id !in s.runs
            then (s.(calls := s.calls - {t}), Refused(RunSetIncomplete))
            else
              match FirstRefusal(s, request.areaId, order)
              case Some(why) => (s.(calls := s.calls - {t}), Refused(why))
              case None =>
                (s.(calls := s.calls[t := DetectLookup(request, area, Load(s.runs, s.plans, order))]), Waiting)
  {
    SelectionStored(s.runs, request.runIds, order);
    FirstErrorIsFirst(s, request.areaId, order);
    CountCheckIsExact(s.runs, request.runIds, order);
    StepLoads(s, Action.LoadRuns(t, order));
    hide Step, IsSelection, FirstError, FirstRefusal, Load, Members;
  }

  lemma DetectLooksUp(s: Sys, t: nat, request: DetectRequest, area: Area, loaded: seq<Loaded>, found: Id)
    requires t in s.calls && s.calls[t] == DetectLookup(request, area, loaded)
    ensures var key := KeyOf(request, area, loaded);
            Step(s, Proceed(t, found, "")) ==
            if !HasKey(s.gaps, key) then (s.(calls := s.calls[t := DetectInsert(request, area, loaded)]), Waiting)
            else if found in s.gaps && s.gaps[found].facts.key == key
            then (s.(calls := s.calls - {t}), ExistingGap(found, s.gaps[found]))
            else (s, Idle)
  {
    StepProceeds(s, Proceed(t, found, ""));
    hide Step, KeyOf, HasKey;
  }

  lemma DetectInserts(
      s: Sys, t: nat, request: DetectRequest, area: Area, loaded: seq<Loaded>, row: Id, text: string)
    requires t in s.calls && s.calls[t] == DetectInsert(request, area, loaded) && row !in s.gaps
    requires !HasKey(s.gaps, KeyOf(request, area, loaded))
    ensures Step(s, Proceed(t, row, text)) ==
            if !ValidPolygon(area.fields.boundary) then (s.(calls := s.calls - {t}), Refused(GeometryInvalid))
            else
              match Score(area.fields.boundary, TracksOf(loaded), Resolution(request, area))
              case Err(_) => (s.(calls := s.calls - {t}), Refused(CoverageInvalid))
              case Ok(res) =>
                var facts := FactsOf(request, Uniqued(request.runIds), KeyOf(request, area, loaded), res);
                (s.(gaps := s.gaps[row := Gap(facts, Detected, text, 1)], calls := s.calls - {t},
                    gapHistory := s.gapHistory[row := GapHistory(text, area.fields.boundary, LoadedIds(loaded), [])]),
                 Committed(row))
  {
    DetectInsertStep(s, t, row, text);
    FactsHaveKey(request, KeyOf(request, area, loaded));
    hide Step, KeyOf, HasKey, Uniqued, TracksOf, Resolution, Score, ValidPolygon, LoadedIds, FactsOf;
  }

  lemma FactsHaveKey(request: DetectRequest, key: Key)
    ensures forall sources, res :: FactsOf(request, sources, key, res).key == key
  {
  }

  // What a detection makes of the loaded rows.
  lemma LoadedSeen(s: Sys, request: DetectRequest, area: Area, order: seq<Id>)
    requires forall id :: id in order ==> id in s.runs
    ensures var loaded := Load(s.runs, s.plans, order);
            && LoadedIds(loaded) == order && TracksOf(loaded) == TracksIn(s, order)
            && Resolution(request, area) == ResolutionUsed(request, area.fields)
            && KeyOf(request, area, loaded) == KeyIn(s, request, area.fields, order)
  {
    hide Sorted;
    assert Checksums(Load(s.runs, s.plans, order)) == ChecksumsIn(s, order);
  }

  lemma InsertedAnew(s: Sys, t: nat, request: DetectRequest, area: Area, order: seq<Id>, row: Id, text: string)
    requires t !in s.calls && row !in s.gaps && forall id :: id in order ==> id in s.runs
    requires !HasKey(s.gaps, KeyIn(s, request, area.fields, order))
    ensures var call := DetectInsert(request, area, Load(s.runs, s.plans, order));
            Step(s.(calls := s.calls[t := call]), Proceed(t, row, text))
            == DetectAnew(s, request, area.fields, order, row, text)
  {
    var loaded := Load(s.runs, s.plans, order);
    var call := DetectInsert(request, area, loaded);
    var waiting := s.(calls := s.calls[t := call]);
    LoadedSeen(s, request, area, order);
    Overwritten(s.calls, t, call, call);
    var key, tracks, resolution := KeyOf(request, area, loaded), TracksOf(loaded), Resolution(request, area);
    hide Step, KeyIn, KeyOf, HasKey, TracksIn, TracksOf, Resolution, ResolutionUsed, Load, LoadedIds, Score,
         ValidPolygon, Uniqued, FactsOf, Measured;
    DetectInserts(waiting, t, request, area, loaded, row, text);
    if Score(area.fields.boundary, tracks, resolution).Ok? {
      FactsAreMeasured(request, key, Score(area.fields.boundary, tracks, resolution).value);
    }
  }

  lemma DetectServedAtOnce(
      s: Sys, t: nat, request: DetectRequest, order: seq<Id>, found: Id, row: Id, text: string)
    requires t !in s.calls && row !in s.gaps && IsSelection(s.runs, request.runIds, order)
    ensures var (s1, r1) := ServeDetect(s, t, request, order, found, row, text);
            var (s2, r2) := Detect(s, request, order, found, row, text);
            r1 == r2 && (!r1.Idle? ==> s1 == s2)
  {
    hide Step, IsSelection, Load, FirstRefusal, KeyOf, KeyIn, Projected, DetectAnew, HasKey;
    DetectBegins(s, t, request);
    SelectionStored(s.runs, request.runIds, order);
    if request.areaId in s.areas {
      var area, loaded := s.areas[request.areaId], Load(s.runs, s.plans, order);
      var begun := s.(calls := s.calls[t := DetectArea(request, area)]);
      var looking := s.(calls := s.calls[t := DetectLookup(request, area, loaded)]);
      var inserting := s.(calls := s.calls[t := DetectInsert(request, area, loaded)]);
      Overwritten(s.calls, t, begun.calls[t], looking.calls[t]);
      Overwritten(s.calls, t, looking.calls[t], inserting.calls[t]);
      SameRefusals(s, begun, request.areaId, order);
      DetectLoads(begun, t, request, area, order);
      DetectLooksUp(looking, t, request, area, loaded, found);
      LoadedSeen(s, request, area, order);
      hide TracksOf, TracksIn, Resolution, ResolutionUsed, LoadedIds;
      if !HasKey(s.gaps, KeyOf(request, area, loaded)) {
        InsertedAnew(s, t, request, area, order, row, text);
      }
    }
  }

  lemma {:induction false} SameRefusals(s: Sys, s': Sys, areaId: Id, order: seq<Id>)
    requires s'.runs == s.runs && s'.plans == s.plans && forall id :: id in order ==> id in s.runs
    ensures FirstRefusal(s', areaId, order) == FirstRefusal(s, areaId, order)
  {
    if order != [] {
      SameRefusals(s, s', areaId, order[1..]);
    }
  }

  // ---- the default resolution ----

  /** The request with the area's target resolution in place of none. */
  function Filled(request: DetectRequest, area: Area): DetectRequest {
    if request.resolution == 0.0 then request.(resolution := area.fields.resolution) else request
  }

  /** A detection that leaves the resolution out is answered as the same request with the
      area's resolution filled in. */
  lemma DefaultResolution(s: Sys, t: nat, request: DetectRequest, order: seq<Id>, found: Id, row: Id, text: string)
    requires t !in s.calls && row !in s.gaps && request.areaId in s.areas
    requires IsSelection(s.runs, request.runIds, order)
    requires !ServeDetect(s, t, request, order, found, row, text).1.Idle?
    ensures ServeDetect(s, t, Filled(request, s.areas[request.areaId]), order, found, row, text)
         == ServeDetect(s, t, request, order, found, row, text)
  {
    var filled := Filled(request, s.areas[request.areaId]);
    DetectServedAtOnce(s, t, request, order, found, row, text);
    DetectServedAtOnce(s, t, filled, order, found, row, text);
    hide ServeDetect;
    FilledDetectsAlike(s, request, order, found, row, text);
  }

  lemma FilledDetectsAlike(s: Sys, request: DetectRequest, order: seq<Id>, found: Id, row: Id, text: string)
    requires request.areaId in s.areas && IsSelection(s.runs, request.runIds, order)
    ensures Detect(s, Filled(request, s.areas[request.areaId]), order, found, row, text)
         == Detect(s, request, order, found, row, text)
  {
    var area := s.areas[request.areaId];
    var filled := Filled(request, area);
    assert ResolutionUsed(filled, area.fields) == ResolutionUsed(request, area.fields);
    assert filled == request.(resolution := filled.resolution);
    SelectionStored(s.runs, request.runIds, order);
    KeysAlike(s, request, filled, area.fields, order);
    AnewAlike(s, request, filled, area.fields, order, row, text);
    hide Filled, ResolutionUsed, IsSelection, FirstRefusal, KeyIn, DetectAnew, Projected, HasKey;
  }

  lemma KeysAlike(s: Sys, request: DetectRequest, filled: DetectRequest, area: AreaFields, order: seq<Id>)
    requires filled == request.(resolution := filled.resolution) && forall id :: id in order ==> id in s.runs
    requires ResolutionUsed(filled, area) == ResolutionUsed(request, area)
    ensures KeyIn(s, filled, area, order) == KeyIn(s, request, area, order)
  {
    hide ResolutionUsed, StableInput;
  }

  lemma AnewAlike(
      s: Sys, request: DetectRequest, filled: DetectRequest, area: AreaFields, order: seq<Id>, row: Id, text: string)
    requires filled == request.(resolution := filled.resolution) && forall id :: id in order ==> id in s.runs
    requires ResolutionUsed(filled, area) == ResolutionUsed(request, area)
    ensures DetectAnew(s, filled, area, order, row, text) == DetectAnew(s, request, area, order, row, text)
  {
    KeysAlike(s, request, filled, area, order);
    hide ResolutionUsed, KeyIn, TracksIn, Score, ValidPolygon, Measured;
    var score := Score(area.boundary, TracksIn(s, order), ResolutionUsed(request, area));
    if score.Ok? {
      MeasuredAlike(request, filled, KeyIn(s, request, area, order), score.value);
    }
  }

  // ---- requests that are interrupted ----

  /** The conditional updates and the import: what their operation would do right now. A reason
      for a rejection was given; the lookup of the import returned nothing. */
  function AtOnce(s: Sys, call: Call, row: Id): Outcome
    requires UpdateTarget(call).Some? || call.RunInsert?
  {
    match call
    case AreaEdit(id, expected, fields, _) => UpdateArea(s, id, expected, fields)
    case PlanEdit(id, expected, content, _) => UpdatePlan(s, id, expected, content)
    case PlanLock(id, expected, _) => LockPlan(s, id, expected, "locked")
    case RunMove(id, expected, to, _) => TransitionRun(s, id, expected, RunName(to), "reason")
    case GapReview(id, expected, target, note, _) => TransitionGap(s, id, expected, GapName(target), note)
    case RunInsert(facts, actor) => ImportRun(s, facts, actor, 0, row)
  }

  lemma AreaEditAtCommit(s: Sys, t: nat, id: Id, expected: nat, fields: AreaFields, before: Area)
    requires CallOk(s, AreaEdit(id, expected, fields, before)) && expected <= before.version && CheckedArea(fields)
    requires StepAreaEdit(s, t, id, expected, fields).1.Committed?
    ensures StepAreaEdit(s, t, id, expected, fields) == UpdateArea(s.(calls := s.calls - {t}), id, expected, fields)
  {
    hide AreaGeometryError;
  }

  lemma PlanEditAtCommit(s: Sys, t: nat, id: Id, expected: nat, content: PlanContent, before: Plan)
    requires CallOk(s, PlanEdit(id, expected, content, before)) && expected <= before.version
    requires ValidLines(content.lines) && StepPlanEdit(s, t, id, expected, content).1.Committed?
    ensures StepPlanEdit(s, t, id, expected, content) == UpdatePlan(s.(calls := s.calls - {t}), id, expected, content)
  {
    LinesFitExactly(content.lines);
    hide LinesFit, ValidLines;
  }

  lemma PlanLockAtCommit(s: Sys, t: nat, id: Id, expected: nat)
    requires StepPlanLock(s, t, id, expected).1.Committed?
    ensures StepPlanLock(s, t, id, expected) == LockPlan(s.(calls := s.calls - {t}), id, expected, "locked")
  {
  }

  lemma RunMoveAtCommit(s: Sys, t: nat, id: Id, expected: nat, to: RunState, before: Run)
    requires CallOk(s, RunMove(id, expected, to, before))
    requires StepRunMove(s, t, id, expected, to, before).1.Committed?
    ensures StepRunMove(s, t, id, expected, to, before)
         == TransitionRun(s.(calls := s.calls - {t}), id, expected, RunName(to), "reason")
  {
    ParseOfRunName(to);
    SameStateSameRun(before, s.runs[id]);
    hide ParseRunState, RunName, RunTargets, Moved;
  }

  lemma ParseOfRunName(to: RunState)
    ensures ParseRunState(RunName(to)) == Some(to)
  {
  }

  lemma ParseOfGapName(to: GapState)
    ensures ParseGapState(GapName(to)) == Some(to)
  {
  }

  lemma GapReviewAtCommit(s: Sys, t: nat, id: Id, expected: nat, to: GapState, note: string, before: Gap)
    requires CallOk(s, GapReview(id, expected, to, note, before))
    requires StepGapReview(s, t, id, expected, to, note, before).1.Committed?
    ensures StepGapReview(s, t, id, expected, to, note, before)
         == TransitionGap(s.(calls := s.calls - {t}), id, expected, GapName(to), note)
  {
    ParseOfGapName(to);
    SameStateSameGap(before, s.gaps[id]);
    hide ParseGapState, GapName, GapTargets, Workflow.Reviewed;
  }

  lemma RunInsertAtCommit(s: Sys, t: nat, facts: RunFacts, actor: Id, row: Id)
    requires PlanIsLocked(s, facts.planId) && CheckedRun(facts)
    requires StepRunInsert(s, t, facts, actor, row).1.Committed?
    ensures StepRunInsert(s, t, facts, actor, row) == ImportRun(s.(calls := s.calls - {t}), facts, actor, 0, row)
  {
    LinesFitExactly(facts.lines);
    hide LinesFit, ValidLines;
  }

  /** In every reachable state, whatever ran in between: a transition, a lock or an import that
      commits has the effect its operation would have at that moment, and so has an update of a
      plan or an area that expects no later version than it read. */
  lemma CommitsAreAtomic(s: Sys, actions: seq<Action>, t: nat, row: Id)
    requires Sound(s) && t in After(s, actions).calls
    requires var call := After(s, actions).calls[t];
             (UpdateTarget(call).Some? || call.RunInsert?) && Prudent(call)
    requires Step(After(s, actions), Proceed(t, row, "")).1.Committed?
    ensures var now := After(s, actions);
            Step(now, Proceed(t, row, "")) == AtOnce(now.(calls := now.calls - {t}), now.calls[t], row)
  {
    hide After, Step, Sound;
    SoundThroughout(s, actions);
    CommitIsAtomic(After(s, actions), t, row);
  }

  lemma CommitIsAtomic(s: Sys, t: nat, row: Id)
    requires Sound(s) && t in s.calls && (UpdateTarget(s.calls[t]).Some? || s.calls[t].RunInsert?)
    requires Prudent(s.calls[t]) && Step(s, Proceed(t, row, "")).1.Committed?
    ensures Step(s, Proceed(t, row, "")) == AtOnce(s.(calls := s.calls - {t}), s.calls[t], row)
  {
    hide Step, RowsSafe, KeysUnique, TrailsKept, CacheFaithful, RowsChecked;
    StepProceeds(s, Proceed(t, row, ""));
    assert CallOk(s, s.calls[t]) && CallChecked(s.calls[t]);
    CommittedStep(s, t, s.calls[t], row);
  }

  lemma CommittedStep(s: Sys, t: nat, call: Call, row: Id)
    requires (UpdateTarget(call).Some? || call.RunInsert?) && Prudent(call) && CallOk(s, call) && CallChecked(call)
    requires StepProceed(s, t, call, row, "").1.Committed?
    ensures StepProceed(s, t, call, row, "") == AtOnce(s.(calls := s.calls - {t}), call, row)
  {
    hide StepAreaEdit, StepPlanEdit, StepPlanLock, StepRunMove, StepGapReview, StepRunInsert, UpdateArea, UpdatePlan,
         LockPlan, TransitionRun, TransitionGap, ImportRun, CheckedArea, ValidLines, CheckedRun;
    match call
    case AreaEdit(id, expected, fields, before) => AreaEditAtCommit(s, t, id, expected, fields, before);
    case PlanEdit(id, expected, content, before) => PlanEditAtCommit(s, t, id, expected, content, before);
    case PlanLock(id, expected, before) => PlanLockAtCommit(s, t, id, expected);
    case RunMove(id, expected, to, before) => RunMoveAtCommit(s, t, id, expected, to, before);
    case GapReview(id, expected, target, note, before) =>
      GapReviewAtCommit(s, t, id, expected, target, note, before);
    case RunInsert(facts, actor) => RunInsertAtCommit(s, t, facts, actor, row);
  }
}
