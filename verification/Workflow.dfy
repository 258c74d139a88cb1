/** The planner as a step system. A request is cut at its database statements: it reads,
    waits with what it read, and later runs its next statement against whatever the
    tables hold by then. Any number of requests wait at once and a step picks any of
    them, so a run of steps is any interleaving of any number of clients. */
module Workflow {
  import opened Wrappers
  import opened Tracks
  import opened Coverage
  import opened CacheKey
  import opened StateGraphs
  import opened Records

  /** A run as a detection loaded it, with its plan's area. */
  datatype Loaded = Loaded(id: Id, run: Run, areaId: Option<Id>)

  /** A request between two of its statements, with what it read. */
  datatype Call =
    | AreaEdit(id: Id, expected: nat, fields: AreaFields, areaBefore: Area)
    | PlanAdd(areaId: Id, content: PlanContent, actor: Id)
    | PlanEdit(id: Id, expected: nat, content: PlanContent, planBefore: Plan)
    | PlanLock(id: Id, expected: nat, planBefore: Plan)
    | PlanCopy(id: Id, actor: Id, planBefore: Plan)
    | RunLookup(facts: RunFacts, actor: Id)
    | RunInsert(facts: RunFacts, actor: Id)
    | RunMove(id: Id, expected: nat, to: RunState, runBefore: Run)
    | GapReview(id: Id, expected: nat, target: GapState, note: string, gapBefore: Gap)
    | DetectArea(request: DetectRequest, area: Area)
    | DetectLookup(request: DetectRequest, area: Area, loaded: seq<Loaded>)
    | DetectInsert(request: DetectRequest, area: Area, loaded: seq<Loaded>)

  datatype Review = Review(note: string, state: GapState)

  /** History of a gap: what its detection saw and wrote, and its committed reviews. */
  datatype GapHistory = GapHistory(text: string, boundary: Polygon, loaded: seq<Id>, reviews: seq<Review>)

  /** History of a run: the version and the states it has been through. */
  datatype RunHistory = RunHistory(firstVersion: nat, states: seq<RunState>)

  datatype Sys = Sys(
    areas: map<Id, Area>, plans: map<Id, Plan>, runs: map<Id, Run>, gaps: map<Id, Gap>,
    calls: map<nat, Call>, gapHistory: map<Id, GapHistory>, runHistory: map<Id, RunHistory>)

  datatype Action =
    | CreateArea(newId: Id, code: string, fields: AreaFields)
    | BeginAreaEdit(t: nat, id: Id, expected: nat, fields: AreaFields)
    | BeginPlanAdd(t: nat, areaId: Id, content: PlanContent, actor: Id)
    | BeginPlanEdit(t: nat, id: Id, expected: nat, content: PlanContent)
    | BeginPlanLock(t: nat, id: Id, expected: nat, target: string)
    | BeginPlanCopy(t: nat, id: Id, actor: Id)
    | BeginImport(t: nat, facts: RunFacts, actor: Id)
    | BeginRunMove(t: nat, id: Id, expected: nat, target: string, reason: string)
    | BeginReview(t: nat, id: Id, expected: nat, target: string, note: string)
    | BeginDetect(t: nat, request: DetectRequest)
    | LoadRuns(t: nat, order: seq<Id>)
    | Proceed(t: nat, row: Id, text: string)

  type Outcome = (Sys, Reply)

  // ---- waiting and finishing ----

  function Wait(s: Sys, t: nat, call: Call): Outcome {
    (s.(calls := s.calls[t := call]), Waiting)
  }

  function Finish(s: Sys, t: nat, reply: Reply): Outcome {
    (s.(calls := s.calls - {t}), reply)
  }

  function Refuse(s: Sys, why: Refusal): Outcome {
    (s, Refused(why))
  }

  // ---- areas ----

  function StepCreateArea(s: Sys, newId: Id, code: string, fields: AreaFields): Outcome {
    match AreaGeometryError(fields)
    case Some(why) => Refuse(s, why)
    case None =>
      if exists id :: id in s.areas && s.areas[id].code == code then Refuse(s, DuplicateResource)
      else if newId in s.areas then (s, Idle)
      else (s.(areas := s.areas[newId := Area(code, fields.(status := "draft"), 1)]), Committed(newId))
  }

  function StepBeginAreaEdit(s: Sys, t: nat, id: Id, expected: nat, fields: AreaFields): Outcome {
    if id !in s.areas then Refuse(s, NotFound)
    else if s.areas[id].fields.status == ARCHIVED then Refuse(s, AreaArchived)
    else if !ValidStatus(fields.status) then Refuse(s, AreaStatusInvalid)
    else
      match AreaGeometryError(fields)
      case Some(why) => Refuse(s, why)
      case None => Wait(s, t, AreaEdit(id, expected, fields, s.areas[id]))
  }

  /** `UPDATE .. WHERE id AND version`: the state is not part of the condition. */
  function AreaCas(areas: map<Id, Area>, id: Id, expected: nat, fields: AreaFields): Option<map<Id, Area>> {
    if id in areas && areas[id].version == expected
    then Some(areas[id := areas[id].(fields := fields, version := expected + 1)])
    else None
  }

  function StepAreaEdit(s: Sys, t: nat, id: Id, expected: nat, fields: AreaFields): Outcome {
    match AreaCas(s.areas, id, expected, fields)
    case None => Finish(s, t, Refused(VersionConflict))
    case Some(areas) => Finish(s.(areas := areas), t, Committed(id))
  }

  // ---- plans ----

  function StepBeginPlanAdd(s: Sys, t: nat, areaId: Id, content: PlanContent, actor: Id): Outcome {
    if areaId !in s.areas then Refuse(s, NotFound)
    else if s.areas[areaId].fields.status == ARCHIVED then Refuse(s, AreaArchived)
    else if !ValidLines(content.lines) then Refuse(s, GeometryInvalid)
    else Wait(s, t, PlanAdd(areaId, content, actor))
  }

  function StepPlanAdd(s: Sys, t: nat, areaId: Id, content: PlanContent, actor: Id, row: Id): Outcome {
    if row in s.plans then (s, Idle)
    else Finish(s.(plans := s.plans[row := Plan(areaId, content, Draft, 1, actor)]), t, Committed(row))
  }

  function StepBeginPlanEdit(s: Sys, t: nat, id: Id, expected: nat, content: PlanContent): Outcome {
    if id !in s.plans then Refuse(s, NotFound)
    else if s.plans[id].state != Draft then Refuse(s, PlanLocked)
    else if !ValidLines(content.lines) then Refuse(s, GeometryInvalid)
    else Wait(s, t, PlanEdit(id, expected, content, s.plans[id]))
  }

  /** `UPDATE .. WHERE id AND version`: the plan state is not part of the condition. */
  function PlanCas(plans: map<Id, Plan>, id: Id, expected: nat, content: PlanContent): Option<map<Id, Plan>> {
    if id in plans && plans[id].version == expected
    then Some(plans[id := plans[id].(content := content, version := expected + 1)])
    else None
  }

  function StepPlanEdit(s: Sys, t: nat, id: Id, expected: nat, content: PlanContent): Outcome {
    match PlanCas(s.plans, id, expected, content)
    case None => Finish(s, t, Refused(VersionConflict))
    case Some(plans) => Finish(s.(plans := plans), t, Committed(id))
  }

  function StepBeginPlanLock(s: Sys, t: nat, id: Id, expected: nat, target: string): Outcome {
    if id !in s.plans then Refuse(s, NotFound)
    else if s.plans[id].state != Draft || target != "locked" then Refuse(s, PlanStateInvalid)
    else Wait(s, t, PlanLock(id, expected, s.plans[id]))
  }

  /** `UPDATE .. WHERE id AND version AND plan_state`. */
  function PlanLockCas(plans: map<Id, Plan>, id: Id, expected: nat): Option<map<Id, Plan>> {
    if id in plans && plans[id].version == expected && plans[id].state == Draft
    then Some(plans[id := plans[id].(state := Locked, version := expected + 1)])
    else None
  }

  function StepPlanLock(s: Sys, t: nat, id: Id, expected: nat): Outcome {
    match PlanLockCas(s.plans, id, expected)
    case None => Finish(s, t, Refused(VersionConflict))
    case Some(plans) => Finish(s.(plans := plans), t, Committed(id))
  }

  function StepBeginPlanCopy(s: Sys, t: nat, id: Id, actor: Id): Outcome {
    if id !in s.plans then Refuse(s, NotFound)
    else Wait(s, t, PlanCopy(id, actor, s.plans[id]))
  }

  const COPY_SUFFIX := " / 复制版本"

  function CopyOf(source: Plan, actor: Id): Plan {
    Plan(source.areaId, source.content.(name := source.content.name + COPY_SUFFIX), Draft, source.version + 1, actor)
  }

  function StepPlanCopy(s: Sys, t: nat, before: Plan, actor: Id, row: Id): Outcome {
    if row in s.plans then (s, Idle)
    else Finish(s.(plans := s.plans[row := CopyOf(before, actor)]), t, Committed(row))
  }

  // ---- runs ----

  function StepBeginImport(s: Sys, t: nat, facts: RunFacts, actor: Id): Outcome {
    if facts.planId !in s.plans then Refuse(s, NotFound)
    else if s.plans[facts.planId].state != Locked then Refuse(s, PlanNotLocked)
    else if !ValidLines(facts.lines) then Refuse(s, GeometryInvalid)
    else if facts.endedAt <= facts.startedAt then Refuse(s, RunTimeInvalid)
    else Wait(s, t, RunLookup(facts, actor))
  }

  predicate HasChecksum(runs: map<Id, Run>, checksum: string) {
    exists id :: id in runs && runs[id].facts.checksum == checksum
  }

  predicate HasCode(runs: map<Id, Run>, code: string) {
    exists id :: id in runs && runs[id].facts.code == code
  }

  /** `ByChecksum`: `row` is the row the database returns, if there is one. */
  function StepRunLookup(s: Sys, t: nat, facts: RunFacts, actor: Id, row: Id): Outcome {
    if !HasChecksum(s.runs, facts.checksum) then Wait(s, t, RunInsert(facts, actor))
    else if row in s.runs && s.runs[row].facts.checksum == facts.checksum then Finish(s, t, ExistingRun(row))
    else (s, Idle)
  }

  function StepRunInsert(s: Sys, t: nat, facts: RunFacts, actor: Id, row: Id): Outcome {
    if HasChecksum(s.runs, facts.checksum) || HasCode(s.runs, facts.code) then Finish(s, t, Refused(DuplicateResource))
    else if row in s.runs then (s, Idle)
    else
      Finish(s.(runs := s.runs[row := Run(facts, Imported, 1, actor)],
                runHistory := s.runHistory[row := RunHistory(1, [Imported])]), t, Committed(row))
  }

  function StepBeginRunMove(s: Sys, t: nat, id: Id, expected: nat, target: string, reason: string): Outcome {
    if id !in s.runs then Refuse(s, NotFound)
    else
      match ParseRunState(target)
      case None => Refuse(s, RunStateInvalid)
      case Some(to) =>
        if to !in RunTargets(s.runs[id].state) then Refuse(s, RunTransitionInvalid)
        else if to == QualityChecked && s.runs[id].facts.navigation == NavInvalid then Refuse(s, NavigationInvalid)
        else if to == Rejected && |reason| < 4 then Refuse(s, RejectionReasonRequired)
        else Wait(s, t, RunMove(id, expected, to, s.runs[id]))
  }

  /** `UPDATE .. WHERE id AND version AND run_state`. */
  function RunCas(runs: map<Id, Run>, id: Id, expected: nat, from: RunState, to: RunState): Option<map<Id, Run>> {
    if id in runs && runs[id].version == expected && runs[id].state == from
    then Some(runs[id := runs[id].(state := to, version := expected + 1)])
    else None
  }

  function Moved(history: map<Id, RunHistory>, id: Id, to: RunState): map<Id, RunHistory> {
    if id in history then history[id := history[id].(states := history[id].states + [to])] else history
  }

  function StepRunMove(s: Sys, t: nat, id: Id, expected: nat, to: RunState, before: Run): Outcome {
    match RunCas(s.runs, id, expected, before.state, to)
    case None => Finish(s, t, Refused(VersionConflict))
    case Some(runs) => Finish(s.(runs := runs, runHistory := Moved(s.runHistory, id, to)), t, Committed(id))
  }

  // ---- gap reviews ----

  function StepBeginReview(s: Sys, t: nat, id: Id, expected: nat, target: string, note: string): Outcome {
    if id !in s.gaps then Refuse(s, NotFound)
    else
      match ParseGapState(target)
      case None => Refuse(s, GapStateInvalid)
      case Some(to) =>
        if to !in GapTargets(s.gaps[id].state) then Refuse(s, GapTransitionInvalid)
        else Wait(s, t, GapReview(id, expected, to, note, s.gaps[id]))
  }

  const NOTE_MARK := " 复核记录："

  /** `UPDATE .. WHERE id AND version AND gap_state`. */
  function GapCas(gaps: map<Id, Gap>, id: Id, expected: nat, from: GapState, to: GapState, explanation: string)
    : Option<map<Id, Gap>>
  {
    if id in gaps && gaps[id].version == expected && gaps[id].state == from
    then Some(gaps[id := gaps[id].(state := to, explanation := explanation, version := expected + 1)])
    else None
  }

  function Reviewed(history: map<Id, GapHistory>, id: Id, review: Review): map<Id, GapHistory> {
    if id in history then history[id := history[id].(reviews := history[id].reviews + [review])] else history
  }

  /** The new explanation is built from what the request read, not from the row. */
  function StepGapReview(s: Sys, t: nat, id: Id, expected: nat, to: GapState, note: string, before: Gap): Outcome {
    match GapCas(s.gaps, id, expected, before.state, to, before.explanation + NOTE_MARK + note)
    case None => Finish(s, t, Refused(VersionConflict))
    case Some(gaps) =>
      Finish(s.(gaps := gaps, gapHistory := Reviewed(s.gapHistory, id, Review(note, to))), t, Committed(id))
  }

  // ---- detection ----

  function StepBeginDetect(s: Sys, t: nat, request: DetectRequest): Outcome {
    if |request.idempotencyKey| < 8 || |request.idempotencyKey| > 120 then Refuse(s, IdempotencyKeyRequired)
    else if request.areaId !in s.areas then Refuse(s, NotFound)
    else if !Projected(s.areas[request.areaId].fields.crs) then Refuse(s, CoordinateSystemInvalid)
    else Wait(s, t, DetectArea(request, s.areas[request.areaId]))
  }

  /** `WHERE id IN ids` returns each stored row once, in any order. */
  ghost predicate IsSelection(runs: map<Id, Run>, ids: seq<Id>, order: seq<Id>) {
    NoDuplicates(order) && Members(order) == set id | id in ids && id in runs
  }

  function Load(runs: map<Id, Run>, plans: map<Id, Plan>, order: seq<Id>): (loaded: seq<Loaded>)
    requires forall id :: id in order ==> id in runs
    ensures |loaded| == |order|
  {
    seq(|order|, (k: nat) requires k < |order| =>
      var run := runs[order[k]];
      Loaded(order[k], run, if run.facts.planId in plans then Some(plans[run.facts.planId].areaId) else None))
  }

  function LoadedError(l: Loaded, areaId: Id): Option<Refusal> {
    if l.areaId != Some(areaId) then Some(RunAreaMismatch)
    else if l.run.state != Processed then Some(RunNotProcessed)
    else if !ValidLines(l.run.facts.lines) then Some(GeometryInvalid)
    else None
  }

  /** The first refusal of the loop over the loaded runs. */
  function FirstError(loaded: seq<Loaded>, areaId: Id): Option<Refusal> {
    if loaded == [] then None
    else
      match FirstError(loaded[..|loaded| - 1], areaId)
      case Some(why) => Some(why)
      case None => LoadedError(loaded[|loaded| - 1], areaId)
  }

  ghost function StepLoadRuns(s: Sys, t: nat, request: DetectRequest, area: Area, order: seq<Id>): Outcome {
    if !IsSelection(s.runs, request.runIds, order) then (s, Idle)
    else if |order| != |Members(request.runIds)| then Finish(s, t, Refused(RunSetIncomplete))
    else
      assert forall id :: id in order ==> id in Members(order);
      var loaded := Load(s.runs, s.plans, order);
      match FirstError(loaded, request.areaId)
      case Some(why) => Finish(s, t, Refused(why))
      case None => Wait(s, t, DetectLookup(request, area, loaded))
  }

  function Resolution(request: DetectRequest, area: Area): real {
    if request.resolution == 0.0 then area.fields.resolution else request.resolution
  }

  function Checksums(loaded: seq<Loaded>): seq<string> {
    seq(|loaded|, (k: nat) requires k < |loaded| => loaded[k].run.facts.checksum)
  }

  function TracksOf(loaded: seq<Loaded>): seq<Track> {
    seq(|loaded|, (k: nat) requires k < |loaded| => TrackOf(loaded[k].id, loaded[k].run.facts))
  }

  function KeyOf(request: DetectRequest, area: Area, loaded: seq<Loaded>): Key {
    StableInput(request.areaId, area.fields.crs, request.algorithm, Checksums(loaded), Resolution(request, area))
  }

  predicate HasKey(gaps: map<Id, Gap>, key: Key) {
    exists id :: id in gaps && gaps[id].facts.key == key
  }

  /** `ByInputHash`. */
  function StepDetectLookup(s: Sys, t: nat, request: DetectRequest, area: Area, loaded: seq<Loaded>, row: Id): Outcome {
    var key := KeyOf(request, area, loaded);
    if !HasKey(s.gaps, key) then Wait(s, t, DetectInsert(request, area, loaded))
    else if row in s.gaps && s.gaps[row].facts.key == key then Finish(s, t, ExistingGap(row, s.gaps[row]))
    else (s, Idle)
  }

  ghost function Uniqued(ids: seq<Id>): (r: seq<Id>)
    ensures IsUniqued(ids, r)
  {
    UniquedExists(ids);
    var r :| IsUniqued(ids, r);
    r
  }

  lemma {:induction false} UniquedExists(ids: seq<Id>)
    ensures exists r :: IsUniqued(ids, r)
  {
    if ids == [] {
      assert IsUniqued(ids, []);
    } else {
      var n := |ids| - 1;
      UniquedExists(ids[..n]);
      var r :| IsUniqued(ids[..n], r);
      UniquedNext(ids[..n], r, ids[n]);
      assert ids == ids[..n] + [ids[n]];
    }
  }

  function FactsOf(request: DetectRequest, sources: seq<Id>, key: Key, res: CoverageResult): GapFacts {
    GapFacts(request.areaId, sources, res.gapRing, res.recommended, res.area * res.gap, res.gap, res.coverage,
             res.overlap, request.algorithm, key)
  }

  function LoadedIds(loaded: seq<Loaded>): seq<Id> {
    seq(|loaded|, (k: nat) requires k < |loaded| => loaded[k].id)
  }

  /** `Create` under the unique index on the key. */
  function InsertGap(s: Sys, t: nat, row: Id, facts: GapFacts, history: GapHistory): Outcome {
    if HasKey(s.gaps, facts.key) then Finish(s, t, Refused(DuplicateResource))
    else if row in s.gaps then (s, Idle)
    else
      Finish(s.(gaps := s.gaps[row := Gap(facts, Detected, history.text, 1)],
                gapHistory := s.gapHistory[row := history]), t, Committed(row))
  }

  ghost function StepDetectInsert(
      s: Sys, t: nat, request: DetectRequest, area: Area, loaded: seq<Loaded>, row: Id, text: string): Outcome
  {
    if !ValidPolygon(area.fields.boundary) then Finish(s, t, Refused(GeometryInvalid))
    else
      match Score(area.fields.boundary, TracksOf(loaded), Resolution(request, area))
      case Err(_) => Finish(s, t, Refused(CoverageInvalid))
      case Ok(res) =>
        var facts := FactsOf(request, Uniqued(request.runIds), KeyOf(request, area, loaded), res);
        InsertGap(s, t, row, facts, GapHistory(text, area.fields.boundary, LoadedIds(loaded), []))
  }

  // ---- the step relation ----

  ghost function StepProceed(s: Sys, t: nat, call: Call, row: Id, text: string): Outcome {
    match call
    case AreaEdit(id, expected, fields, _) => StepAreaEdit(s, t, id, expected, fields)
    case PlanAdd(areaId, content, actor) => StepPlanAdd(s, t, areaId, content, actor, row)
    case PlanEdit(id, expected, content, _) => StepPlanEdit(s, t, id, expected, content)
    case PlanLock(id, expected, _) => StepPlanLock(s, t, id, expected)
    case PlanCopy(_, actor, before) => StepPlanCopy(s, t, before, actor, row)
    case RunLookup(facts, actor) => StepRunLookup(s, t, facts, actor, row)
    case RunInsert(facts, actor) => StepRunInsert(s, t, facts, actor, row)
    case RunMove(id, expected, to, before) => StepRunMove(s, t, id, expected, to, before)
    case GapReview(id, expected, target, note, before) => StepGapReview(s, t, id, expected, target, note, before)
    case DetectArea(_, _) => (s, Idle)
    case DetectLookup(request, area, loaded) => StepDetectLookup(s, t, request, area, loaded, row)
    case DetectInsert(request, area, loaded) => StepDetectInsert(s, t, request, area, loaded, row, text)
  }

  /** One atomic step. A request is begun under a ticket that is not in use. */
  ghost function Step(s: Sys, a: Action): Outcome {
    match a
    case CreateArea(newId, code, fields) => StepCreateArea(s, newId, code, fields)
    case LoadRuns(t, order) =>
      if t in s.calls && s.calls[t].DetectArea? then StepLoadRuns(s, t, s.calls[t].request, s.calls[t].area, order)
      else (s, Idle)
    case Proceed(t, row, text) =>
      if t in s.calls then StepProceed(s, t, s.calls[t], row, text) else (s, Idle)
    case _ => if a.t in s.calls then (s, Idle) else StepBegin(s, a)
  }

  ghost function StepBegin(s: Sys, a: Action): Outcome
    requires !a.CreateArea? && !a.LoadRuns? && !a.Proceed?
  {
    match a
    case BeginAreaEdit(t, id, expected, fields) => StepBeginAreaEdit(s, t, id, expected, fields)
    case BeginPlanAdd(t, areaId, content, actor) => StepBeginPlanAdd(s, t, areaId, content, actor)
    case BeginPlanEdit(t, id, expected, content) => StepBeginPlanEdit(s, t, id, expected, content)
    case BeginPlanLock(t, id, expected, target) => StepBeginPlanLock(s, t, id, expected, target)
    case BeginPlanCopy(t, id, actor) => StepBeginPlanCopy(s, t, id, actor)
    case BeginImport(t, facts, actor) => StepBeginImport(s, t, facts, actor)
    case BeginRunMove(t, id, expected, target, reason) => StepBeginRunMove(s, t, id, expected, target, reason)
    case BeginReview(t, id, expected, target, note) => StepBeginReview(s, t, id, expected, target, note)
    case BeginDetect(t, request) => StepBeginDetect(s, t, request)
  }

  /** The state after a run of steps. */
  ghost function After(s: Sys, actions: seq<Action>): Sys {
    if actions == [] then s
    else Step(After(s, actions[..|actions| - 1]), actions[|actions| - 1]).0
  }
}
