/** The services and repositories as the code runs them: tables that are overwritten in
    place. A method for a stretch of a request between two database statements is exactly
    one step of `Workflow`; `CreateGap` is the insert within one of them. `Import`,
    `Transition` and `Detect` serve whole requests, several steps each. */
module Backend {
  import opened Wrappers
  import opened Tracks
  import opened Coverage
  import opened CacheKey
  import opened StateGraphs
  import opened Records
  import opened Workflow
  import opened Cache
  import opened Writes
  import opened Soundness
  import opened Services
  import Atomic
  import opened Seed

  class Planner {
    var areas: map<Id, Area>
    var plans: map<Id, Plan>
    var runs: map<Id, Run>
    var gaps: map<Id, Gap>
    var calls: map<nat, Call>
    ghost var gapHistory: map<Id, GapHistory>
    ghost var runHistory: map<Id, RunHistory>

    ghost function Now(): Sys
      reads this
    {
      Sys(areas, plans, runs, gaps, calls, gapHistory, runHistory)
    }

    /** Every invariant of the workflow. */
    ghost predicate Valid()
      reads this
    {
      Sound(Now())
    }

    /** `seed`. */
    constructor ()
      ensures Valid() && Now() == Seeded()
    {
      areas, plans, runs, gaps, calls := Seeded().areas, Seeded().plans, Seeded().runs, map[], map[];
      gapHistory, runHistory := map[], Seeded().runHistory;
      new;
      SeedIsSound();
    }

    // ---- survey areas ----

    method CreateArea(newId: Id, code: string, fields: AreaFields) returns (reply: Reply)
      requires Valid() && newId !in areas
      modifies this`areas
      ensures Valid()
      ensures (Now(), reply) == Step(old(Now()), Action.CreateArea(newId, code, fields))
    {
      hide Sound;
      StepSound(Now(), Action.CreateArea(newId, code, fields));
      var error := AreaGeometryError(fields);
      if error.Some? {
        return Refused(error.value);
      }
      if exists id :: id in areas && areas[id].code == code {
        return Refused(DuplicateResource);
      }
      areas := areas[newId := Area(code, fields.(status := "draft"), 1)];
      reply := Committed(newId);
    }

    method BeginAreaEdit(t: nat, id: Id, expected: nat, fields: AreaFields) returns (reply: Reply)
      requires Valid() && t !in calls
      modifies this`calls
      ensures Valid()
      ensures (Now(), reply) == Step(old(Now()), Action.BeginAreaEdit(t, id, expected, fields))
    {
      hide Sound;
      StepSound(Now(), Action.BeginAreaEdit(t, id, expected, fields));
      if id !in areas {
        return Refused(NotFound);
      }
      var before := areas[id];
      if before.fields.status == ARCHIVED {
        return Refused(AreaArchived);
      }
      if !ValidStatus(fields.status) {
        return Refused(AreaStatusInvalid);
      }
      var error := AreaGeometryError(fields);
      if error.Some? {
        return Refused(error.value);
      }
      calls := calls[t := AreaEdit(id, expected, fields, before)];
      reply := Waiting;
    }

    /** `SurveyAreaRepository.Update`. */
    method UpdateArea(t: nat) returns (reply: Reply)
      requires Valid() && t in calls && calls[t].AreaEdit?
      modifies this`areas, this`calls
      ensures Valid()
      ensures (Now(), reply) == Step(old(Now()), Proceed(t, 0, ""))
    {
      hide Sound, Step;
      StepSound(Now(), Proceed(t, 0, ""));
      StepProceeds(Now(), Proceed(t, 0, ""));
      var AreaEdit(id, expected, fields, _) := calls[t];
      calls := calls - {t};
      if id in areas && areas[id].version == expected {
        areas := areas[id := areas[id].(fields := fields, version := areas[id].version + 1)];
        reply := Committed(id);
      } else {
        reply := Refused(VersionConflict);
      }
    }

    // ---- transect plans ----

    method BeginPlanAdd(t: nat, areaId: Id, content: PlanContent, actor: Id) returns (reply: Reply)
      requires Valid() && t !in calls
      modifies this`calls
      ensures Valid()
      ensures (Now(), reply) == Step(old(Now()), Action.BeginPlanAdd(t, areaId, content, actor))
    {
      hide Sound;
      StepSound(Now(), Action.BeginPlanAdd(t, areaId, content, actor));
      if areaId !in areas {
        return Refused(NotFound);
      }
      if areas[areaId].fields.status == ARCHIVED {
        return Refused(AreaArchived);
      }
      if !ValidLines(content.lines) {
        return Refused(GeometryInvalid);
      }
      calls := calls[t := PlanAdd(areaId, content, actor)];
      reply := Waiting;
    }

    method InsertPlan(t: nat, row: Id) returns (reply: Reply)
      requires Valid() && t in calls && calls[t].PlanAdd? && row !in plans
      modifies this`plans, this`calls
      ensures Valid()
      ensures (Now(), reply) == Step(old(Now()), Proceed(t, row, ""))
    {
      hide Sound, Step;
      StepSound(Now(), Proceed(t, row, ""));
      StepProceeds(Now(), Proceed(t, row, ""));
      var PlanAdd(areaId, content, actor) := calls[t];
      calls := calls - {t};
      plans := plans[row := Plan(areaId, content, Draft, 1, actor)];
      reply := Committed(row);
    }

    method BeginPlanEdit(t: nat, id: Id, expected: nat, content: PlanContent) returns (reply: Reply)
      requires Valid() && t !in calls
      modifies this`calls
      ensures Valid()
      ensures (Now(), reply) == Step(old(Now()), Action.BeginPlanEdit(t, id, expected, content))
    {
      hide Sound;
      StepSound(Now(), Action.BeginPlanEdit(t, id, expected, content));
      if id !in plans {
        return Refused(NotFound);
      }
      var before := plans[id];
      if before.state != Draft {
        return Refused(Refusal.PlanLocked);
      }
      if !ValidLines(content.lines) {
        return Refused(GeometryInvalid);
      }
      calls := calls[t := PlanEdit(id, expected, content, before)];
      reply := Waiting;
    }

    /** `TransectPlanRepository.Update`. */
    method UpdatePlan(t: nat) returns (reply: Reply)
      requires Valid() && t in calls && calls[t].PlanEdit?
      modifies this`plans, this`calls
      ensures Valid()
      ensures (Now(), reply) == Step(old(Now()), Proceed(t, 0, ""))
    {
      hide Sound, Step;
      StepSound(Now(), Proceed(t, 0, ""));
      StepProceeds(Now(), Proceed(t, 0, ""));
      var PlanEdit(id, expected, content, _) := calls[t];
      calls := calls - {t};
      if id in plans && plans[id].version == expected {
        plans := plans[id := plans[id].(content := content, version := plans[id].version + 1)];
        reply := Committed(id);
      } else {
        reply := Refused(VersionConflict);
      }
    }

    method BeginPlanLock(t: nat, id: Id, expected: nat, target: string) returns (reply: Reply)
      requires Valid() && t !in calls
      modifies this`calls
      ensures Valid()
      ensures (Now(), reply) == Step(old(Now()), Action.BeginPlanLock(t, id, expected, target))
    {
      hide Sound;
      StepSound(Now(), Action.BeginPlanLock(t, id, expected, target));
      if id !in plans {
        return Refused(NotFound);
      }
      var before := plans[id];
      if before.state != Draft || target != "locked" {
        return Refused(PlanStateInvalid);
      }
      calls := calls[t := PlanLock(id, expected, before)];
      reply := Waiting;
    }

    /** `TransectPlanRepository.Transition`. */
    method LockPlan(t: nat) returns (reply: Reply)
      requires Valid() && t in calls && calls[t].PlanLock?
      modifies this`plans, this`calls
      ensures Valid()
      ensures (Now(), reply) == Step(old(Now()), Proceed(t, 0, ""))
    {
      hide Sound, Step;
      StepSound(Now(), Proceed(t, 0, ""));
      StepProceeds(Now(), Proceed(t, 0, ""));
      var PlanLock(id, expected, _) := calls[t];
      calls := calls - {t};
      if id in plans && plans[id].version == expected && plans[id].state == Draft {
        plans := plans[id := plans[id].(state := Locked, version := plans[id].version + 1)];
        reply := Committed(id);
      } else {
        reply := Refused(VersionConflict);
      }
    }

    method BeginPlanCopy(t: nat, id: Id, actor: Id) returns (reply: Reply)
      requires Valid() && t !in calls
      modifies this`calls
      ensures Valid()
      ensures (Now(), reply) == Step(old(Now()), Action.BeginPlanCopy(t, id, actor))
    {
      hide Sound;
      StepSound(Now(), Action.BeginPlanCopy(t, id, actor));
      if id !in plans {
        return Refused(NotFound);
      }
      calls := calls[t := PlanCopy(id, actor, plans[id])];
      reply := Waiting;
    }

    /** `TransectPlanRepository.Copy`. */
    method CopyPlan(t: nat, row: Id) returns (reply: Reply)
      requires Valid() && t in calls && calls[t].PlanCopy? && row !in plans
      modifies this`plans, this`calls
      ensures Valid()
      ensures (Now(), reply) == Step(old(Now()), Proceed(t, row, ""))
    {
      hide Sound, Step;
      StepSound(Now(), Proceed(t, row, ""));
      StepProceeds(Now(), Proceed(t, row, ""));
      var PlanCopy(_, actor, source) := calls[t];
      calls := calls - {t};
      var copy := source.(content := source.content.(name := source.content.name + COPY_SUFFIX),
                          state := Draft, version := source.version + 1, createdBy := actor);
      plans := plans[row := copy];
      reply := Committed(row);
    }

    // ---- sonar runs ----

    method BeginImport(t: nat, facts: RunFacts, actor: Id) returns (reply: Reply)
      requires Valid() && t !in calls
      modifies this`calls
      ensures Valid()
      ensures (Now(), reply) == Step(old(Now()), Action.BeginImport(t, facts, actor))
    {
      hide Sound;
      StepSound(Now(), Action.BeginImport(t, facts, actor));
      if facts.planId !in plans {
        return Refused(NotFound);
      }
      if plans[facts.planId].state != Locked {
        return Refused(PlanNotLocked);
      }
      if !ValidLines(facts.lines) {
        return Refused(GeometryInvalid);
      }
      if facts.endedAt <= facts.startedAt {
        return Refused(RunTimeInvalid);
      }
      calls := calls[t := RunLookup(facts, actor)];
      reply := Waiting;
    }

    /** `SonarRunRepository.ByChecksum` in the course of an import. */
    method LookUpChecksum(t: nat) returns (reply: Reply, row: Id)
      requires Valid() && t in calls && calls[t].RunLookup?
      modifies this`calls
      ensures Valid()
      ensures (Now(), reply) == Step(old(Now()), Proceed(t, row, ""))
      ensures !reply.Idle?
    {
      hide Sound, Step;
      ghost var before := Now();
      var RunLookup(facts, actor) := calls[t];
      row := 0;
      if id :| id in runs && runs[id].facts.checksum == facts.checksum {
        assert HasChecksum(runs, facts.checksum);
        calls := calls - {t};
        row := id;
        reply := ExistingRun(id);
      } else {
        calls := calls[t := Call.RunInsert(facts, actor)];
        reply := Waiting;
      }
      StepSound(before, Proceed(t, row, ""));
      StepProceeds(before, Proceed(t, row, ""));
    }

    /** `SonarRunRepository.Create` under the unique indexes on code and checksum. */
    method InsertRun(t: nat, row: Id) returns (reply: Reply)
      requires Valid() && t in calls && calls[t].RunInsert? && row !in runs
      modifies this`runs, this`calls, this`runHistory
      ensures Valid()
      ensures (Now(), reply) == Step(old(Now()), Proceed(t, row, ""))
    {
      hide Sound, Step, HasChecksum, HasCode;
      StepSound(Now(), Proceed(t, row, ""));
      StepProceeds(Now(), Proceed(t, row, ""));
      var RunInsert(facts, actor) := calls[t];
      calls := calls - {t};
      if HasChecksum(runs, facts.checksum) || HasCode(runs, facts.code) {
        return Refused(DuplicateResource);
      }
      runs := runs[row := Run(facts, Imported, 1, actor)];
      runHistory := runHistory[row := RunHistory(1, [Imported])];
      reply := Committed(row);
    }

    method BeginRunMove(t: nat, id: Id, expected: nat, target: string, reason: string) returns (reply: Reply)
      requires Valid() && t !in calls
      modifies this`calls
      ensures Valid()
      ensures (Now(), reply) == Step(old(Now()), Action.BeginRunMove(t, id, expected, target, reason))
    {
      hide Sound;
      StepSound(Now(), Action.BeginRunMove(t, id, expected, target, reason));
      if id !in runs {
        return Refused(NotFound);
      }
      var before := runs[id];
      var to := ParseRunState(target);
      if to.None? {
        return Refused(RunStateInvalid);
      }
      if to.value !in RunTargets(before.state) {
        return Refused(RunTransitionInvalid);
      }
      if to.value == QualityChecked && before.facts.navigation == NavInvalid {
        return Refused(NavigationInvalid);
      }
      if to.value == Rejected && |reason| < 4 {
        return Refused(RejectionReasonRequired);
      }
      calls := calls[t := RunMove(id, expected, to.value, before)];
      reply := Waiting;
    }

    /** `SonarRunRepository.Transition`. */
    method MoveRun(t: nat) returns (reply: Reply)
      requires Valid() && t in calls && calls[t].RunMove?
      modifies this`runs, this`calls, this`runHistory
      ensures Valid()
      ensures (Now(), reply) == Step(old(Now()), Proceed(t, 0, ""))
    {
      hide Sound, Step, Moved;
      StepSound(Now(), Proceed(t, 0, ""));
      StepProceeds(Now(), Proceed(t, 0, ""));
      var RunMove(id, expected, to, before) := calls[t];
      calls := calls - {t};
      if id in runs && runs[id].version == expected && runs[id].state == before.state {
        runs := runs[id := runs[id].(state := to, version := runs[id].version + 1)];
        runHistory := Moved(runHistory, id, to);
        reply := Committed(id);
      } else {
        reply := Refused(VersionConflict);
      }
    }

    // ---- coverage gaps ----

    method BeginReview(t: nat, id: Id, expected: nat, target: string, note: string) returns (reply: Reply)
      requires Valid() && t !in calls
      modifies this`calls
      ensures Valid()
      ensures (Now(), reply) == Step(old(Now()), Action.BeginReview(t, id, expected, target, note))
    {
      hide Sound;
      StepSound(Now(), Action.BeginReview(t, id, expected, target, note));
      if id !in gaps {
        return Refused(NotFound);
      }
      var before := gaps[id];
      var to := ParseGapState(target);
      if to.None? {
        return Refused(GapStateInvalid);
      }
      if to.value !in GapTargets(before.state) {
        return Refused(GapTransitionInvalid);
      }
      calls := calls[t := GapReview(id, expected, to.value, note, before)];
      reply := Waiting;
    }

    /** `CoverageGapRepository.Transition`. */
    method ReviewGap(t: nat) returns (reply: Reply)
      requires Valid() && t in calls && calls[t].GapReview?
      modifies this`gaps, this`calls, this`gapHistory
      ensures Valid()
      ensures (Now(), reply) == Step(old(Now()), Proceed(t, 0, ""))
    {
      hide Sound, Step, Workflow.Reviewed;
      StepSound(Now(), Proceed(t, 0, ""));
      StepProceeds(Now(), Proceed(t, 0, ""));
      var GapReview(id, expected, target, note, before) := calls[t];
      calls := calls - {t};
      var explanation := before.explanation + NOTE_MARK + note;
      if id in gaps && gaps[id].version == expected && gaps[id].state == before.state {
        gaps := gaps[id := gaps[id].(state := target, explanation := explanation, version := gaps[id].version + 1)];
        gapHistory := Workflow.Reviewed(gapHistory, id, Review(note, target));
        reply := Committed(id);
      } else {
        reply := Refused(VersionConflict);
      }
    }

    method BeginDetect(t: nat, request: DetectRequest) returns (reply: Reply)
      requires Valid() && t !in calls
      modifies this`calls
      ensures Valid()
      ensures (Now(), reply) == Step(old(Now()), Action.BeginDetect(t, request))
    {
      hide Sound;
      StepSound(Now(), Action.BeginDetect(t, request));
      if |request.idempotencyKey| < 8 || |request.idempotencyKey| > 120 {
        return Refused(IdempotencyKeyRequired);
      }
      if request.areaId !in areas {
        return Refused(NotFound);
      }
      var area := areas[request.areaId];
      if !Projected(area.fields.crs) {
        return Refused(CoordinateSystemInvalid);
      }
      calls := calls[t := DetectArea(request, area)];
      reply := Waiting;
    }

    /** `SonarRunRepository.ByIDs`: the database answers with the stored rows in some order. */
    method LoadRuns(t: nat, order: seq<Id>) returns (reply: Reply)
      requires Valid() && t in calls && calls[t].DetectArea? && IsSelection(runs, calls[t].request.runIds, order)
      modifies this`calls
      ensures Valid()
      ensures (Now(), reply) == Step(old(Now()), Action.LoadRuns(t, order))
    {
      hide Sound, Load, FirstError, NoDuplicates;
      StepSound(Now(), Action.LoadRuns(t, order));
      var DetectArea(request, area) := calls[t];
      assert forall id :: id in order ==> id in Members(order);
      var unique := UniqueIds(request.runIds);
      UniqueCount(request.runIds, unique);
      if |order| != |unique| {
        calls := calls - {t};
        return Refused(RunSetIncomplete);
      }
      var loaded := Load(runs, plans, order);
      var error, checksums, tracks := CheckRuns(loaded, request.areaId);
      if error.Some? {
        calls := calls - {t};
        return Refused(error.value);
      }
      calls := calls[t := DetectLookup(request, area, loaded)];
      reply := Waiting;
    }

    /** `CoverageGapRepository.ByInputHash`. */
    method LookUpKey(t: nat) returns (reply: Reply, row: Id)
      requires Valid() && t in calls && calls[t].DetectLookup?
      modifies this`calls
      ensures Valid()
      ensures (Now(), reply) == Step(old(Now()), Proceed(t, row, ""))
      ensures !reply.Idle?
    {
      hide Sound, Step, KeyOf;
      ghost var before := Now();
      var DetectLookup(request, area, loaded) := calls[t];
      var key := KeyOf(request, area, loaded);
      row := 0;
      if id :| id in gaps && gaps[id].facts.key == key {
        assert HasKey(gaps, key);
        calls := calls - {t};
        row := id;
        reply := ExistingGap(id, gaps[id]);
      } else {
        calls := calls[t := DetectInsert(request, area, loaded)];
        reply := Waiting;
      }
      StepSound(before, Proceed(t, row, ""));
      StepProceeds(before, Proceed(t, row, ""));
    }

    /** `CoverageGapRepository.Create` under the unique index on the key. */
    method CreateGap(
        t: nat, row: Id, facts: GapFacts, text: string, ghost boundary: Polygon, ghost loaded: seq<Id>)
      returns (reply: Reply)
      requires row !in gaps
      modifies this`gaps, this`calls, this`gapHistory
      ensures (Now(), reply)
           == Workflow.InsertGap(old(Now()), t, row, facts, GapHistory(text, boundary, loaded, []))
    {
      calls := calls - {t};
      if HasKey(gaps, facts.key) {
        return Refused(DuplicateResource);
      }
      gaps := gaps[row := Gap(facts, Detected, text, 1)];
      gapHistory := gapHistory[row := GapHistory(text, boundary, loaded, [])];
      reply := Committed(row);
    }

    /** The computation after a missed lookup. */
    method InsertGap(t: nat, row: Id, text: string) returns (reply: Reply)
      requires Valid() && t in calls && calls[t].DetectInsert? && row !in gaps
      modifies this`gaps, this`calls, this`gapHistory
      ensures Valid()
      ensures (Now(), reply) == Step(old(Now()), Proceed(t, row, text))
    {
      hide Sound, Score, KeyOf, Uniqued, TracksOf, Resolution, ValidPolygon, Workflow.InsertGap, Step;
      ghost var before := Now();
      StepSound(before, Proceed(t, row, text));
      var DetectInsert(request, area, loaded) := calls[t];
      DetectInsertStep(before, t, row, text);
      if !ValidPolygon(area.fields.boundary) {
        calls := calls - {t};
        return Refused(GeometryInvalid);
      }
      var result := CalculateCoverage(area.fields.boundary, TracksOf(loaded), Resolution(request, area));
      if result.Err? {
        calls := calls - {t};
        return Refused(CoverageInvalid);
      }
      var ids := UniqueIds(request.runIds);
      UniquedIsUnique(request.runIds, ids, Uniqued(request.runIds));
      var facts := FactsOf(request, ids, KeyOf(request, area, loaded), result.value);
      reply := CreateGap(t, row, facts, text, area.fields.boundary, LoadedIds(loaded));
    }

    // ---- whole requests that no other request interrupts ----

    /** `SonarRunService.Import`. */
    method Import(t: nat, facts: RunFacts, actor: Id, row: Id) returns (reply: Reply)
      requires Valid() && t !in calls && row !in runs
      modifies this
      ensures Valid() && ImportAnswered(old(Now()), Now(), facts, actor, row, reply)
      ensures exists found :: (Now(), reply) == Atomic.ImportRun(old(Now()), facts, actor, found, row)
    {
      hide Sound, Step, ImportAnswered, HasChecksum, Atomic.ImportRun;
      ghost var before := Now();
      ghost var found := 0;
      ImportBegun(before, t, facts, actor);
      reply := BeginImport(t, facts, actor);
      if reply.Waiting? {
        ghost var looking := Now();
        var id;
        reply, id := LookUpChecksum(t);
        found := id;
        ChecksumLookedUp(looking, t, facts, actor, found);
        if reply.Waiting? {
          RunInserted(Now(), t, facts, actor, row);
          reply := InsertRun(t, row);
        }
      }
      ImportServed(before, t, facts, actor, found, row);
      Atomic.ImportServedAtOnce(before, t, facts, actor, found, row);
    }

    /** `SonarRunService.Transition`: it commits exactly on the version, a target of the run's
        state, sound navigation for a quality check and a reason for a rejection. */
    method TransitionRun(t: nat, id: Id, expected: nat, target: string, reason: string) returns (reply: Reply)
      requires Valid() && t !in calls
      modifies this
      ensures Valid() && Now() == old(Now()).(runs := runs, runHistory := runHistory)
      ensures reply.Refused? || reply == Committed(id)
      ensures reply == Committed(id) <==> MoveFits(old(runs), id, expected, target, reason)
      ensures runs == if reply == Committed(id) then MoveOf(old(runs), id, target) else old(runs)
      ensures (Now(), reply) == Atomic.TransitionRun(old(Now()), id, expected, target, reason)
    {
      hide Sound, Step, RunTargets, Moved, Atomic.TransitionRun;
      Atomic.TransitionRunServed(Now(), t, id, expected, target, reason);
      Atomic.TransitionRunCommits(Now(), id, expected, target, reason);
      RunMoveBegun(Now(), t, id, expected, target, reason);
      reply := BeginRunMove(t, id, expected, target, reason);
      if reply.Waiting? {
        reply := MoveRun(t);
      }
    }

    /** `CoverageGapService.Transition`: it commits exactly on the version and a target of
        the gap's state, and then appends the note. */
    method Transition(t: nat, id: Id, expected: nat, target: string, note: string) returns (reply: Reply)
      requires Valid() && t !in calls
      modifies this
      ensures Valid() && Now() == old(Now()).(gaps := gaps, gapHistory := gapHistory)
      ensures reply.Refused? || reply == Committed(id)
      ensures reply == Committed(id) <==> ReviewFits(old(gaps), id, expected, target)
      ensures gaps == if reply == Committed(id) then ReviewOf(old(gaps), id, target, note) else old(gaps)
      ensures (Now(), reply) == Atomic.TransitionGap(old(Now()), id, expected, target, note)
    {
      hide Sound, Step, GapTargets, Workflow.Reviewed, Atomic.TransitionGap;
      Atomic.TransitionGapServed(Now(), t, id, expected, target, note);
      ReviewBegun(Now(), t, id, expected, target, note);
      reply := BeginReview(t, id, expected, target, note);
      if reply.Waiting? {
        ReviewCommitted(Now(), t);
        reply := ReviewGap(t);
      }
    }

    /** `CoverageGapService.Detect`. */
    method Detect(t: nat, request: DetectRequest, order: seq<Id>, row: Id, text: string) returns (reply: Reply)
      requires Valid() && t !in calls && row !in gaps && IsSelection(runs, request.runIds, order)
      modifies this
      ensures Valid() && DetectAnswered(old(Now()), Now(), request, order, row, reply)
      ensures exists found :: (Now(), reply) == Atomic.Detect(old(Now()), request, order, found, row, text)
    {
      hide Sound, Step, IsSelection, DetectAnswered, Load, HitIsFaithful, HoldsScore, FreshScore, Atomic.Detect;
      ghost var before := Now();
      ghost var found := 0;
      DetectBegun(before, t, request);
      reply := BeginDetect(t, request);
      if reply.Waiting? {
        RunsLoaded(Now(), t, order);
        reply := LoadRuns(t, order);
        if reply.Waiting? {
          ghost var looking := Now();
          var id;
          reply, id := LookUpKey(t);
          found := id;
          KeyLookedUp(looking, t, found);
          if reply.Waiting? {
            GapInserted(Now(), t, row, text);
            reply := InsertGap(t, row, text);
          }
        }
      }
      DetectServed(before, t, request, order, found, row, text);
      Atomic.DetectServedAtOnce(before, t, request, order, found, row, text);
    }
  }

  lemma UniqueCount(ids: seq<Id>, unique: seq<Id>)
    requires IsUniqued(ids, unique)
    ensures |unique| == |Members(ids)|
  {
    MembersCounted(unique);
    assert Members(unique) == Members(ids);
  }

  /** The loop of `Detect` over the loaded runs: the first misfit refuses, otherwise it
      gathers the checksums and the tracks. */
  method CheckRuns(loaded: seq<Loaded>, areaId: Id)
    returns (error: Option<Refusal>, checksums: seq<string>, tracks: seq<Track>)
    ensures error == FirstError(loaded, areaId)
    ensures error.None? ==> checksums == Checksums(loaded) && tracks == TracksOf(loaded)
  {
    error, checksums, tracks := None, [], [];
    for k := 0 to |loaded|
      invariant FirstError(loaded[..k], areaId) == None
      invariant checksums == Checksums(loaded[..k]) && tracks == TracksOf(loaded[..k])
    {
      var l := loaded[k];
      assert loaded[..k + 1][..k] == loaded[..k];
      var misfit := LoadedError(l, areaId);
      if misfit.Some? {
        EarlierErrorStays(loaded, k + 1, areaId);
        return misfit, [], [];
      }
      checksums := checksums + [l.run.facts.checksum];
      tracks := tracks + [TrackOf(l.id, l.run.facts)];
    }
    assert loaded[..|loaded|] == loaded;
  }

  lemma {:induction false} EarlierErrorStays(loaded: seq<Loaded>, k: nat, areaId: Id)
    requires k <= |loaded| && FirstError(loaded[..k], areaId).Some?
    ensures FirstError(loaded, areaId) == FirstError(loaded[..k], areaId)
    decreases |loaded|
  {
    var n := |loaded|;
    if k == n {
      assert loaded[..k] == loaded;
    } else {
      assert loaded[..n - 1][..k] == loaded[..k];
      EarlierErrorStays(loaded[..n - 1], k, areaId);
    }
  }
}
