/** Requests that no other request interrupts: what they answer, in every sound state. */
module Services {
  import opened Wrappers
  import opened Coverage
  import opened CacheKey
  import opened StateGraphs
  import opened Records
  import opened Workflow
  import opened Growth
  import opened Safety
  import opened Trails
  import opened Cache
  import opened Writes
  import opened Soundness

  /** An import is refused, finds the run of its checksum, or adds it; whoever imports a
      track again gets the run that has its checksum. */
  ghost predicate ImportAnswered(s: Sys, s': Sys, facts: RunFacts, actor: Id, row: Id, reply: Reply) {
    && s' == s.(runs := s'.runs, runHistory := s'.runHistory)
    && (reply.Refused? || reply.ExistingRun? || reply == Committed(row))
    && s'.runs == (if reply == Committed(row) then s.runs[row := Run(facts, Imported, 1, actor)] else s.runs)
    && (reply == Committed(row) ==> !HasChecksum(s.runs, facts.checksum))
    && (!reply.Refused? ==> reply.id in s'.runs && s'.runs[reply.id].facts.checksum == facts.checksum)
    && (!reply.Refused? ==>
          forall id :: id in s'.runs && s'.runs[id].facts.checksum == facts.checksum ==> id == reply.id)
  }

  /** An import that no other request interrupts; `found` is the row a lookup returns. */
  ghost function ServeImport(s: Sys, t: nat, facts: RunFacts, actor: Id, found: Id, row: Id): Outcome {
    var (s1, r1) := Step(s, Action.BeginImport(t, facts, actor));
    if !r1.Waiting? then (s1, r1)
    else
      var (s2, r2) := Step(s1, Proceed(t, found, ""));
      if !r2.Waiting? then (s2, r2) else Step(s2, Proceed(t, row, ""))
  }

  lemma ImportServed(s: Sys, t: nat, facts: RunFacts, actor: Id, found: Id, row: Id)
    requires Sound(s) && t !in s.calls && row !in s.runs
    requires !ServeImport(s, t, facts, actor, found, row).1.Idle?
    ensures var (s', reply) := ServeImport(s, t, facts, actor, found, row);
            ImportAnswered(s, s', facts, actor, row, reply)
  {
    hide Sound, Step, HasChecksum, HasCode;
    SoundIsUnique(s);
    Overwritten(s.calls, t, RunLookup(facts, actor), Call.RunInsert(facts, actor));
    ImportBegun(s, t, facts, actor);
    var (s1, r1) := Step(s, Action.BeginImport(t, facts, actor));
    if r1.Waiting? {
      ChecksumLookedUp(s1, t, facts, actor, found);
      var (s2, r2) := Step(s1, Proceed(t, found, ""));
      if r2.Waiting? {
        RunInserted(s2, t, facts, actor, row);
        NoOtherChecksum(s.runs, facts.checksum);
      }
    }
  }

  lemma NoOtherChecksum(runs: map<Id, Run>, checksum: string)
    requires !HasChecksum(runs, checksum)
    ensures forall id :: id in runs ==> runs[id].facts.checksum != checksum
  {
  }

  lemma Overwritten(calls: map<nat, Call>, t: nat, one: Call, two: Call)
    requires t !in calls
    ensures calls[t := one] - {t} == calls && calls[t := one][t := two] == calls[t := two]
    ensures calls[t := two] - {t} == calls
  {
  }

  ghost predicate HasKeyOf(g: Gap, call: Call)
    requires call.DetectLookup?
  {
    g.facts.key == KeyOf(call.request, call.area, call.loaded)
  }

  /** A detection is refused, answered with the gap of a known key, or with a new gap. The
      answer is the one gap of its key, so that detecting again returns it, and a gap of the
      requested area, algorithm, resolution and runs; its record is that of a fresh
      computation if it is new, or if it was computed from a boundary that offers the
      ground of the area's boundary. */
  ghost predicate DetectAnswered(s: Sys, s': Sys, request: DetectRequest, order: seq<Id>, row: Id, reply: Reply) {
    && s' == s.(gaps := s'.gaps, gapHistory := s'.gapHistory)
    && (reply.Refused? || reply.ExistingGap? || reply == Committed(row))
    && (reply == Committed(row) || s'.gaps == s.gaps)
    && (!reply.Refused? ==>
          && request.areaId in s.areas && (forall id :: id in order ==> id in s.runs)
          && reply.id in s'.gaps && reply.id in s'.gapHistory
          && var call := DetectLookup(request, s.areas[request.areaId], Load(s.runs, s.plans, order));
             && HasKeyOf(s'.gaps[reply.id], call)
             && (forall id :: id in s'.gaps && HasKeyOf(s'.gaps[id], call) ==> id == reply.id)
             && HitIsFaithful(call, s'.gaps[reply.id], s'.gapHistory[reply.id])
             && (reply.ExistingGap? ==> reply.gap == s.gaps[reply.id])
             && (reply == Committed(row) ==> HoldsScore(s'.gaps[row].facts, FreshScore(call))))
  }

  lemma OneGapPerKey(s: Sys, call: Call, row: Id)
    requires Sound(s) && call.DetectLookup?
    ensures row in s.gaps && HasKeyOf(s.gaps[row], call) ==>
              forall id :: id in s.gaps && HasKeyOf(s.gaps[id], call) ==> id == row
  {
    hide KeyOf, CallsOk, RowsSafe, TrailsKept, CacheFaithful, RunsUnique, AreasUnique;
  }

  /** A detection that no other request interrupts. */
  ghost function ServeDetect(
      s: Sys, t: nat, request: DetectRequest, order: seq<Id>, found: Id, row: Id, text: string): Outcome
  {
    var (s1, r1) := Step(s, Action.BeginDetect(t, request));
    if !r1.Waiting? then (s1, r1)
    else
      var (s2, r2) := Step(s1, Action.LoadRuns(t, order));
      if !r2.Waiting? then (s2, r2)
      else
        var (s3, r3) := Step(s2, Proceed(t, found, ""));
        if !r3.Waiting? then (s3, r3) else Step(s3, Proceed(t, row, text))
  }

  lemma DetectServed(s: Sys, t: nat, request: DetectRequest, order: seq<Id>, found: Id, row: Id, text: string)
    requires Sound(s) && t !in s.calls && row !in s.gaps && IsSelection(s.runs, request.runIds, order)
    requires !ServeDetect(s, t, request, order, found, row, text).1.Idle?
    ensures var (s', reply) := ServeDetect(s, t, request, order, found, row, text);
            DetectAnswered(s, s', request, order, row, reply)
  {
    hide Sound, Step, IsSelection, Load, HitIsFaithful, HoldsScore, FreshScore, HasKeyOf;
    DetectBegun(s, t, request);
    var (s1, r1) := Step(s, Action.BeginDetect(t, request));
    if r1.Waiting? {
      StepSound(s, Action.BeginDetect(t, request));
      RunsLoaded(s1, t, order);
      var area, loaded := s.areas[request.areaId], Load(s.runs, s.plans, order);
      Overwritten(s.calls, t, DetectArea(request, area), DetectLookup(request, area, loaded));
      var (s2, r2) := Step(s1, Action.LoadRuns(t, order));
      if r2.Waiting? {
        StepSound(s1, Action.LoadRuns(t, order));
        KeyLookedUp(s2, t, found);
        Overwritten(s.calls, t, DetectLookup(request, area, loaded), DetectInsert(request, area, loaded));
        var (s3, r3) := Step(s2, Proceed(t, found, ""));
        StepSound(s2, Proceed(t, found, ""));
        if r3.Waiting? {
          GapInserted(s3, t, row, text);
          StepSound(s3, Proceed(t, row, text));
          OneGapPerKey(Step(s3, Proceed(t, row, text)).0, DetectLookup(request, area, loaded), row);
        } else {
          OneGapPerKey(s3, DetectLookup(request, area, loaded), found);
        }
      }
    }
  }

  lemma SoundIsUnique(s: Sys)
    requires Sound(s)
    ensures RunsUnique(s.runs)
  {
  }

  lemma ImportBegun(s: Sys, t: nat, facts: RunFacts, actor: Id)
    requires t !in s.calls
    ensures var (s', reply) := Step(s, Action.BeginImport(t, facts, actor));
            || (reply.Refused? && s' == s)
            || (reply == Waiting && s' == s.(calls := s.calls[t := RunLookup(facts, actor)]))
  {
    hide ValidLines;
  }

  lemma ChecksumLookedUp(s: Sys, t: nat, facts: RunFacts, actor: Id, row: Id)
    requires t in s.calls && s.calls[t] == RunLookup(facts, actor)
    ensures var (s', reply) := Step(s, Proceed(t, row, ""));
            || reply.Idle?
            || (&& reply == ExistingRun(row) && row in s.runs && s.runs[row].facts.checksum == facts.checksum
                && s' == s.(calls := s.calls - {t}))
            || (&& reply == Waiting && !HasChecksum(s.runs, facts.checksum)
                && s' == s.(calls := s.calls[t := Call.RunInsert(facts, actor)]))
  {
    hide HasChecksum;
  }

  lemma RunInserted(s: Sys, t: nat, facts: RunFacts, actor: Id, row: Id)
    requires t in s.calls && s.calls[t] == Call.RunInsert(facts, actor) && row !in s.runs
    ensures var (s', reply) := Step(s, Proceed(t, row, ""));
            || (reply.Refused? && s' == s.(calls := s.calls - {t}))
            || (&& reply == Committed(row)
                && s' == s.(runs := s.runs[row := Run(facts, Imported, 1, actor)], calls := s.calls - {t},
                            runHistory := s'.runHistory))
  {
    hide HasChecksum, HasCode;
  }

  /** What a review has to meet to be committed. */
  predicate ReviewFits(gaps: map<Id, Gap>, id: Id, expected: nat, target: string) {
    && id in gaps && ParseGapState(target).Some? && ParseGapState(target).value in GapTargets(gaps[id].state)
    && gaps[id].version == expected
  }

  function ReviewOf(gaps: map<Id, Gap>, id: Id, target: string, note: string): map<Id, Gap>
    requires id in gaps && ParseGapState(target).Some?
  {
    var g := gaps[id];
    gaps[id := g.(state := ParseGapState(target).value, explanation := g.explanation + NOTE_MARK + note,
                  version := g.version + 1)]
  }

  lemma ReviewBegun(s: Sys, t: nat, id: Id, expected: nat, target: string, note: string)
    requires t !in s.calls
    ensures var (s', reply) := Step(s, Action.BeginReview(t, id, expected, target, note));
            var fits := id in s.gaps && ParseGapState(target).Some?
                        && ParseGapState(target).value in GapTargets(s.gaps[id].state);
            || (reply.Refused? && !fits && s' == s)
            || (&& reply == Waiting && fits
                && var call := GapReview(id, expected, ParseGapState(target).value, note, s.gaps[id]);
                   s' == s.(calls := s.calls[t := call]))
  {
    hide GapTargets, ParseGapState;
  }

  /** What a transition of a run has to meet to be committed. */
  predicate MoveFits(runs: map<Id, Run>, id: Id, expected: nat, target: string, reason: string) {
    && id in runs && ParseRunState(target).Some? && ParseRunState(target).value in RunTargets(runs[id].state)
    && runs[id].version == expected
    && (ParseRunState(target) == Some(QualityChecked) ==> runs[id].facts.navigation != NavInvalid)
    && (ParseRunState(target) == Some(Rejected) ==> |reason| >= 4)
  }

  function MoveOf(runs: map<Id, Run>, id: Id, target: string): map<Id, Run>
    requires id in runs && ParseRunState(target).Some?
  {
    runs[id := runs[id].(state := ParseRunState(target).value, version := runs[id].version + 1)]
  }

  lemma RunMoveBegun(s: Sys, t: nat, id: Id, expected: nat, target: string, reason: string)
    requires t !in s.calls
    ensures var (s', reply) := Step(s, Action.BeginRunMove(t, id, expected, target, reason));
            || (reply.Refused? && s' == s)
            || (&& reply == Waiting && id in s.runs && ParseRunState(target).Some?
                && s' == s.(calls := s.calls[t := RunMove(id, expected, ParseRunState(target).value, s.runs[id])]))
  {
    hide RunTargets, ParseRunState;
  }

  // The gap is still the one that was read.
  lemma ReviewCommitted(s: Sys, t: nat)
    requires t in s.calls && s.calls[t].GapReview?
    requires s.calls[t].id in s.gaps && s.gaps[s.calls[t].id] == s.calls[t].gapBefore
    ensures var (s', reply) := Step(s, Proceed(t, 0, ""));
            var GapReview(id, expected, to, note, g) := s.calls[t];
            if g.version == expected then
              && reply == Committed(id)
              && s' == s.(gaps := s.gaps[id := g.(state := to, explanation := g.explanation + NOTE_MARK + note,
                                                  version := g.version + 1)],
                          calls := s.calls - {t}, gapHistory := s'.gapHistory)
            else reply.Refused? && s' == s.(calls := s.calls - {t})
  {
    hide Workflow.Reviewed;
  }

  lemma DetectBegun(s: Sys, t: nat, request: DetectRequest)
    requires t !in s.calls
    ensures var (s', reply) := Step(s, Action.BeginDetect(t, request));
            || (reply.Refused? && s' == s)
            || (&& reply == Waiting && request.areaId in s.areas
                && s' == s.(calls := s.calls[t := DetectArea(request, s.areas[request.areaId])]))
  {
    hide Projected;
  }

  lemma RunsLoaded(s: Sys, t: nat, order: seq<Id>)
    requires t in s.calls && s.calls[t].DetectArea? && IsSelection(s.runs, s.calls[t].request.runIds, order)
    ensures forall id :: id in order ==> id in s.runs
    ensures var (s', reply) := Step(s, Action.LoadRuns(t, order));
            var DetectArea(request, area) := s.calls[t];
            || (reply.Refused? && s' == s.(calls := s.calls - {t}))
            || (&& reply == Waiting
                && s' == s.(calls := s.calls[t := DetectLookup(request, area, Load(s.runs, s.plans, order))]))
  {
    SelectionStored(s.runs, s.calls[t].request.runIds, order);
    hide IsSelection, FirstError, Load, Members;
  }

  lemma KeyLookedUp(s: Sys, t: nat, row: Id)
    requires Sound(s) && t in s.calls && s.calls[t].DetectLookup?
    ensures var (s', reply) := Step(s, Proceed(t, row, ""));
            var DetectLookup(request, area, loaded) := s.calls[t];
            || reply.Idle?
            || (&& row in s.gaps && row in s.gapHistory && reply == ExistingGap(row, s.gaps[row])
                && s' == s.(calls := s.calls - {t}) && HasKeyOf(s.gaps[row], s.calls[t])
                && HitIsFaithful(s.calls[t], s.gaps[row], s.gapHistory[row]))
            || (reply == Waiting && s' == s.(calls := s.calls[t := DetectInsert(request, area, loaded)]))
  {
    hide HitIsFaithful, CacheFaithful, RunsUnique, CallsOk, RowsSafe, AreasUnique, GapsUnique, TrailsKept, Step,
         StepDetectLookup;
    var DetectLookup(request, area, loaded) := s.calls[t];
    StepProceeds(s, Proceed(t, row, ""));
    DetectLookupReplies(s, t, request, area, loaded, row);
    if Hits(s, t, row) {
      HitHasKey(s, t, row);
      HitNow(s, t, row);
    }
  }

  lemma DetectLookupReplies(s: Sys, t: nat, request: DetectRequest, area: Area, loaded: seq<Loaded>, row: Id)
    ensures var (s', reply) := StepDetectLookup(s, t, request, area, loaded, row);
            || reply.Idle?
            || (row in s.gaps && reply == ExistingGap(row, s.gaps[row]) && s' == s.(calls := s.calls - {t}))
            || (reply == Waiting && s' == s.(calls := s.calls[t := DetectInsert(request, area, loaded)]))
  {
    hide KeyOf, HasKey;
  }

  lemma GapInserted(s: Sys, t: nat, row: Id, text: string)
    requires Sound(s) && t in s.calls && s.calls[t].DetectInsert? && row !in s.gaps
    ensures var (s', reply) := Step(s, Proceed(t, row, text));
            var DetectInsert(request, area, loaded) := s.calls[t];
            var call := DetectLookup(request, area, loaded);
            || (reply.Refused? && s' == s.(calls := s.calls - {t}))
            || (&& reply == Committed(row) && row in s'.gaps && row in s'.gapHistory
                && s' == s.(gaps := s'.gaps, calls := s.calls - {t}, gapHistory := s'.gapHistory)
                && HasKeyOf(s'.gaps[row], call) && HitIsFaithful(call, s'.gaps[row], s'.gapHistory[row])
                && HoldsScore(s'.gaps[row].facts, FreshScore(call)))
  {
    hide Step, StepDetectInsert, HitIsFaithful, HoldsScore, FreshScore, CacheFaithful, TrailsKept, RowsSafe, KeysUnique,
         DetectionAdded;
    var DetectInsert(request, area, loaded) := s.calls[t];
    assert CallOk(s, s.calls[t]);
    DetectInsertStep(s, t, row, text);
    DetectInsertReplies(s, t, request, area, loaded, row, text);
    var s' := StepDetectInsert(s, t, request, area, loaded, row, text).0;
    if DetectionAdded(s, s', t, request, area, loaded, row, text) {
      SoundIsUnique(s);
      NewGapAnswers(s, s', t, request, area, loaded, row, text);
    }
  }

  lemma DetectInsertReplies(
      s: Sys, t: nat, request: DetectRequest, area: Area, loaded: seq<Loaded>, row: Id, text: string)
    requires row !in s.gaps
    ensures var (s', reply) := StepDetectInsert(s, t, request, area, loaded, row, text);
            || (reply.Refused? && Ended(s, s', t))
            || (reply == Committed(row) && DetectionAdded(s, s', t, request, area, loaded, row, text))
  {
    hide Score, KeyOf, HasKey, Uniqued, ValidPolygon, TracksOf, Resolution;
  }

  lemma NewGapAnswers(
      s: Sys, s': Sys, t: nat, request: DetectRequest, area: Area, loaded: seq<Loaded>, row: Id, text: string)
    requires RunsUnique(s.runs) && SelectionOk(s, request, loaded)
    requires DetectionAdded(s, s', t, request, area, loaded, row, text)
    ensures row in s'.gaps && row in s'.gapHistory
    ensures s' == s.(gaps := s'.gaps, calls := s.calls - {t}, gapHistory := s'.gapHistory)
    ensures var call := DetectLookup(request, area, loaded);
            && HasKeyOf(s'.gaps[row], call) && HitIsFaithful(call, s'.gaps[row], s'.gapHistory[row])
            && HoldsScore(s'.gaps[row].facts, FreshScore(call))
  {
    hide Score, KeyOf, HasKey, Uniqued, TracksOf, Resolution, RunsUnique, SelectionOk, HoldsScore, GapFaithful;
    SelectionSame(s, s', request, loaded);
    var score := Score(area.fields.boundary, TracksOf(loaded), Resolution(request, area));
    NewGapFaithful(s', request, area, loaded, score.value, s'.gaps[row], s'.gapHistory[row]);
    HitScore(s', DetectLookup(request, area, loaded), s'.gaps[row], s'.gapHistory[row]);
  }

  lemma DetectInsertStep(s: Sys, t: nat, row: Id, text: string)
    requires t in s.calls && s.calls[t].DetectInsert?
    ensures var DetectInsert(request, area, loaded) := s.calls[t];
            Step(s, Proceed(t, row, text)) == StepDetectInsert(s, t, request, area, loaded, row, text)
  {
    hide StepDetectInsert;
  }
}
