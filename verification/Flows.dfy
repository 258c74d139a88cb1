/** Two flows that the documentation describes otherwise: how gaps close, and when a run
    can still be rejected. */
module Flows {
  import opened StateGraphs
  import opened Records
  import opened Workflow
  import opened Requests
  import opened Writes
  import opened Growth
  import opened Safety
  import opened Trails
  import opened Walks

  // ---- how gaps close ----

  const CLOSED_AS_FALSE: seq<GapState> := [Detected, Reviewed, FalsePositive, Closed]

  const CLOSED_AFTER_RESURVEY: seq<GapState> := [Detected, Reviewed, Accepted, Resurveyed, Closed]

  /** The paths of the gap graph from detection to closing are these two. */
  lemma PathsToClosed(states: seq<GapState>)
    ensures IsGapPath(states) && states[0] == Detected && states[|states| - 1] == Closed
            <==> states == CLOSED_AS_FALSE || states == CLOSED_AFTER_RESURVEY
  {
    if IsGapPath(states) && states[0] == Detected && states[|states| - 1] == Closed {
      GapPathClimbs(states, 0, |states| - 1);
      assert |states| <= 5;
      assert |states| >= 2 ==> states[1] in GapTargets(states[0]);
      assert |states| >= 3 ==> states[2] in GapTargets(states[1]);
      assert |states| >= 4 ==> states[3] in GapTargets(states[2]);
      assert |states| >= 5 ==> states[4] in GapTargets(states[3]);
    }
  }

  /** The gap is closed, after it went through exactly these states. */
  ghost predicate ClosedAs(s: Sys, id: Id, states: seq<GapState>) {
    && id in s.gaps && id in s.gapHistory && s.gaps[id].state == Closed
    && GapStates(s.gapHistory[id].reviews) == states
  }

  /** In every reachable state a closed gap was a false positive, and then it was not
      resurveyed, or was accepted and resurveyed. */
  lemma ClosedGaps(s: Sys, actions: seq<Action>, id: Id)
    requires CallsOk(s) && TrailsKept(s)
    requires id in After(s, actions).gaps && After(s, actions).gaps[id].state == Closed
    ensures var now := After(s, actions);
            || (ClosedAs(now, id, CLOSED_AS_FALSE) && |now.gapHistory[id].reviews| == 3)
            || (ClosedAs(now, id, CLOSED_AFTER_RESURVEY) && |now.gapHistory[id].reviews| == 4)
  {
    hide After;
    TrailThroughout(s, actions);
    var now := After(s, actions);
    assert GapTrail(now.gaps[id], now.gapHistory[id]);
    PathsToClosed(GapStates(now.gapHistory[id].reviews));
  }

  const NOTE := "reviewed"

  /** Every path of the gap graph is taken by some interleaving, of requests in range. */
  lemma {:induction false} PathTaken(s: Sys, id: Id, path: seq<GapState>) returns (actions: seq<Action>)
    requires id in s.gaps && id in s.gapHistory && IsGapPath([s.gaps[id].state] + path)
    ensures id in After(s, actions).gaps && id in After(s, actions).gapHistory
    ensures After(s, actions).gaps[id].state == ([s.gaps[id].state] + path)[|path|]
    ensures GapStates(After(s, actions).gapHistory[id].reviews) == GapStates(s.gapHistory[id].reviews) + path
    ensures s.gaps[id].version > 0 ==> AllInRange(actions)
    decreases |path|
  {
    hide After, Step, IsGapPath;
    if path == [] {
      actions := [];
      NoSteps(s);
      assert GapStates(s.gapHistory[id].reviews) + [] == GapStates(s.gapHistory[id].reviews);
    } else {
      var whole := [s.gaps[id].state] + path;
      PathBegins(whole);
      var u := FreshId(s.calls.Keys);
      var first := ReviewOnce(s, u, id, path[0], NOTE);
      var s' := After(s, first);
      assert [s'.gaps[id].state] + path[1..] == whole[1..];
      var rest := PathTaken(s', id, path[1..]);
      AfterConcat(s, first, rest);
      InRangeConcat(first, rest);
      actions := first + rest;
      StatesGrow(s.gapHistory[id].reviews, Review(NOTE, path[0]));
      assert path == [path[0]] + path[1..];
    }
  }

  lemma PathBegins(states: seq<GapState>)
    requires IsGapPath(states) && |states| >= 2
    ensures states[1] in GapTargets(states[0]) && IsGapPath(states[1..])
  {
  }

  lemma StatesGrow(reviews: seq<Review>, review: Review)
    ensures GapStates(reviews + [review]) == GapStates(reviews) + [review.state]
  {
  }

  /** A detected gap can be closed in exactly two ways, one of which skips the resurvey; both
      are open to requests in range. */
  lemma WaysToClose(s: Sys, id: Id, states: seq<GapState>)
    requires CallsOk(s) && TrailsKept(s) && id in s.gaps && s.gaps[id].state == Detected
    ensures (exists actions :: ClosedAs(After(s, actions), id, states))
            <==> states == CLOSED_AS_FALSE || states == CLOSED_AFTER_RESURVEY
    ensures (exists actions :: AllInRange(actions) && ClosedAs(After(s, actions), id, states))
            <==> states == CLOSED_AS_FALSE || states == CLOSED_AFTER_RESURVEY
  {
    hide After;
    if actions :| ClosedAs(After(s, actions), id, states) {
      ClosedGaps(s, actions, id);
    }
    if states == CLOSED_AS_FALSE || states == CLOSED_AFTER_RESURVEY {
      NothingReviewed(s, id);
      PathsToClosed(states);
      assert [Detected] + states[1..] == states;
      var actions := PathTaken(s, id, states[1..]);
      assert AllInRange(actions) && ClosedAs(After(s, actions), id, states);
    }
  }

  lemma NothingReviewed(s: Sys, id: Id)
    requires TrailsKept(s) && id in s.gaps && s.gaps[id].state == Detected
    ensures id in s.gapHistory && GapStates(s.gapHistory[id].reviews) == [Detected] && s.gaps[id].version == 1
  {
    assert GapTrail(s.gaps[id], s.gapHistory[id]);
    GapPathClimbs(GapStates(s.gapHistory[id].reviews), 0, |s.gapHistory[id].reviews|);
  }

  // ---- when a run can be rejected ----

  ghost predicate IsRejected(s: Sys, id: Id) {
    id in s.runs && s.runs[id].state == Rejected
  }

  /** Some continuation rejects a run exactly when it was not processed: a processed run
      can be superseded, never rejected. */
  lemma RejectableExactly(s: Sys, id: Id)
    requires CallsOk(s) && id in s.runs
    ensures (exists actions :: IsRejected(After(s, actions), id)) <==> s.runs[id].state !in {Processed, Superseded}
    ensures s.runs[id].version > 0 ==>
              ((exists actions :: AllInRange(actions) && IsRejected(After(s, actions), id))
               <==> s.runs[id].state !in {Processed, Superseded})
  {
    hide After;
    if actions :| IsRejected(After(s, actions), id) {
      RunKeepsRow(s, actions, id);
    }
    if s.runs[id].state == Rejected {
      NoSteps(s);
      assert AllInRange([]) && IsRejected(After(s, []), id);
    } else if s.runs[id].state !in {Processed, Superseded} {
      assert Rejected in RunTargets(s.runs[id].state);
      var u := FreshId(s.calls.Keys);
      var actions := MoveOnce(s, u, id, Rejected);
      assert IsRejected(After(s, actions), id);
      assert s.runs[id].version > 0 ==> AllInRange(actions) && IsRejected(After(s, actions), id);
    }
  }

  lemma NoSteps(s: Sys)
    ensures After(s, []) == s
  {
  }

  lemma RunKeepsRow(s: Sys, actions: seq<Action>, id: Id)
    requires CallsOk(s) && id in s.runs
    ensures id in After(s, actions).runs && RunLater(s.runs[id], After(s, actions).runs[id])
  {
    RunKeeps(s, actions, 0);
    NoSteps(s);
    assert actions[..0] == [];
  }

  lemma {:induction false} ProcessedStays(states: seq<RunState>, i: nat, j: nat)
    requires IsRunPath(states) && i <= j < |states| && states[i] in {Processed, Superseded}
    ensures states[j] in {Processed, Superseded}
  {
    if i < j {
      ProcessedStays(states, i, j - 1);
      assert states[j] in RunTargets(states[j - 1]);
    }
  }

  /** In every reachable state no rejected run was ever processed. */
  lemma RejectedRunsWereNotProcessed(s: Sys, actions: seq<Action>, id: Id)
    requires CallsOk(s) && TrailsKept(s) && IsRejected(After(s, actions), id)
    ensures id in After(s, actions).runHistory
    ensures forall k :: 0 <= k < |After(s, actions).runHistory[id].states| ==>
              After(s, actions).runHistory[id].states[k] !in {Processed, Superseded}
  {
    hide After;
    TrailThroughout(s, actions);
    var now := After(s, actions);
    assert RunTrail(now.runs[id], now.runHistory[id]);
    PathToRejected(now.runHistory[id].states);
  }

  lemma PathToRejected(states: seq<RunState>)
    requires IsRunPath(states) && states[|states| - 1] == Rejected
    ensures forall k :: 0 <= k < |states| ==> states[k] !in {Processed, Superseded}
  {
    forall k | 0 <= k < |states|
      ensures states[k] !in {Processed, Superseded}
    {
      if states[k] in {Processed, Superseded} {
        ProcessedStays(states, k, |states| - 1);
      }
    }
  }

  // ---- the paths of a run ----

  const TO_PROCESSED: seq<RunState> := [Imported, QualityChecked, Processing, Processed]

  const TO_SUPERSEDED: seq<RunState> := TO_PROCESSED + [Superseded]

  /** A run is rejected as imported, after its quality check, or out of processing. */
  predicate ToRejected(states: seq<RunState>) {
    || states == [Imported, Rejected]
    || states == [Imported, QualityChecked, Rejected]
    || states == [Imported, QualityChecked, Processing, Rejected]
  }

  /** The paths of the run graph from an import on: the way to processed, its beginnings, and
      what is left of it by superseding or rejecting. */
  lemma PathsOfRuns(states: seq<RunState>)
    ensures IsRunPath(states) && states[0] == Imported <==>
            || (states != [] && states <= TO_SUPERSEDED)
            || ToRejected(states)
  {
    if IsRunPath(states) && states[0] == Imported {
      RunPathClimbs(states, 0, |states| - 1);
      assert |states| <= 5;
      assert |states| >= 2 ==> states[1] in RunTargets(states[0]);
      assert |states| >= 3 ==> states[2] in RunTargets(states[1]);
      assert |states| >= 4 ==> states[3] in RunTargets(states[2]);
      assert |states| >= 5 ==> states[4] in RunTargets(states[3]);
    }
  }

  /** The history of a run that was imported, by the state it is in. */
  predicate RunHistoryFits(state: RunState, states: seq<RunState>) {
    match state
    case Imported => states == TO_PROCESSED[..1]
    case QualityChecked => states == TO_PROCESSED[..2]
    case Processing => states == TO_PROCESSED[..3]
    case Processed => states == TO_PROCESSED
    case Superseded => states == TO_SUPERSEDED
    case Rejected => ToRejected(states)
  }

  /** In every reachable state a run that began as imported has come to its state by the one
      way there is; a processed run was quality checked and processing before, and a rejected
      one came by one of three ways. */
  lemma ImportedRuns(s: Sys, actions: seq<Action>, id: Id)
    requires CallsOk(s) && TrailsKept(s) && id in After(s, actions).runs
    ensures id in After(s, actions).runHistory && After(s, actions).runHistory[id].states != []
    ensures After(s, actions).runHistory[id].states[0] == Imported ==>
              RunHistoryFits(After(s, actions).runs[id].state, After(s, actions).runHistory[id].states)
  {
    hide After;
    TrailThroughout(s, actions);
    var now := After(s, actions);
    assert RunTrail(now.runs[id], now.runHistory[id]);
    if now.runHistory[id].states[0] == Imported {
      FittingPath(now.runHistory[id].states);
    }
  }

  lemma FittingPath(states: seq<RunState>)
    requires IsRunPath(states) && states[0] == Imported
    ensures RunHistoryFits(states[|states| - 1], states)
  {
    PathsOfRuns(states);
    if states <= TO_SUPERSEDED {
      assert states == TO_SUPERSEDED[..|states|];
    }
  }

  /** Every path of the run graph from the state of a run is taken by some interleaving of
      requests in range, unless it quality checks a run with invalid navigation. */
  lemma {:induction false} RunPathTaken(s: Sys, id: Id, path: seq<RunState>) returns (actions: seq<Action>)
    requires id in s.runs && id in s.runHistory && IsRunPath(path) && path[0] == s.runs[id].state
    requires QualityChecked in path[1..] ==> s.runs[id].facts.navigation != NavInvalid
    ensures id in After(s, actions).runs && id in After(s, actions).runHistory
    ensures After(s, actions).runs[id].state == path[|path| - 1]
    ensures After(s, actions).runHistory[id].states == s.runHistory[id].states + path[1..]
    ensures s.runs[id].version > 0 ==> AllInRange(actions)
    decreases |path|
  {
    hide After, Step, RunTargets, AllInRange;
    if |path| == 1 {
      actions := [];
      NoSteps(s);
      NothingOutOfRange();
    } else {
      var rest := path[1..];
      RunPathBegins(path);
      hide IsRunPath;
      assert rest[0] in rest && forall x :: x in rest[1..] ==> x in rest;
      var first := OneMove(s, id, rest[0]);
      var more := RunPathTaken(After(s, first), id, rest);
      AfterConcat(s, first, more);
      InRangeConcat(first, more);
      actions := first + more;
      assert rest == [rest[0]] + rest[1..];
    }
  }

  lemma NothingOutOfRange()
    ensures AllInRange([])
  {
  }

  lemma OneMove(s: Sys, id: Id, to: RunState) returns (actions: seq<Action>)
    requires id in s.runs && id in s.runHistory && to in RunTargets(s.runs[id].state)
    requires to == QualityChecked ==> s.runs[id].facts.navigation != NavInvalid
    ensures var s' := After(s, actions);
            && id in s'.runs && s'.runs[id] == s.runs[id].(state := to, version := s.runs[id].version + 1)
            && id in s'.runHistory && s'.runHistory[id].states == s.runHistory[id].states + [to]
    ensures s.runs[id].version > 0 ==> AllInRange(actions)
  {
    hide After, Moved, RunTargets, AllInRange;
    var u := FreshId(s.calls.Keys);
    actions := MoveOnce(s, u, id, to);
    MovedAppends(s.runHistory, id, to);
  }

  lemma MovedAppends(history: map<Id, RunHistory>, id: Id, to: RunState)
    requires id in history
    ensures id in Moved(history, id, to) && Moved(history, id, to)[id].states == history[id].states + [to]
  {
  }

  lemma RunPathBegins(states: seq<RunState>)
    requires IsRunPath(states) && |states| >= 2
    ensures states[1] in RunTargets(states[0]) && IsRunPath(states[1..])
  {
  }

  /** The run went through exactly these states. */
  ghost predicate WentThrough(s: Sys, id: Id, states: seq<RunState>) {
    id in s.runs && id in s.runHistory && s.runHistory[id].states == states
  }

  /** A freshly imported run of valid navigation can have exactly these histories. */
  lemma WaysOfRuns(s: Sys, id: Id, states: seq<RunState>)
    requires CallsOk(s) && TrailsKept(s) && id in s.runs && id in s.runHistory
    requires s.runHistory[id].states == [Imported] && s.runs[id].facts.navigation != NavInvalid
    ensures (exists actions :: WentThrough(After(s, actions), id, states))
            <==> (states != [] && states <= TO_SUPERSEDED) || ToRejected(states)
    ensures s.runs[id].version > 0 ==>
              ((exists actions :: AllInRange(actions) && WentThrough(After(s, actions), id, states))
               <==> (states != [] && states <= TO_SUPERSEDED) || ToRejected(states))
  {
    hide After;
    if actions :| WentThrough(After(s, actions), id, states) {
      TrailThroughout(s, actions);
      var now := After(s, actions);
      assert RunTrail(now.runs[id], now.runHistory[id]);
      HistoryBegins(s, actions, id);
      PathsOfRuns(states);
    }
    if (states != [] && states <= TO_SUPERSEDED) || ToRejected(states) {
      PathsOfRuns(states);
      assert RunTrail(s.runs[id], s.runHistory[id]);
      var actions := RunPathTaken(s, id, states);
      assert states == [Imported] + states[1..];
      assert WentThrough(After(s, actions), id, states);
      assert s.runs[id].version > 0 ==> AllInRange(actions) && WentThrough(After(s, actions), id, states);
    }
  }

  // ---- histories only grow ----

  lemma {:induction false} HistoryBegins(s: Sys, actions: seq<Action>, id: Id)
    requires CallsOk(s) && TrailsKept(s) && id in s.runs
    ensures id in After(s, actions).runHistory
    ensures s.runHistory[id].states <= After(s, actions).runHistory[id].states
  {
    if actions != [] {
      var n := |actions| - 1;
      HistoryBegins(s, actions[..n], id);
      RunKeeps(s, actions[..n], 0);
      TrailThroughout(s, actions[..n]);
      StepExtendsHistory(After(s, actions[..n]), actions[n], id);
    }
  }

  lemma StepExtendsHistory(s: Sys, a: Action, id: Id)
    requires CallsOk(s) && id in s.runHistory && s.runHistory.Keys == s.runs.Keys
    ensures id in Step(s, a).0.runHistory
    ensures s.runHistory[id].states <= Step(s, a).0.runHistory[id].states
  {
    hide Step, StepProceed, CallOk;
    if Proceeds(s, a) {
      StepProceeds(s, a);
      ProceedExtendsHistory(s, a.t, s.calls[a.t], a.row, a.text, id);
    } else {
      StartsWrite(s, a);
    }
  }

  lemma ProceedExtendsHistory(s: Sys, t: nat, call: Call, row: Id, text: string, id: Id)
    requires id in s.runHistory && s.runHistory.Keys == s.runs.Keys
    ensures var s' := StepProceed(s, t, call, row, text).0;
            id in s'.runHistory && s.runHistory[id].states <= s'.runHistory[id].states
  {
    hide StepRunMove, StepRunInsert, StepGapReview, StepDetectInsert;
    match call
    case RunMove(id', expected, to, before) => RunMoveExtends(s, t, id', expected, to, before, id);
    case RunInsert(facts, actor) => RunInsertExtends(s, t, facts, actor, row, id);
    case GapReview(id', expected, target, note, before) =>
      GapReviewLeavesRuns(s, t, id', expected, target, note, before);
    case DetectInsert(request, area, loaded) => DetectInsertLeavesRuns(s, t, request, area, loaded, row, text);
    case _ => OthersExtendHistory(s, t, call, row, text, id);
  }

  lemma RunMoveExtends(s: Sys, t: nat, id': Id, expected: nat, to: RunState, before: Run, id: Id)
    requires id in s.runHistory
    ensures var s' := StepRunMove(s, t, id', expected, to, before).0;
            id in s'.runHistory && s.runHistory[id].states <= s'.runHistory[id].states
  {
    hide StepRunMove;
    RunMoveWrites(s, t, id', expected, to, before);
  }

  lemma RunInsertExtends(s: Sys, t: nat, facts: RunFacts, actor: Id, row: Id, id: Id)
    requires id in s.runHistory && s.runHistory.Keys == s.runs.Keys
    ensures var s' := StepRunInsert(s, t, facts, actor, row).0;
            id in s'.runHistory && s.runHistory[id].states <= s'.runHistory[id].states
  {
    hide StepRunInsert, HasChecksum, HasCode;
    RunInsertWrites(s, t, facts, actor, row);
  }

  lemma GapReviewLeavesRuns(
      s: Sys, t: nat, id: Id, expected: nat, target: GapState, note: string, before: Gap)
    ensures StepGapReview(s, t, id, expected, target, note, before).0.runHistory == s.runHistory
  {
    hide StepGapReview, Workflow.Reviewed;
    GapReviewWrites(s, t, id, expected, target, note, before);
  }

  lemma DetectInsertLeavesRuns(
      s: Sys, t: nat, request: DetectRequest, area: Area, loaded: seq<Loaded>, row: Id, text: string)
    ensures StepDetectInsert(s, t, request, area, loaded, row, text).0.runHistory == s.runHistory
  {
    hide StepDetectInsert, Coverage.Score, KeyOf, Uniqued, TracksOf, Workflow.Resolution, FactsOf, HasKey;
    DetectInsertWrites(s, t, request, area, loaded, row, text);
  }

  lemma OthersExtendHistory(s: Sys, t: nat, call: Call, row: Id, text: string, id: Id)
    requires !WritesFacts(call) && !call.GapReview?
    ensures StepProceed(s, t, call, row, text).0.runHistory == s.runHistory
  {
    hide StepProceed;
    OthersWrite(s, t, call, row, text);
  }
}
