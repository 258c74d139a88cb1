/** Histories over every interleaving: reviews are append-only, histories are bounded
    paths, and requests that expect one version commit at most once. */
module Trails {
  import opened Wrappers
  import opened StateGraphs
  import opened Records
  import opened Workflow
  import opened Writes
  import opened Growth
  import opened Safety

  /** A detection text followed by the notes of the reviews, in their order. */
  function Narrative(text: string, reviews: seq<Review>): string {
    if reviews == [] then text
    else Narrative(text, reviews[..|reviews| - 1]) + NOTE_MARK + reviews[|reviews| - 1].note
  }

  function GapStates(reviews: seq<Review>): (states: seq<GapState>)
    ensures |states| == |reviews| + 1
  {
    [Detected] + seq(|reviews|, (k: nat) requires k < |reviews| => reviews[k].state)
  }

  /** A gap is exactly what its detection and its committed reviews make of it. */
  ghost predicate GapTrail(g: Gap, h: GapHistory) {
    && g.explanation == Narrative(h.text, h.reviews)
    && g.version == 1 + |h.reviews|
    && IsGapPath(GapStates(h.reviews))
    && g.state == GapStates(h.reviews)[|h.reviews|]
  }

  ghost predicate RunTrail(r: Run, h: RunHistory) {
    && IsRunPath(h.states)
    && r.state == h.states[|h.states| - 1]
    && r.version == h.firstVersion + |h.states| - 1
  }

  ghost predicate TrailsKept(s: Sys) {
    && s.gapHistory.Keys == s.gaps.Keys
    && (forall id :: id in s.gaps ==> GapTrail(s.gaps[id], s.gapHistory[id]))
    && s.runHistory.Keys == s.runs.Keys
    && (forall id :: id in s.runs ==> RunTrail(s.runs[id], s.runHistory[id]))
  }

  // ---- one commit ----

  /** A committed review appends its note to the narrative, its state to the path. */
  lemma ReviewExtendsTrail(g: Gap, h: GapHistory, note: string, to: GapState)
    requires GapTrail(g, h) && to in GapTargets(g.state)
    ensures GapTrail(Gap(g.facts, to, g.explanation + NOTE_MARK + note, g.version + 1),
                     h.(reviews := h.reviews + [Review(note, to)]))
  {
    var more := h.reviews + [Review(note, to)];
    assert more[..|h.reviews|] == h.reviews;
    assert GapStates(more) == GapStates(h.reviews) + [to];
  }

  lemma MoveExtendsTrail(r: Run, h: RunHistory, to: RunState)
    requires RunTrail(r, h) && to in RunTargets(r.state)
    ensures RunTrail(r.(state := to, version := r.version + 1), h.(states := h.states + [to]))
  {
  }

  lemma ImportStartsTrail(facts: RunFacts, actor: Id)
    ensures RunTrail(Run(facts, Imported, 1, actor), RunHistory(1, [Imported]))
  {
  }

  lemma DetectionStartsTrail(facts: GapFacts, h: GapHistory)
    requires h.reviews == []
    ensures GapTrail(Gap(facts, Detected, h.text, 1), h)
  {
  }

  // ---- steps ----

  lemma RunMoveTrails(s: Sys, t: nat, id: Id, expected: nat, to: RunState, before: Run)
    requires TrailsKept(s) && CallOk(s, RunMove(id, expected, to, before))
    ensures TrailsKept(StepRunMove(s, t, id, expected, to, before).0)
  {
    hide RunTrail, GapTrail, StepRunMove;
    var s' := StepRunMove(s, t, id, expected, to, before).0;
    RunMoveWrites(s, t, id, expected, to, before);
    if !Ended(s, s', t) {
      MoveExtendsTrail(s.runs[id], s.runHistory[id], to);
    }
  }

  lemma RunInsertTrails(s: Sys, t: nat, facts: RunFacts, actor: Id, row: Id)
    requires TrailsKept(s)
    ensures TrailsKept(StepRunInsert(s, t, facts, actor, row).0)
  {
    hide RunTrail, GapTrail, StepRunInsert, HasChecksum, HasCode;
    RunInsertWrites(s, t, facts, actor, row);
    ImportStartsTrail(facts, actor);
  }

  lemma GapReviewTrails(s: Sys, t: nat, id: Id, expected: nat, target: GapState, note: string, before: Gap)
    requires TrailsKept(s) && CallOk(s, GapReview(id, expected, target, note, before))
    ensures TrailsKept(StepGapReview(s, t, id, expected, target, note, before).0)
  {
    hide RunTrail, GapTrail, StepGapReview;
    var s' := StepGapReview(s, t, id, expected, target, note, before).0;
    GapReviewWrites(s, t, id, expected, target, note, before);
    if !Ended(s, s', t) {
      SameStateSameGap(before, s.gaps[id]);
      ReviewExtendsTrail(s.gaps[id], s.gapHistory[id], note, target);
    }
  }

  lemma DetectInsertTrails(
      s: Sys, t: nat, request: DetectRequest, area: Area, loaded: seq<Loaded>, row: Id, text: string)
    requires TrailsKept(s)
    ensures TrailsKept(StepDetectInsert(s, t, request, area, loaded, row, text).0)
  {
    hide RunTrail, GapTrail, StepDetectInsert, Coverage.Score, KeyOf, Uniqued, Resolution, TracksOf, HasKey, FactsOf;
    var s' := StepDetectInsert(s, t, request, area, loaded, row, text).0;
    DetectInsertWrites(s, t, request, area, loaded, row, text);
    if s' != s && !Ended(s, s', t) {
      DetectionStartsTrail(s'.gaps[row].facts, s'.gapHistory[row]);
    }
  }

  lemma ProceedTrails(s: Sys, t: nat, call: Call, row: Id, text: string)
    requires TrailsKept(s) && CallOk(s, call)
    ensures TrailsKept(StepProceed(s, t, call, row, text).0)
  {
    hide StepRunMove, StepRunInsert, StepGapReview, StepDetectInsert, TrailsKept, CallOk;
    match call
    case RunMove(id, expected, to, before) => RunMoveTrails(s, t, id, expected, to, before);
    case RunInsert(facts, actor) => RunInsertTrails(s, t, facts, actor, row);
    case GapReview(id, expected, target, note, before) => GapReviewTrails(s, t, id, expected, target, note, before);
    case DetectInsert(request, area, loaded) => DetectInsertTrails(s, t, request, area, loaded, row, text);
    case _ => OtherTrails(s, t, call, row, text);
  }

  lemma OtherTrails(s: Sys, t: nat, call: Call, row: Id, text: string)
    requires TrailsKept(s) && !WritesFacts(call) && !call.GapReview?
    ensures TrailsKept(StepProceed(s, t, call, row, text).0)
  {
    hide StepProceed, RunTrail, GapTrail;
    OthersWrite(s, t, call, row, text);
  }

  /** Every step keeps the trails. */
  lemma StepTrails(s: Sys, a: Action)
    requires CallsOk(s) && TrailsKept(s)
    ensures TrailsKept(Step(s, a).0)
  {
    hide Step, StepProceed, RunTrail, GapTrail, CallOk;
    if Proceeds(s, a) {
      assert CallOk(s, s.calls[a.t]);
      StepProceeds(s, a);
      ProceedTrails(s, a.t, s.calls[a.t], a.row, a.text);
    } else {
      StartsWrite(s, a);
    }
  }

  // ---- over runs ----

  /** Append-only review trail: whatever the interleaving and whatever versions the
      requests expect, a gap's explanation is its detection text and then the notes of
      its committed reviews in commit order; its version counts them. */
  lemma {:induction false} TrailThroughout(s: Sys, actions: seq<Action>)
    requires CallsOk(s) && TrailsKept(s)
    ensures TrailsKept(After(s, actions))
  {
    if actions != [] {
      var n := |actions| - 1;
      RunKeeps(s, actions[..n], 0);
      TrailThroughout(s, actions[..n]);
      StepTrails(After(s, actions[..n]), actions[n]);
    }
  }

  /** Nothing that was once part of a gap is lost: at every later state its measurements
      are the same and its explanation still starts with what it was. */
  lemma NothingIsLost(s: Sys, actions: seq<Action>, i: nat, gap: Id)
    requires CallsOk(s) && i <= |actions| && gap in After(s, actions[..i]).gaps
    ensures gap in After(s, actions).gaps
    ensures var then_, now := After(s, actions[..i]).gaps[gap], After(s, actions).gaps[gap];
            now.facts == then_.facts && then_.explanation <= now.explanation && then_.version <= now.version
  {
    RunKeeps(s, actions, i);
    assert GapLater(After(s, actions[..i]).gaps[gap], After(s, actions).gaps[gap]);
  }

  /** At most four commits per run and per gap, and a run first seen further along the
      graph has fewer left. */
  lemma HistoriesAreBounded(s: Sys, actions: seq<Action>)
    requires CallsOk(s) && TrailsKept(s)
    ensures var now := After(s, actions);
            && now.gapHistory.Keys == now.gaps.Keys && now.runHistory.Keys == now.runs.Keys
            && (forall id :: id in now.gaps ==> |now.gapHistory[id].reviews| <= MAX_RANK)
            && (forall id :: id in now.runs ==>
                  now.runHistory[id].states != []
                  && |now.runHistory[id].states| - 1 <= MAX_RANK - RunRank(now.runHistory[id].states[0]))
  {
    TrailThroughout(s, actions);
    var now := After(s, actions);
    forall id | id in now.gaps
      ensures |now.gapHistory[id].reviews| <= MAX_RANK
    {
      assert GapTrail(now.gaps[id], now.gapHistory[id]);
      GapPathClimbs(GapStates(now.gapHistory[id].reviews), 0, |now.gapHistory[id].reviews|);
    }
    forall id | id in now.runs
      ensures now.runHistory[id].states != []
      ensures |now.runHistory[id].states| - 1 <= MAX_RANK - RunRank(now.runHistory[id].states[0])
    {
      assert RunTrail(now.runs[id], now.runHistory[id]);
      RunPathClimbs(now.runHistory[id].states, 0, |now.runHistory[id].states| - 1);
    }
  }

  // ---- at most one winner ----

  datatype Table = OnArea | OnPlan | OnRun | OnGap

  /** The table, row and expected version of a conditional update. */
  function UpdateTarget(call: Call): Option<(Table, Id, nat)> {
    match call
    case AreaEdit(id, expected, _, _) => Some((OnArea, id, expected))
    case PlanEdit(id, expected, _, _) => Some((OnPlan, id, expected))
    case PlanLock(id, expected, _) => Some((OnPlan, id, expected))
    case RunMove(id, expected, _, _) => Some((OnRun, id, expected))
    case GapReview(id, expected, _, _, _) => Some((OnGap, id, expected))
    case _ => None
  }

  /** The version the table holds for the row, if it holds the row. */
  function VersionAt(s: Sys, table: Table, id: Id): Option<nat> {
    match table
    case OnArea => if id in s.areas then Some(s.areas[id].version) else None
    case OnPlan => if id in s.plans then Some(s.plans[id].version) else None
    case OnRun => if id in s.runs then Some(s.runs[id].version) else None
    case OnGap => if id in s.gaps then Some(s.gaps[id].version) else None
  }

  /** A conditional update commits only on the expected version and leaves the next one. */
  lemma CommitMovesOn(s: Sys, t: nat, call: Call, row: Id, text: string)
    requires UpdateTarget(call).Some?
    ensures var (table, id, expected) := UpdateTarget(call).value;
            var (s', reply) := StepProceed(s, t, call, row, text);
            && (reply == Committed(id) || reply == Refused(VersionConflict))
            && (reply == Committed(id) ==>
                  VersionAt(s, table, id) == Some(expected) && VersionAt(s', table, id) == Some(expected + 1))
  {
  }

  lemma VersionsGrow(s: Sys, s': Sys, table: Table, id: Id)
    requires Grows(s, s') && VersionAt(s, table, id).Some?
    ensures VersionAt(s', table, id).Some? && VersionAt(s', table, id).value >= VersionAt(s, table, id).value
  {
    match table
    case OnArea => assert AreaLater(s.areas[id], s'.areas[id]);
    case OnPlan => assert PlanLater(s.plans[id], s'.plans[id]);
    case OnRun => assert RunLater(s.runs[id], s'.runs[id]);
    case OnGap => assert GapLater(s.gaps[id], s'.gaps[id]);
  }

  ghost predicate IsUpdate(s: Sys, a: Action, table: Table, id: Id, expected: nat) {
    a.Proceed? && a.t in s.calls && UpdateTarget(s.calls[a.t]) == Some((table, id, expected))
  }

  /** Of all the requests that expect one version of one row, at most one commits: after
      a commit, every later update that expects the same version is refused. */
  lemma AtMostOneCommit(s: Sys, actions: seq<Action>, i: nat, j: nat, table: Table, id: Id, expected: nat)
    requires CallsOk(s) && i < j < |actions|
    requires IsUpdate(After(s, actions[..i]), actions[i], table, id, expected)
    requires IsUpdate(After(s, actions[..j]), actions[j], table, id, expected)
    requires Step(After(s, actions[..i]), actions[i]).1 == Committed(id)
    ensures Step(After(s, actions[..j]), actions[j]).1 == Refused(VersionConflict)
  {
    hide StepProceed, Grows, CallsOk, VersionAt, UpdateTarget;
    var first, second := After(s, actions[..i]), After(s, actions[..j]);
    assert actions[..j][..i + 1] == actions[..i + 1];
    assert actions[..i + 1][..i] == actions[..i];
    RunKeeps(s, actions[..j], i + 1);
    StepProceeds(first, actions[i]);
    StepProceeds(second, actions[j]);
    hide Step;
    CommitMovesOn(first, actions[i].t, first.calls[actions[i].t], actions[i].row, actions[i].text);
    VersionsGrow(After(s, actions[..i + 1]), second, table, id);
    CommitMovesOn(second, actions[j].t, second.calls[actions[j].t], actions[j].row, actions[j].text);
  }
}
