/** The transition tables of sonar runs and coverage gaps. Both graphs are acyclic, which
    is what makes a state match as good as a version match. */
module StateGraphs {
  import opened Wrappers

  datatype RunState = Imported | QualityChecked | Processing | Processed | Rejected | Superseded

  datatype GapState = Detected | Reviewed | Accepted | FalsePositive | Resurveyed | Closed

  /** `runTransitions`. */
  function RunTargets(s: RunState): set<RunState> {
    match s
    case Imported => {QualityChecked, Rejected}
    case QualityChecked => {Processing, Rejected}
    case Processing => {Processed, Rejected}
    case Processed => {Superseded}
    case Rejected => {}
    case Superseded => {}
  }

  /** `gapTransitions`. */
  function GapTargets(s: GapState): set<GapState> {
    match s
    case Detected => {Reviewed}
    case Reviewed => {Accepted, FalsePositive}
    case Accepted => {Resurveyed}
    case FalsePositive => {Closed}
    case Resurveyed => {Closed}
    case Closed => {}
  }

  function RunName(s: RunState): string {
    match s
    case Imported => "imported"
    case QualityChecked => "quality_checked"
    case Processing => "processing"
    case Processed => "processed"
    case Rejected => "rejected"
    case Superseded => "superseded"
  }

  function GapName(s: GapState): string {
    match s
    case Detected => "detected"
    case Reviewed => "reviewed"
    case Accepted => "accepted"
    case FalsePositive => "false_positive"
    case Resurveyed => "resurveyed"
    case Closed => "closed"
  }

  /** `ParseRunState`: the state of that name, if there is one. */
  function ParseRunState(name: string): (s: Option<RunState>)
    ensures s.Some? ==> RunName(s.value) == name
    ensures s.None? ==> forall t :: RunName(t) != name
  {
    if name == "imported" then Some(Imported)
    else if name == "quality_checked" then Some(QualityChecked)
    else if name == "processing" then Some(Processing)
    else if name == "processed" then Some(Processed)
    else if name == "rejected" then Some(Rejected)
    else if name == "superseded" then Some(Superseded)
    else None
  }

  /** `ParseGapState`. */
  function ParseGapState(name: string): (s: Option<GapState>)
    ensures s.Some? ==> GapName(s.value) == name
    ensures s.None? ==> forall t :: GapName(t) != name
  {
    if name == "detected" then Some(Detected)
    else if name == "reviewed" then Some(Reviewed)
    else if name == "accepted" then Some(Accepted)
    else if name == "false_positive" then Some(FalsePositive)
    else if name == "resurveyed" then Some(Resurveyed)
    else if name == "closed" then Some(Closed)
    else None
  }

  /** The names as requests spell them. */
  lemma NamesOfStates()
    ensures ParseRunState("imported") == Some(Imported) && ParseRunState("quality_checked") == Some(QualityChecked)
    ensures ParseRunState("processing") == Some(Processing) && ParseRunState("processed") == Some(Processed)
    ensures ParseRunState("rejected") == Some(Rejected) && ParseRunState("superseded") == Some(Superseded)
    ensures ParseGapState("detected") == Some(Detected) && ParseGapState("reviewed") == Some(Reviewed)
    ensures ParseGapState("accepted") == Some(Accepted) && ParseGapState("false_positive") == Some(FalsePositive)
    ensures ParseGapState("resurveyed") == Some(Resurveyed) && ParseGapState("closed") == Some(Closed)
  {
  }

  const MAX_RANK := 4

  function RunRank(s: RunState): (r: nat)
    ensures r <= MAX_RANK
  {
    match s
    case Imported => 0
    case QualityChecked => 1
    case Processing => 2
    case Processed => 3
    case Rejected => 4
    case Superseded => 4
  }

  function GapRank(s: GapState): (r: nat)
    ensures r <= MAX_RANK
  {
    match s
    case Detected => 0
    case Reviewed => 1
    case Accepted => 2
    case FalsePositive => 2
    case Resurveyed => 3
    case Closed => 4
  }

  ghost predicate IsRunPath(states: seq<RunState>) {
    states != [] && forall i :: 1 <= i < |states| ==> states[i] in RunTargets(states[i - 1])
  }

  ghost predicate IsGapPath(states: seq<GapState>) {
    states != [] && forall i :: 1 <= i < |states| ==> states[i] in GapTargets(states[i - 1])
  }

  /** A path climbs at least one rank a step, so it never meets a state twice. */
  lemma {:induction false} RunPathClimbs(states: seq<RunState>, i: nat, j: nat)
    requires IsRunPath(states) && i <= j < |states|
    ensures RunRank(states[j]) >= RunRank(states[i]) + (j - i)
  {
    if i < j {
      RunPathClimbs(states, i, j - 1);
      assert states[j] in RunTargets(states[j - 1]);
    }
  }

  lemma {:induction false} GapPathClimbs(states: seq<GapState>, i: nat, j: nat)
    requires IsGapPath(states) && i <= j < |states|
    ensures GapRank(states[j]) >= GapRank(states[i]) + (j - i)
  {
    if i < j {
      GapPathClimbs(states, i, j - 1);
      assert states[j] in GapTargets(states[j - 1]);
    }
  }
}
