/** All invariants together: what every state of the planner satisfies, whatever the
    clients do. */
module Soundness {
  import opened Workflow
  import opened Growth
  import opened Safety
  import opened Trails
  import opened Cache
  import opened Inputs

  /** Truthful requests, safe rows, unique keys, kept trails, a faithful cache and checked input. */
  ghost predicate Sound(s: Sys) {
    Safe(s) && TrailsKept(s) && CacheFaithful(s) && InputsChecked(s)
  }

  lemma StepSound(s: Sys, a: Action)
    requires Sound(s)
    ensures Sound(Step(s, a).0)
  {
    hide Step, CallsOk, RowsSafe, KeysUnique, TrailsKept, CacheFaithful, InputsChecked;
    StepKeeps(s, a);
    StepSafe(s, a);
    StepUnique(s, a);
    StepTrails(s, a);
    StepFaithful(s, a);
    StepChecked(s, a);
  }

  lemma {:induction false} SoundThroughout(s: Sys, actions: seq<Action>)
    requires Sound(s)
    ensures Sound(After(s, actions))
  {
    hide Sound, Step;
    if actions != [] {
      var n := |actions| - 1;
      SoundThroughout(s, actions[..n]);
      StepSound(After(s, actions[..n]), actions[n]);
    }
  }
}
