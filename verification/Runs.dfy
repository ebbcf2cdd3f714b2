/** What every step keeps, every run keeps. */
module Runs {

  /** A run of `takes`: each state follows from the one before by its step. */
  ghost predicate IsRun<S(!new), T>(states: seq<S>, steps: seq<T>, takes: (S, T, S) -> bool) {
    |states| == |steps| + 1 && forall i :: 0 <= i < |steps| ==> takes(states[i], steps[i], states[i + 1])
  }

  lemma {:induction false} KeptThroughout<S(!new), T(!new)>(states: seq<S>, steps: seq<T>, takes: (S, T, S) -> bool,
                                                          inv: S -> bool, i: nat)
    requires IsRun(states, steps, takes) && i < |states| && inv(states[0])
    requires forall s, step, t :: inv(s) && takes(s, step, t) ==> inv(t)
    ensures inv(states[i])
  {
    if i > 0 {
      KeptThroughout(states, steps, takes, inv, i - 1);
      assert takes(states[i - 1], steps[i - 1], states[i]);
    }
  }
}
