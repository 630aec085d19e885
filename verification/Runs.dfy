/** Interleavings: finite runs of a step system in which every step is taken by one numbered participant. */
module Runs {
  /** `moves[i]` is the participant that takes the step from `states[i]`. */
  datatype Run<S> = Run(states: seq<S>, moves: seq<nat>)

  predicate StepAt<S>(r: Run<S>, step: (S, nat, S) -> bool, i: nat)
    requires i < |r.moves| < |r.states|
  {
    step(r.states[i], r.moves[i], r.states[i + 1])
  }

  ghost predicate IsRun<S>(r: Run<S>, step: (S, nat, S) -> bool) {
    && |r.states| == |r.moves| + 1
    && forall i :: 0 <= i < |r.moves| ==> StepAt(r, step, i)
  }

  /** What holds at the start and is kept by every step holds in every state. */
  lemma {:induction false} RunKeeps<S(!new)>(
      r: Run<S>, step: (S, nat, S) -> bool, holds: S -> bool, i: nat)
    requires IsRun(r, step) && i < |r.states| && holds(r.states[0])
    requires forall s, p, s' :: holds(s) && step(s, p, s') ==> holds(s')
    ensures holds(r.states[i])
  {
    if i > 0 {
      RunKeeps(r, step, holds, i - 1);
      assert StepAt(r, step, i - 1);
    }
  }

  ghost function Last<S>(r: Run<S>): S
    requires |r.states| > 0
  {
    r.states[|r.states| - 1]
  }

  /** The run with one more step, taken by the first participant. */
  ghost function Extended<S>(r: Run<S>, step: (S, nat, S) -> bool, s: S): (r': Run<S>)
    requires IsRun(r, step) && step(Last(r), 0, s)
    ensures IsRun(r', step) && r'.states[0] == r.states[0] && Last(r') == s
  {
    var r' := Run(r.states + [s], r.moves + [0]);
    assert forall i :: 0 <= i < |r.moves| ==> StepAt(r, step, i) ==> StepAt(r', step, i);
    assert StepAt(r', step, |r.moves|);
    r'
  }
}
