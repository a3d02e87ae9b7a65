/** CPU time over whole runs: what is conserved, what is lost, and exactly when nothing is. */
module TimeTheorems {
  import opened ProcessTree
  import opened Lifecycle
  import opened LifecycleProofs

  /** All the time charged by a sequence of steps. */
  function TotalCharged(steps: seq<Step>): Time {
    if steps == [] then ZERO
    else
      var last := steps[|steps| - 1];
      TotalCharged(steps[..|steps| - 1]).Plus(if last.Charge? then last.time else ZERO)
  }

  lemma OnlyChargeCharges(s: State, step: Step)
    requires Enabled(s, step)
    ensures Apply(s, step).charged == s.charged.Plus(if step.Charge? then step.time else ZERO)
  {
  }

  lemma {:induction false} ChargedSoFar(states: seq<State>, steps: seq<Step>, i: nat)
    requires IsRun(states, steps) && i < |states|
    ensures states[i].charged == TotalCharged(steps[..i])
  {
    if i > 0 {
      ChargedSoFar(states, steps, i - 1);
      assert steps[..i][..i - 1] == steps[..i - 1];
      OnlyChargeCharges(states[i - 1], steps[i - 1]);
    }
  }

  /** The time charged to reaped processes in the first `i` steps. */
  function TotalLost(states: seq<State>, steps: seq<Step>, i: nat): Time
    requires i <= |steps| < |states|
  {
    if i == 0 then ZERO else TotalLost(states, steps, i - 1).Plus(LostIn(states[i - 1], steps[i - 1]))
  }

  lemma OnlyChargeLoses(s: State, step: Step)
    requires Enabled(s, step)
    ensures Apply(s, step).lost == s.lost.Plus(LostIn(s, step))
  {
    PlusNothing(s.lost);
  }

  lemma {:induction false} LostSoFar(states: seq<State>, steps: seq<Step>, i: nat)
    requires IsRun(states, steps) && i < |states|
    ensures states[i].lost == TotalLost(states, steps, i)
  {
    if i > 0 {
      LostSoFar(states, steps, i - 1);
      OnlyChargeLoses(states[i - 1], steps[i - 1]);
    }
  }

  /**
    Whatever the order of exits, moves and reaps, the unreaped processes account for all time ever
    charged except what was charged to processes already reaped.
   */
  lemma RunConservesTime(states: seq<State>, steps: seq<Step>, i: nat)
    requires IsRun(states, steps) && i < |states|
    ensures Held(states[i].procs, states[i].next).Plus(TotalLost(states, steps, i)) == TotalCharged(steps[..i])
    ensures forall p | p in states[i].procs :: p < states[i].next
  {
    RunKeepsInv(states, steps, i);
    ChargedSoFar(states, steps, i);
    LostSoFar(states, steps, i);
  }

  function Size(t: Time): nat {
    t.user + t.kernel
  }

  /** How much time step `k` of a run loses. */
  function LostAt(states: seq<State>, steps: seq<Step>, k: nat): nat
    requires k < |steps| < |states|
  {
    Size(LostIn(states[k], steps[k]))
  }

  function Losses(states: seq<State>, steps: seq<Step>, i: nat): (losses: seq<nat>)
    requires i <= |steps| < |states|
    ensures |losses| == i && forall k | 0 <= k < i :: losses[k] == LostAt(states, steps, k)
  {
    seq(i, k requires 0 <= k < i => LostAt(states, steps, k))
  }

  function Sum(ns: seq<nat>): nat {
    if ns == [] then 0 else Sum(ns[..|ns| - 1]) + ns[|ns| - 1]
  }

  lemma {:induction false} SumIsZero(ns: seq<nat>)
    ensures Sum(ns) == 0 <==> forall k | 0 <= k < |ns| :: ns[k] == 0
  {
    if ns != [] {
      SumIsZero(ns[..|ns| - 1]);
    }
  }

  lemma {:induction false} SumOfLosses(states: seq<State>, steps: seq<Step>, i: nat)
    requires i <= |steps| < |states|
    ensures Size(TotalLost(states, steps, i)) == Sum(Losses(states, steps, i))
  {
    if i > 0 {
      SumOfLosses(states, steps, i - 1);
      SizeOfSum(TotalLost(states, steps, i - 1), LostIn(states[i - 1], steps[i - 1]));
      assert Losses(states, steps, i)[..i - 1] == Losses(states, steps, i - 1);
    }
  }

  lemma {:induction false} SizeOfSum(a: Time, b: Time)
    ensures Size(a.Plus(b)) == Size(a) + Size(b)
  {
  }

  /** All time ever charged is accounted for if and only if every charge to a reaped process was zero. */
  lemma AllTimeHeldExactlyWhen(states: seq<State>, steps: seq<Step>, i: nat)
    requires IsRun(states, steps) && i < |states|
    ensures Held(states[i].procs, states[i].next) == TotalCharged(steps[..i]) <==>
            forall k | 0 <= k < i :: LostAt(states, steps, k) == 0
  {
    var held, lost := Held(states[i].procs, states[i].next), TotalLost(states, steps, i);
    RunConservesTime(states, steps, i);
    SumOfLosses(states, steps, i);
    SizeOfSum(held, lost);
    SumIsZero(Losses(states, steps, i));
    NoLossMeansEqual(held, lost);
  }

  lemma {:induction false} NoLossMeansEqual(held: Time, lost: Time)
    ensures held.Plus(lost) == held <==> Size(held.Plus(lost)) == Size(held)
  {
  }
}
