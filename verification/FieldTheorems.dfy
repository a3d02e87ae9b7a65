/**
  Where the fields of a process come from. In every state of every run they are what the steps so far
  have made of them, and no other step touches them.
 */
module FieldTheorems {
  import opened Wrappers
  import opened ProcessTree
  import opened Waiting
  import opened Lifecycle
  import opened LifecycleProofs
  import opened LifecycleTheorems
  import Interference

  // ---------------------------------------------------------------------------
  // One step
  // ---------------------------------------------------------------------------

  /** The time that `p` takes over in a step: all that the child it reaps has accumulated. */
  ghost function Gained(s: State, step: Step, p: Pid): Time {
    if Enabled(s, step) && step.Wait? && step.w == p && !step.nowait then
      var pass := Pass(s.procs, p, step.byMain, step.targets, step.stops);
      if pass.Reported? && (pass.status.Zombie? || pass.status.TraceeExit?) && pass.status.pid in s.procs
         && s.procs[pass.status.pid].parent == p
      then s.procs[pass.status.pid].reapedTime.Plus(s.procs[pass.status.pid].own)
      else ZERO
    else ZERO
  }

  /** The tracer of `p` after a step: whoever attaches, until it detaches or is told of the exit of `p`. */
  ghost function TracerAfter(s: State, step: Step, p: Pid, tracer: Option<Pid>): Option<Pid> {
    if step.Attach? && step.p == p then Some(step.tracer)
    else if step == Detach(p) || ReportsExit(s, step, p) then None
    else tracer
  }

  /** What one step makes of the fields of `p`. */
  ghost predicate FieldsFollow(s: State, step: Step, p: Pid, was: Proc, now: Proc) {
    && (now.subreaper <==> step == SetSubreaper(p) || (was.subreaper && step != UnsetSubreaper(p)))
    && (now.zombie <==> step == BecomeZombie(p) || was.zombie)
    && now.tracer == TracerAfter(s, step, p, was.tracer)
    && now.own == (if step.Charge? && step.p == p then was.own.Plus(step.time) else was.own)
    && now.reapedTime == was.reapedTime.Plus(Gained(s, step, p))
  }

  lemma ConsumedFields(ps: Procs, w: Pid, status: WaitStatus, p: Pid)
    requires w in ps && ps[w].children.Some? && status.pid in ps && p in ps
    requires status.TraceeExit? || status.Zombie? ==> status.pid != w
    requires status.Zombie? ==> ps[status.pid].tracer.None? && ps[status.pid].parent == w
    ensures var after := WithReportConsumed(ps, w, status);
      && p in after && after[p].subreaper == ps[p].subreaper && after[p].zombie == ps[p].zombie
      && after[p].own == ps[p].own
      && after[p].tracer == (if (status.TraceeExit? || status.Zombie?) && status.pid == p then None else ps[p].tracer)
      && after[p].reapedTime ==
           if p == w && (status.Zombie? || status.TraceeExit?) && ps[status.pid].parent == w
           then ps[p].reapedTime.Plus(ps[status.pid].reapedTime.Plus(ps[status.pid].own))
           else ps[p].reapedTime
  {
  }

  lemma UnreportedFields(s: State, step: Step, p: Pid)
    requires Enabled(s, step) && step.Wait? && p in s.procs
    requires step.nowait || !Pass(s.procs, step.w, step.byMain, step.targets, step.stops).Reported?
    ensures FieldsFollow(s, step, p, s.procs[p], s.procs[p])
  {
    PlusNothing(s.procs[p].reapedTime);
  }

  lemma ReportedFields(s: State, step: Step, p: Pid, status: WaitStatus)
    requires Inv(s) && Enabled(s, step) && step.Wait? && !step.nowait && p in s.procs
    requires Pass(s.procs, step.w, step.byMain, step.targets, step.stops) == Reported(status)
    ensures status.pid in s.procs
    ensures var after := WithReportConsumed(s.procs, step.w, status);
      p in after && FieldsFollow(s, step, p, s.procs[p], after[p])
  {
    PlusNothing(s.procs[p].reapedTime);
    PassReports(s.procs, step.w, step.byMain, step.targets, step.stops);
    ConsumedFields(s.procs, step.w, status, p);
  }

  lemma WaitFields(s: State, step: Step, p: Pid)
    requires Inv(s) && Enabled(s, step) && step.Wait? && p in s.procs
    ensures var after := WaitOnce(s, step.w, step.byMain, step.targets, step.stops, step.nowait).procs;
      p in after && FieldsFollow(s, step, p, s.procs[p], after[p])
  {
    var pass := Pass(s.procs, step.w, step.byMain, step.targets, step.stops);
    if pass.Reported? && !step.nowait {
      ReportedFields(s, step, p, pass.status);
    } else {
      UnreportedFields(s, step, p);
    }
  }

  lemma MoveFields(s: State, q: Pid, r: Pid, p: Pid)
    requires q in s.procs && s.procs[q].children.Some? && r in s.procs && p in s.procs
    ensures var after := Move(s, q, r).procs;
      p in after && after[p] == s.procs[p].(parent := after[p].parent, children := after[p].children)
  {
  }

  lemma OtherFields(s: State, step: Step, p: Pid)
    requires Enabled(s, step) && p in s.procs && step != LinkChild(p)
    requires !step.Wait? && !step.MoveChildren? && !step.SearchAndMove?
    ensures p in Apply(s, step).procs && FieldsFollow(s, step, p, s.procs[p], Apply(s, step).procs[p])
  {
    PlusNothing(s.procs[p].reapedTime);
  }

  /** Every step makes of the fields of a process what `FieldsFollow` says, and touches them in no other way. */
  lemma StepFields(s: State, step: Step, p: Pid)
    requires Inv(s) && Enabled(s, step) && p in s.procs
    ensures p in Apply(s, step).procs && FieldsFollow(s, step, p, s.procs[p], Apply(s, step).procs[p])
  {
    match step {
      case Wait(_, _, _, _, _) => WaitFields(s, step, p);
      case MoveChildren(q) => MoveStepFields(s, step, q, s.exits[q].reaper, p);
      case SearchAndMove(q) => MoveStepFields(s, step, q, MarkedSearch(s.procs, s.procs[q].parent), p);
      case _ =>
        assert step == LinkChild(p) ==> CloneFits(s, p);
        OtherFields(s, step, p);
    }
  }

  lemma MoveStepFields(s: State, step: Step, q: Pid, r: Pid, p: Pid)
    requires Enabled(s, step) && p in s.procs && q in s.procs && s.procs[q].children.Some?
    requires step == MoveChildren(q) || step == SearchAndMove(q)
    requires Apply(s, step) == if r in s.procs then Move(s, q, r) else s
    ensures p in Apply(s, step).procs && FieldsFollow(s, step, p, s.procs[p], Apply(s, step).procs[p])
  {
    PlusNothing(s.procs[p].reapedTime);
    if r in s.procs {
      MoveFields(s, q, r, p);
    }
  }

  /** A process is created by the link of its clone, with all fields at their start. */
  lemma NewProcessFields(s: State, step: Step, p: Pid)
    requires Enabled(s, step) && p !in s.procs && p in Apply(s, step).procs
    ensures step == LinkChild(p)
    ensures var now := Apply(s, step).procs[p];
      !now.subreaper && !now.zombie && now.tracer == None && IsNothing(now.own) && IsNothing(now.reapedTime)
  {
    if step != LinkChild(p) {
      Interference.OthersDoNotCreate(s, step, p);
    }
  }

  // ---------------------------------------------------------------------------
  // Runs
  // ---------------------------------------------------------------------------

  /** Some step made `p` a subreaper and none since has taken that back. */
  ghost predicate SubreaperSince(steps: seq<Step>, i: nat, p: Pid)
    requires i <= |steps|
  {
    exists k :: 0 <= k < i && steps[k] == SetSubreaper(p) && forall j | k < j < i :: steps[j] != UnsetSubreaper(p)
  }

  lemma SubreaperNext(steps: seq<Step>, i: nat, p: Pid)
    requires i < |steps|
    ensures SubreaperSince(steps, i + 1, p) <==>
            steps[i] == SetSubreaper(p) || (SubreaperSince(steps, i, p) && steps[i] != UnsetSubreaper(p))
  {
    if SubreaperSince(steps, i + 1, p) && steps[i] != SetSubreaper(p) {
      var k :| 0 <= k < i + 1 && steps[k] == SetSubreaper(p)
               && forall j | k < j < i + 1 :: steps[j] != UnsetSubreaper(p);
      assert steps[k] == SetSubreaper(p);
    }
    if SubreaperSince(steps, i, p) && steps[i] != UnsetSubreaper(p) {
      var k :| 0 <= k < i && steps[k] == SetSubreaper(p) && forall j | k < j < i :: steps[j] != UnsetSubreaper(p);
      assert steps[k] == SetSubreaper(p) && forall j | k < j < i + 1 :: steps[j] != UnsetSubreaper(p);
    }
  }

  ghost predicate ZombieSince(steps: seq<Step>, i: nat, p: Pid)
    requires i <= |steps|
  {
    exists k :: 0 <= k < i && steps[k] == BecomeZombie(p)
  }

  /** The user time charged to `p` itself. */
  function UserTime(steps: seq<Step>, i: nat, p: Pid): nat
    requires i <= |steps|
  {
    if i == 0 then 0
    else UserTime(steps, i - 1, p) + if steps[i - 1].Charge? && steps[i - 1].p == p then steps[i - 1].time.user else 0
  }

  function KernelTime(steps: seq<Step>, i: nat, p: Pid): nat
    requires i <= |steps|
  {
    if i == 0 then 0
    else
      KernelTime(steps, i - 1, p) + if steps[i - 1].Charge? && steps[i - 1].p == p then steps[i - 1].time.kernel else 0
  }

  /** The tracer that the steps so far leave `p` with. */
  ghost function TracerSince(states: seq<State>, steps: seq<Step>, i: nat, p: Pid): Option<Pid>
    requires i <= |steps| <= |states|
  {
    if i == 0 then None
    else TracerAfter(states[i - 1], steps[i - 1], p, TracerSince(states, steps, i - 1, p))
  }

  /** The user time that `p` has taken over from the children it has reaped. */
  ghost function TakenUser(states: seq<State>, steps: seq<Step>, i: nat, p: Pid): nat
    requires i <= |steps| <= |states|
  {
    if i == 0 then 0 else TakenUser(states, steps, i - 1, p) + Gained(states[i - 1], steps[i - 1], p).user
  }

  ghost function TakenKernel(states: seq<State>, steps: seq<Step>, i: nat, p: Pid): nat
    requires i <= |steps| <= |states|
  {
    if i == 0 then 0 else TakenKernel(states, steps, i - 1, p) + Gained(states[i - 1], steps[i - 1], p).kernel
  }

  predicate IsNothing(t: Time) {
    t.user == 0 && t.kernel == 0
  }

  /** The record of `p` in state `i` is the one that the steps before it account for. */
  ghost predicate Accounted(states: seq<State>, steps: seq<Step>, i: nat, p: Pid)
    requires i <= |steps| < |states|
  {
    if p in states[i].procs then
      var now := states[i].procs[p];
      && (now.subreaper <==> SubreaperSince(steps, i, p))
      && (now.zombie <==> ZombieSince(steps, i, p))
      && now.tracer == TracerSince(states, steps, i, p)
      && now.own.user == UserTime(steps, i, p) && now.own.kernel == KernelTime(steps, i, p)
      && now.reapedTime.user == TakenUser(states, steps, i, p)
      && now.reapedTime.kernel == TakenKernel(states, steps, i, p)
    else
      && !SubreaperSince(steps, i, p) && !ZombieSince(steps, i, p) && TracerSince(states, steps, i, p) == None
      && UserTime(steps, i, p) == 0 && KernelTime(steps, i, p) == 0
      && TakenUser(states, steps, i, p) == 0 && TakenKernel(states, steps, i, p) == 0
  }

  /** What the steps say after one more step. */
  lemma SinceNext(states: seq<State>, steps: seq<Step>, i: nat, p: Pid)
    requires i < |steps| < |states|
    ensures SubreaperSince(steps, i + 1, p) <==>
            steps[i] == SetSubreaper(p) || (SubreaperSince(steps, i, p) && steps[i] != UnsetSubreaper(p))
    ensures ZombieSince(steps, i + 1, p) <==> steps[i] == BecomeZombie(p) || ZombieSince(steps, i, p)
    ensures TracerSince(states, steps, i + 1, p) ==
            TracerAfter(states[i], steps[i], p, TracerSince(states, steps, i, p))
  {
    SubreaperNext(steps, i, p);
    if ZombieSince(steps, i, p) {
      var k :| 0 <= k < i && steps[k] == BecomeZombie(p);
      assert 0 <= k < i + 1 && steps[k] == BecomeZombie(p);
    }
    if ZombieSince(steps, i + 1, p) && steps[i] != BecomeZombie(p) {
      var k :| 0 <= k < i + 1 && steps[k] == BecomeZombie(p);
      assert 0 <= k < i && steps[k] == BecomeZombie(p);
    }
  }

  /** A step that leaves `p` uncreated, or creates it, says nothing about `p`. */
  lemma NothingBefore(s: State, step: Step, p: Pid)
    requires Inv(s) && Enabled(s, step) && p !in s.procs
    ensures step != SetSubreaper(p) && step != BecomeZombie(p) && !(step.Charge? && step.p == p)
    ensures TracerAfter(s, step, p, None) == None && IsNothing(Gained(s, step, p))
  {
  }

  lemma AccountedNext(states: seq<State>, steps: seq<Step>, i: nat, p: Pid)
    requires i < |steps| < |states| && Inv(states[i]) && Enabled(states[i], steps[i])
    requires states[i + 1] == Apply(states[i], steps[i]) && Accounted(states, steps, i, p)
    ensures Accounted(states, steps, i + 1, p)
  {
    if p in states[i].procs {
      StepFields(states[i], steps[i], p);
      AccountedStays(states, steps, i, p);
    } else {
      NothingBefore(states[i], steps[i], p);
      if p in states[i + 1].procs {
        NewProcessFields(states[i], steps[i], p);
      }
      AccountedAnew(states, steps, i, p);
    }
  }

  lemma AccountedStays(states: seq<State>, steps: seq<Step>, i: nat, p: Pid)
    requires i < |steps| < |states| && Accounted(states, steps, i, p)
    requires p in states[i].procs && p in states[i + 1].procs
    requires FieldsFollow(states[i], steps[i], p, states[i].procs[p], states[i + 1].procs[p])
    ensures Accounted(states, steps, i + 1, p)
  {
    SinceNext(states, steps, i, p);
  }

  lemma AccountedAnew(states: seq<State>, steps: seq<Step>, i: nat, p: Pid)
    requires i < |steps| < |states| && Accounted(states, steps, i, p) && p !in states[i].procs
    requires steps[i] != SetSubreaper(p) && steps[i] != BecomeZombie(p) && !(steps[i].Charge? && steps[i].p == p)
    requires TracerAfter(states[i], steps[i], p, None) == None && IsNothing(Gained(states[i], steps[i], p))
    requires p in states[i + 1].procs ==>
               var now := states[i + 1].procs[p];
               !now.subreaper && !now.zombie && now.tracer == None && IsNothing(now.own) && IsNothing(now.reapedTime)
    ensures Accounted(states, steps, i + 1, p)
  {
    SinceNext(states, steps, i, p);
  }

  /**
    In every state of every run a process is a subreaper exactly if it was made one and not unmade
    since, a zombie exactly if it has exited, traced by whoever attached last and has neither let go
    nor been told of its exit, and accounts for exactly the time charged to it and to the children it
    has reaped.
   */
  lemma {:induction false} RunFields(states: seq<State>, steps: seq<Step>, i: nat, p: Pid)
    requires IsRun(states, steps) && i < |states|
    ensures Accounted(states, steps, i, p)
  {
    if i == 0 {
      BootAccounted(states, steps, p);
    } else {
      RunFields(states, steps, i - 1, p);
      RunKeepsInv(states, steps, i - 1);
      AccountedNext(states, steps, i - 1, p);
    }
  }

  lemma BootAccounted(states: seq<State>, steps: seq<Step>, p: Pid)
    requires |steps| < |states| && states[0].procs == map[INIT := NewProc(0, false)]
    ensures Accounted(states, steps, 0, p)
  {
  }
}
