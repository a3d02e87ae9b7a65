/**
  Subreaper marks over whole runs, and when the kernel's search for a reaper agrees with the plain one.

  A new subreaper marks its descendants one `children` map at a time. Until it gets to the children of
  a process, that process is pending. The marks are settled when every marked process that is not
  pending has marked children only.
 */
module MarkTheorems {
  import opened Wrappers
  import opened ProcessTree
  import opened Waiting
  import opened Lifecycle
  import opened LifecycleProofs

  /** The processes whose children somebody has still to mark. */
  ghost function Pending(s: State): set<Pid> {
    set p, q | p in s.marking && q in s.marking[p] :: q
  }

  ghost predicate Settled(s: State) {
    MarksSettled(s.procs, Pending(s))
  }

  /** When nobody is marking, settled marks are inherited by all descendants. */
  lemma SettledAtRest(s: State)
    requires s.marking == map[]
    ensures Settled(s) <==> MarksInherited(s.procs)
  {
    assert Pending(s) == {};
  }

  // ---------------------------------------------------------------------------
  // Single steps
  // ---------------------------------------------------------------------------

  /** Every step except a move keeps the marks settled. */
  lemma StepKeepsMarks(s: State, step: Step)
    requires Inv(s) && Settled(s) && Enabled(s, step) && !step.MoveChildren? && !step.SearchAndMove?
    ensures Settled(Apply(s, step))
  {
    match step {
      case LinkChild(child) => LinkKeepsMarks(s, child);
      case Wait(w, byMain, targets, stops, nowait) => WaitKeepsMarks(s, w, byMain, targets, stops, nowait);
      case SetSubreaper(p) => SubreaperStepKeepsMarks(s, p);
      case MarkNext(p, q) => MarkNextKeepsMarks(s, p, q);
      case _ => OtherStepKeepsMarks(s, step);
    }
  }

  lemma SamePending(s: State, t: State)
    requires t.marking == s.marking
    ensures Pending(t) == Pending(s)
  {
  }

  lemma LinkKeepsMarks(s: State, child: Pid)
    requires Inv(s) && Settled(s) && Enabled(s, LinkChild(child))
    ensures Settled(Apply(s, LinkChild(child)))
  {
    assert CloneFits(s, child);
    SamePending(s, Apply(s, LinkChild(child)));
    var target := s.clones[child].target.value;
    if s.procs[target].children.Some? {
      WithChildKeepsMarks(s.procs, Pending(s), child, target);
    }
  }

  lemma SubreaperStepKeepsMarks(s: State, p: Pid)
    requires Settled(s) && Enabled(s, SetSubreaper(p))
    ensures Settled(Apply(s, SetSubreaper(p)))
  {
    var t := Apply(s, SetSubreaper(p));
    forall q | q in Pending(s)
      ensures q in Pending(t)
    {
      var x :| x in s.marking && q in s.marking[x];
      assert x in t.marking && q in t.marking[x];
    }
    assert !s.procs[p].marked ==> p in t.marking && p in t.marking[p];
    FlagKeepsMarks(s.procs, Pending(s), Pending(t), p);
  }

  lemma MarkNextKeepsMarks(s: State, p: Pid, q: Pid)
    requires Inv(s) && Settled(s) && Enabled(s, MarkNext(p, q))
    ensures Settled(Apply(s, MarkNext(p, q)))
  {
    var t := Apply(s, MarkNext(p, q));
    var left := s.marking[p] - {q} + NewlyMarked(s.procs, q);
    forall x | x in left
      ensures x in Pending(t)
    {
      assert p in t.marking && x in t.marking[p];
    }
    forall x | x in Pending(s) && x != q
      ensures x in Pending(t)
    {
      var y :| y in s.marking && x in s.marking[y];
      if y == p {
        assert x in left;
      } else {
        assert y in t.marking && x in t.marking[y];
      }
    }
    MarkingKeepsMarks(s.procs, Pending(s), Pending(t), q);
  }

  lemma OtherStepKeepsMarks(s: State, step: Step)
    requires Settled(s) && Enabled(s, step) && !step.LinkChild? && !step.SearchAndMove? && !step.MoveChildren?
    requires !step.Wait? && !step.SetSubreaper? && !step.MarkNext?
    ensures Settled(Apply(s, step))
  {
    var t := Apply(s, step);
    SamePending(s, t);
    forall c: Pid
      ensures MarkFits(t.procs, Pending(s), c)
    {
      assert MarkFits(s.procs, Pending(s), c);
    }
  }

  lemma WaitKeepsMarks(s: State, w: Pid, byMain: bool, targets: set<Pid>, stops: set<Pid>, nowait: bool)
    requires Inv(s) && Settled(s) && Enabled(s, Wait(w, byMain, targets, stops, nowait))
    ensures Settled(Apply(s, Wait(w, byMain, targets, stops, nowait)))
  {
    SamePending(s, Apply(s, Wait(w, byMain, targets, stops, nowait)));
    var pass, pending := Pass(s.procs, w, byMain, targets, stops), Pending(s);
    if pass.Reported? && pass.status.pid in s.procs {
      ConsumedKeepsMarks(s.procs, pending, w, pass.status);
    }
  }

  lemma ConsumedKeepsMarks(ps: Procs, pending: set<Pid>, w: Pid, status: WaitStatus)
    requires MarksSettled(ps, pending) && w in ps && ps[w].children.Some? && status.pid in ps
    ensures MarksSettled(WithReportConsumed(ps, w, status), pending)
  {
    var p := status.pid;
    var detached := ps[p := ps[p].(tracer := None)];
    forall c: Pid
      ensures MarkFits(detached, pending, c)
    {
      assert MarkFits(ps, pending, c);
    }
    ReapKeepsMarks(ps, pending, w, p);
    ReapKeepsMarks(detached, pending, w, p);
  }

  // ---------------------------------------------------------------------------
  // Moves
  // ---------------------------------------------------------------------------

  /** The process that a move step hands the children of `step.p` to. */
  ghost function MoveTarget(s: State, step: Step): Pid
    requires Enabled(s, step) && (step.MoveChildren? || step.SearchAndMove?)
  {
    if step.MoveChildren? then s.exits[step.p].reaper else MarkedSearch(s.procs, s.procs[step.p].parent)
  }

  /** A move that succeeds puts no unmarked child below a marked reaper that has passed its mark on already. */
  ghost predicate MoveIsSafe(s: State, step: Step) {
    Enabled(s, step) && (step.MoveChildren? || step.SearchAndMove?) ==>
      var r := MoveTarget(s, step);
      r in s.procs && s.procs[r].children.Some? && s.procs[r].marked && r !in Pending(s) ==>
        forall c | c in s.procs[step.p].children.value :: c in s.procs && s.procs[c].marked
  }

  lemma MoveStepKeepsMarksExactlyWhen(s: State, step: Step)
    requires Inv(s) && Settled(s) && Enabled(s, step) && (step.MoveChildren? || step.SearchAndMove?)
    ensures Settled(Apply(s, step)) <==> MoveIsSafe(s, step)
  {
    var p, r := step.p, MoveTarget(s, step);
    SamePending(s, Apply(s, step));
    assert ExitFits(s, p) && Fits(s.procs, p) && Fits(s.procs, s.procs[p].parent);
    if step.SearchAndMove? {
      SearchFindsAnOpenAncestor(s.procs, s.procs[p].parent);
    }
    if s.procs[r].children.Some? {
      MoveKeepsMarksExactlyWhen(s.procs, Pending(s), p, r);
    }
  }

  /** A move to a process that is still an ancestor is safe while nobody is marking. */
  lemma AncestorIsSafe(s: State, step: Step)
    requires Inv(s) && Settled(s) && s.marking == map[] && ReaperStillAbove(s, step)
    ensures MoveIsSafe(s, step)
  {
    SettledAtRest(s);
    if Enabled(s, step) && (step.MoveChildren? || step.SearchAndMove?) {
      var p, r := step.p, MoveTarget(s, step);
      assert ExitFits(s, p) && Fits(s.procs, p) && Fits(s.procs, s.procs[p].parent);
      if step.SearchAndMove? {
        SearchFindsAnOpenAncestor(s.procs, s.procs[p].parent);
        InChainIsAbove(s.procs, r, s.procs[p].parent);
      }
      if s.procs[r].children.Some? {
        MoveUpwardsKeepsMarks(s.procs, p, r);
        MoveKeepsMarksExactlyWhen(s.procs, {}, p, r);
      }
    }
  }

  /** At a move, the reaper that was found earlier is still an ancestor of the exiting process. */
  ghost predicate ReaperStillAbove(s: State, step: Step) {
    step.MoveChildren? && step.p in s.exits && s.exits[step.p].FoundReaper? ==>
      IsAbove(s.procs, s.exits[step.p].reaper, step.p)
  }

  // ---------------------------------------------------------------------------
  // Runs
  // ---------------------------------------------------------------------------

  lemma BootMarks(s: State)
    requires s == BOOT
    ensures Settled(s)
  {
    forall c: Pid
      ensures MarkFits(s.procs, Pending(s), c)
    {
    }
  }

  /** Up to any state of a run the marks have been settled throughout if and only if every move was safe. */
  lemma {:induction false} RunMarksExactlyWhen(states: seq<State>, steps: seq<Step>, i: nat)
    requires IsRun(states, steps) && i < |states|
    ensures (forall k | 0 <= k <= i :: Settled(states[k])) <==>
            (forall k | 0 <= k < i :: MoveIsSafe(states[k], steps[k]))
  {
    if i == 0 {
      BootMarks(states[0]);
    } else {
      var s, step := states[i - 1], steps[i - 1];
      RunMarksExactlyWhen(states, steps, i - 1);
      RunKeepsInv(states, steps, i - 1);
      if Settled(s) {
        if step.MoveChildren? || step.SearchAndMove? {
          MoveStepKeepsMarksExactlyWhen(s, step);
        } else {
          StepKeepsMarks(s, step);
        }
      }
      assert (forall k | 0 <= k <= i :: Settled(states[k])) <==>
             (forall k | 0 <= k <= i - 1 :: Settled(states[k])) && Settled(states[i]);
      assert (forall k | 0 <= k < i :: MoveIsSafe(states[k], steps[k])) <==>
             (forall k | 0 <= k < i - 1 :: MoveIsSafe(states[k], steps[k])) && MoveIsSafe(s, step);
    }
  }

  /** The moves of a run go to processes that are still ancestors, at moments when nobody is marking. */
  ghost predicate MovesUpAtRest(s: State, step: Step) {
    ReaperStillAbove(s, step) && (step.MoveChildren? || step.SearchAndMove? ==> s.marking == map[])
  }

  lemma {:induction false} RunKeepsMarks(states: seq<State>, steps: seq<Step>, i: nat)
    requires IsRun(states, steps) && i < |states|
    requires forall k | 0 <= k < |steps| :: MovesUpAtRest(states[k], steps[k])
    ensures Settled(states[i])
  {
    if i == 0 {
      BootMarks(states[0]);
    } else {
      var s, step := states[i - 1], steps[i - 1];
      RunKeepsMarks(states, steps, i - 1);
      RunKeepsInv(states, steps, i - 1);
      assert MovesUpAtRest(s, step);
      if step.MoveChildren? || step.SearchAndMove? {
        AncestorIsSafe(s, step);
        MoveStepKeepsMarksExactlyWhen(s, step);
      } else {
        StepKeepsMarks(s, step);
      }
    }
  }

  /**
    In a run up to state `i` in which every move was safe, and with nobody marking in that state, the
    kernel's search agrees with the plain one from every process.
   */
  lemma RunSearchIsNearest(states: seq<State>, steps: seq<Step>, i: nat, c: Pid)
    requires IsRun(states, steps) && i < |states| && c in states[i].procs && !states[i].procs[c].reaped
    requires (forall k | 0 <= k < i :: MoveIsSafe(states[k], steps[k])) && states[i].marking == map[]
    ensures MarkedSearch(states[i].procs, c) == NearestReaper(states[i].procs, c)
  {
    RunKeepsInv(states, steps, i);
    RunMarksExactlyWhen(states, steps, i);
    SettledAtRest(states[i]);
    MarkedSearchIsNearest(states[i].procs, c);
  }
}
