/**
  What other threads may do to the process records while one process, in the middle of an exit or a
  clone, holds no lock. Every step of the protocol that is not its own is such a thing.
 */
module Interference {
  import opened Wrappers
  import opened ProcessTree
  import opened Waiting
  import opened Lifecycle
  import opened LifecycleProofs

  /** The process still has a running thread and has not handed its children over. */
  ghost predicate Alive(ps: Procs, p: Pid) {
    p in ps && ps[p].children.Some? && !ps[p].zombie && !ps[p].reaped
  }

  /** Records never vanish, and a process gets a new parent only when the old one has handed its children over. */
  ghost predicate KeepsRecord(ps: Procs, after: Procs, q: Pid) {
    q in ps ==>
      && q in after
      && (ps[q].children.None? ==> after[q].children.None?)
      && (after[q].parent != ps[q].parent && ps[q].parent in ps ==>
            ps[q].parent in after && after[ps[q].parent].children.None?)
  }

  ghost predicate Disturbs(ps: Procs, after: Procs, p: Pid) {
    Tree(after) && Alive(after, p) && forall q: Pid :: KeepsRecord(ps, after, q)
  }

  /** Every step that is not part of the exit of `p` is covered. */
  lemma StepDisturbs(s: State, step: Step, p: Pid)
    requires Inv(s) && Enabled(s, step) && Alive(s.procs, p)
    requires step != MoveChildren(p) && step != SearchAndMove(p) && step != BecomeZombie(p)
    ensures Disturbs(s.procs, Apply(s, step).procs, p)
  {
    StepKeepsInv(s, step);
    match step {
      case LinkChild(child) => LinkDisturbs(s, child, p);
      case MoveChildren(q) => MoveDisturbs(s, q, s.exits[q].reaper, p);
      case SearchAndMove(q) => MoveDisturbs(s, q, MarkedSearch(s.procs, s.procs[q].parent), p);
      case Wait(w, byMain, targets, stops, nowait) => WaitDisturbs(s, w, byMain, targets, stops, nowait, p);
      case _ => OtherStepDisturbs(s, step, p);
    }
  }

  lemma LinkDisturbs(s: State, child: Pid, p: Pid)
    requires Inv(s) && Enabled(s, LinkChild(child)) && Alive(s.procs, p)
    ensures var after := Apply(s, LinkChild(child)).procs;
      Alive(after, p) && forall q: Pid :: KeepsRecord(s.procs, after, q)
  {
    assert CloneFits(s, child);
  }

  lemma MoveDisturbs(s: State, q: Pid, r: Pid, p: Pid)
    requires Inv(s) && q in s.procs && s.procs[q].children.Some? && q != p && Alive(s.procs, p)
    ensures r in s.procs ==>
              && Alive(Move(s, q, r).procs, p)
              && forall x: Pid :: KeepsRecord(s.procs, Move(s, q, r).procs, x)
  {
    assert Fits(s.procs, q);
  }

  lemma WaitDisturbs(s: State, w: Pid, byMain: bool, targets: set<Pid>, stops: set<Pid>, nowait: bool, p: Pid)
    requires Inv(s) && Enabled(s, Wait(w, byMain, targets, stops, nowait)) && Alive(s.procs, p)
    ensures var after := WaitOnce(s, w, byMain, targets, stops, nowait).procs;
      Alive(after, p) && forall q: Pid :: KeepsRecord(s.procs, after, q)
  {
    PassReports(s.procs, w, byMain, targets, stops);
    var pass := Pass(s.procs, w, byMain, targets, stops);
    if pass.Reported? {
      ConsumedDisturbs(s.procs, w, pass.status, p);
    }
  }

  lemma ConsumedDisturbs(ps: Procs, w: Pid, status: WaitStatus, p: Pid)
    requires w in ps && ps[w].children.Some? && status.pid in ps && Alive(ps, p)
    requires status.TraceeExit? || status.Zombie? ==> ps[status.pid].zombie
    ensures var after := WithReportConsumed(ps, w, status);
      Alive(after, p) && forall q: Pid :: KeepsRecord(ps, after, q)
  {
  }

  lemma OtherStepDisturbs(s: State, step: Step, p: Pid)
    requires Enabled(s, step) && Alive(s.procs, p) && step != BecomeZombie(p)
    requires !step.LinkChild? && !step.MoveChildren? && !step.SearchAndMove? && !step.Wait?
    ensures var after := Apply(s, step).procs;
      Alive(after, p) && forall q: Pid :: KeepsRecord(s.procs, after, q)
  {
  }

  /** Several disturbances in a row are one. */
  lemma DisturbsTransitive(ps: Procs, middle: Procs, after: Procs, p: Pid)
    requires Tree(ps) && Disturbs(ps, middle, p) && Disturbs(middle, after, p)
    ensures Disturbs(ps, after, p)
  {
    forall q: Pid
      ensures KeepsRecord(ps, after, q)
    {
      assert KeepsRecord(ps, middle, q) && KeepsRecord(middle, after, q);
      if q in ps && ps[q].parent in ps {
        assert KeepsRecord(ps, middle, ps[q].parent) && KeepsRecord(middle, after, ps[q].parent);
      }
    }
  }

  /** Nobody else creates the process of a pending clone. */
  lemma OthersDoNotCreate(s: State, step: Step, child: Pid)
    requires Enabled(s, step) && child !in s.procs && step != LinkChild(child)
    ensures child !in Apply(s, step).procs
  {
    match step {
      case Wait(w, byMain, targets, stops, nowait) => WaitCreatesNothing(s, w, byMain, targets, stops, nowait);
      case _ =>
    }
  }

  lemma WaitCreatesNothing(s: State, w: Pid, byMain: bool, targets: set<Pid>, stops: set<Pid>, nowait: bool)
    requires Active(s, w)
    ensures WaitOnce(s, w, byMain, targets, stops, nowait).procs.Keys == s.procs.Keys
  {
  }

  /**
    `others(k, ps)` is what the records have become after the `k`-th unlocked moment. Anything may
    happen there a finite number of times: from moment `quiet` on nothing does.
   */
  ghost predicate Environment(others: (nat, Procs) -> Procs, p: Pid, quiet: nat) {
    forall k: nat, ps: Procs | Tree(ps) && Alive(ps, p) ::
      Disturbs(ps, others(k, ps), p) && (k >= quiet ==> others(k, ps) == ps)
  }

  /** The number of moments left at which others may still interfere. */
  function Unrest(quiet: nat, k: nat): nat {
    if k < quiet then quiet - k else 0
  }
}
