/** States that some run gets to, and how to build such runs. */
module Reachability {
  import opened Wrappers
  import opened ProcessTree
  import opened Lifecycle
  import opened LifecycleProofs

  ghost predicate Reachable(s: State) {
    exists states, steps :: IsRun(states, steps) && states[|steps|] == s
  }

  lemma ReachableStep(s: State, step: Step)
    requires Reachable(s) && Enabled(s, step)
    ensures Reachable(Apply(s, step))
  {
    var states, steps :| IsRun(states, steps) && states[|steps|] == s;
    var states', steps' := states + [Apply(s, step)], steps + [step];
    assert IsRun(states', steps');
    assert states'[|steps'|] == Apply(s, step);
  }

  lemma ReachableInv(s: State)
    requires Reachable(s)
    ensures Inv(s)
  {
    var states, steps :| IsRun(states, steps) && states[|steps|] == s;
    RunKeepsInv(states, steps, |steps|);
  }

  /** A complete fork by an active process. */
  ghost function Forked(s: State, creator: Pid): State
    requires creator in s.procs && s.procs[creator].children.Some?
  {
    s.(next := s.next + 1, procs := WithChild(s.procs, s.next, creator),
       table := s.table + {s.next}, count := s.count + 1)
  }

  lemma ForkInSteps(s: State, creator: Pid)
    requires Active(s, creator) && s.next !in s.clones
    ensures var started := Apply(s, AllocateChild(creator, false));
      && Enabled(started, ReadParent(s.next))
      && var read := Apply(started, ReadParent(s.next));
         Enabled(read, LinkChild(s.next)) && Apply(read, LinkChild(s.next)) == Forked(s, creator)
  {
    var read := Apply(Apply(s, AllocateChild(creator, false)), ReadParent(s.next));
    assert read.clones - {s.next} == s.clones;
  }

  lemma ReachableFork(s: State, creator: Pid)
    requires Reachable(s) && Active(s, creator)
    ensures Reachable(Forked(s, creator))
  {
    ReachableInv(s);
    assert CloneFits(s, s.next);
    ForkInSteps(s, creator);
    var started := Apply(s, AllocateChild(creator, false));
    ReachableStep(s, AllocateChild(creator, false));
    ReachableStep(started, ReadParent(s.next));
    ReachableStep(Apply(started, ReadParent(s.next)), LinkChild(s.next));
  }

  lemma ReachableBoot()
    ensures Reachable(BOOT)
  {
    assert IsRun([BOOT], []);
  }

  function Running(parent: Pid, children: set<Pid>, subreaper: bool, marked: bool): Proc {
    Proc(parent, Some(children), false, false, subreaper, marked, None, ZERO, ZERO)
  }
}
