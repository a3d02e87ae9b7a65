/**
  A run in which CPU time is lost. Process 2 exits and is reaped by init while its last thread is still
  on its way out; the timer interrupt then charges one more tick to it.
 */
module LostTime {
  import opened Wrappers
  import opened ProcessTree
  import opened Waiting
  import opened Lifecycle
  import opened Reachability
  import opened TimeTheorems

  const TICK := Time(0, 1)

  /** Process 2 has exited and is the only child of init. */
  ghost predicate IsZombieBelowInit(ps: Procs) {
    && ps.Keys == {1, 2} && ps[1].children == Some({2}) && !ps[1].zombie && ps[1].tracer == None
    && ps[2].parent == 1 && ps[2].zombie && !ps[2].reaped && ps[2].tracer == None
  }

  lemma ReachableZombie() returns (s: State)
    ensures Reachable(s) && IsZombieBelowInit(s.procs) && s.exits == map[]
  {
    ReachableBoot();
    ReachableFork(BOOT, 1);
    s := Forked(BOOT, 1);
    assert s.procs[1].children.value == {2};
    ReachableStep(s, SearchAndMove(2));
    assert MarkedSearch(s.procs, 1) == 1;
    s := Apply(s, SearchAndMove(2));
    assert s.procs[1].children.value == {2};
    ReachableStep(s, BecomeZombie(2));
    s := Apply(s, BecomeZombie(2));
  }

  lemma ReapsIt(s: State)
    requires IsZombieBelowInit(s.procs) && s.exits == map[]
    ensures var reap := Wait(1, true, {2}, {}, false);
      Enabled(s, reap) && 2 in Apply(s, reap).procs && Apply(s, reap).procs[2].reaped
  {
    assert TraceeHits(s.procs, 1, {2}, {}) == {} && Tracees(s.procs, 1, {2}) == {};
    assert ChildHits(s.procs, 1, {2}, {}) == {2};
    assert Pass(s.procs, 1, true, {2}, {}) == Reported(Zombie(2));
  }

  /** A charge to a reaped process is lost: what is held then falls short of what was charged. */
  lemma ChargeIsLost(s: State, p: Pid)
    requires p in s.procs && s.procs[p].reaped && Inv(Apply(s, Charge(p, TICK)))
    ensures var t := Apply(s, Charge(p, TICK)); Size(t.lost) > 0 && Held(t.procs, t.next) != t.charged
  {
    var t := Apply(s, Charge(p, TICK));
    var held := Held(t.procs, t.next);
    SizeOfSum(s.lost, TICK);
    SizeOfSum(held, t.lost);
    NoLossMeansEqual(held, t.lost);
  }

  /** A reachable state in which some of the time ever charged is accounted for by no process. */
  lemma TimeCanBeLost() returns (s: State)
    ensures Reachable(s) && Size(s.lost) > 0 && Held(s.procs, s.next) != s.charged
  {
    var zombie := ReachableZombie();
    ReapsIt(zombie);
    ReachableStep(zombie, Wait(1, true, {2}, {}, false));
    var reaped := Apply(zombie, Wait(1, true, {2}, {}, false));
    ReachableStep(reaped, Charge(2, TICK));
    s := Apply(reaped, Charge(2, TICK));
    ReachableInv(s);
    ChargeIsLost(reaped, 2);
  }
}
