/** Every step of the process lifecycle keeps its invariant, and what follows for whole runs. */
module LifecycleProofs {
  import opened Wrappers
  import opened ProcessTree
  import opened Waiting
  import opened Lifecycle

  lemma {:induction false} NothingAdded(ps: Procs, n: nat)
    requires forall p: Pid | p < n :: Share(ps, p) == ZERO
    ensures Held(ps, n) == Held(ps, 0)
  {
    if n > 0 {
      NothingAdded(ps, n - 1);
      PlusNothing(Held(ps, n - 1));
    }
  }

  lemma InitHoldsNothing(ps: Procs, n: nat)
    requires ps == map[INIT := NewProc(0, false)]
    ensures Held(ps, n) == ZERO
  {
    forall p: Pid | p < n
      ensures Share(ps, p) == ZERO
    {
      InitShare(ps, p);
    }
    NothingAdded(ps, n);
  }

  lemma InitShare(ps: Procs, p: Pid)
    requires ps == map[INIT := NewProc(0, false)]
    ensures Share(ps, p) == ZERO
  {
    if p == INIT {
      assert ps[p].own == ZERO && ps[p].reapedTime == ZERO;
    }
  }

  lemma InitAloneTree(ps: Procs)
    requires ps == map[INIT := NewProc(0, false)]
    ensures Tree(ps)
  {
    forall p: Pid
      ensures Fits(ps, p)
    {
    }
  }

  lemma NoMemories(s: State)
    requires s.procs.Keys == {INIT} && s.next == 2 && s.clones.Keys == {} && s.exits.Keys == {}
    ensures MemoriesFit(s)
  {
  }

  lemma InitTableAgrees(s: State)
    requires s.procs == map[INIT := NewProc(0, false)] && s.table == {INIT} && s.count == 1
    ensures TableAgrees(s)
  {
    assert Unreaped(s.procs) == {INIT};
  }

  lemma NoReports(s: State)
    requires s.procs == map[INIT := NewProc(0, false)] && s.reports == []
    ensures ReportedOnce(s)
  {
  }

  lemma BootInv(s: State)
    requires s == BOOT
    ensures Inv(s)
  {
    InitAloneTree(s.procs);
    assert Tree(s.procs);
    NoMemories(s);
    InitTableAgrees(s);
    InitHoldsNothing(s.procs, s.next);
    PlusNothing(Held(s.procs, s.next));
    NoReports(s);
  }

  // ---------------------------------------------------------------------------
  // Parts of the invariant that many steps leave alone
  // ---------------------------------------------------------------------------

  /** Memories stay valid when no process loses its children and no parent changes. */
  lemma FrameMemories(s: State, after: Procs)
    requires MemoriesFit(s) && after.Keys == s.procs.Keys
    requires forall p | p in s.procs ::
               after[p].parent == s.procs[p].parent && after[p].zombie == s.procs[p].zombie
               && after[p].children.Some? == s.procs[p].children.Some?
    ensures MemoriesFit(s.(procs := after))
  {
    var t := s.(procs := after);
    forall c: Pid
      ensures CloneFits(t, c)
    {
      assert CloneFits(s, c);
    }
    forall p: Pid
      ensures ExitFits(t, p)
    {
      assert ExitFits(s, p);
    }
  }

  lemma FrameReports(s: State, after: Procs)
    requires ReportedOnce(s) && s.procs.Keys <= after.Keys
    requires forall p | p in after :: after[p].reaped <==> p in s.procs && s.procs[p].reaped
    ensures ReportedOnce(s.(procs := after))
  {
    var t := s.(procs := after);
    forall i | 0 <= i < |t.reports|
      ensures ReportFits(t, i)
    {
      assert ReportFits(s, i);
    }
    forall p: Pid
      ensures ReapReported(t, p)
    {
      assert ReapReported(s, p);
    }
  }

  /** A step that changes only marks, tracers or charged time. */
  lemma SameShapeKeepsInv(s: State, after: Procs, charged: Time, lost: Time)
    requires Inv(s) && SameShape(s.procs, after)
    requires Held(after, s.next).Plus(lost) == charged
    ensures Inv(s.(procs := after, charged := charged, lost := lost))
  {
    SameShapeKeepsTree(s.procs, after);
    FrameMemories(s, after);
    FrameReports(s, after);
    var t := s.(procs := after);
    var u := t.(charged := charged, lost := lost);
    assert Unreaped(after) == Unreaped(s.procs);
    forall c: Pid
      ensures CloneFits(u, c)
    {
      assert CloneFits(t, c);
    }
    forall p: Pid
      ensures ExitFits(u, p)
    {
      assert ExitFits(t, p);
    }
    ReportsCopied(t, u);
  }

  /** The part about reports depends on the records and the reports only. */
  lemma ReportsCopied(s: State, t: State)
    requires ReportedOnce(s) && t.procs == s.procs && t.reports == s.reports
    ensures ReportedOnce(t)
  {
    forall i | 0 <= i < |t.reports|
      ensures ReportFits(t, i)
    {
      assert ReportFits(s, i);
    }
    forall p: Pid
      ensures ReapReported(t, p)
    {
      assert ReapReported(s, p);
    }
  }

  // ---------------------------------------------------------------------------
  // Clone
  // ---------------------------------------------------------------------------

  /** A thread ID or the PID of a clone: the counter moves on and no process has the number yet. */
  lemma CounterKeepsInv(s: State)
    requires Inv(s)
    ensures Inv(s.(next := s.next + 1))
  {
    var t := s.(next := s.next + 1);
    forall c: Pid
      ensures CloneFits(t, c)
    {
      assert CloneFits(s, c);
    }
    forall p: Pid
      ensures ExitFits(t, p)
    {
      assert ExitFits(s, p);
    }
    assert Share(s.procs, s.next) == ZERO;
    PlusNothing(Held(s.procs, s.next));
    ReportsCopied(s, t);
  }

  lemma AllocateKeepsInv(s: State, creator: Pid, viaParent: bool)
    requires Inv(s) && Enabled(s, AllocateChild(creator, viaParent))
    ensures Inv(Apply(s, AllocateChild(creator, viaParent)))
  {
    var t := Apply(s, AllocateChild(creator, viaParent));
    CounterKeepsInv(s);
    forall c: Pid
      ensures CloneFits(t, c)
    {
      assert CloneFits(s, c);
    }
    forall p: Pid
      ensures ExitFits(t, p)
    {
      assert ExitFits(s, p);
    }
    ReportsCopied(s, t);
  }

  /** A clone may still fail after it has taken its PID; the PID is then never used. */
  lemma AbandonKeepsInv(s: State, child: Pid)
    requires Inv(s) && Enabled(s, AbandonClone(child))
    ensures Inv(Apply(s, AbandonClone(child)))
  {
    var t := Apply(s, AbandonClone(child));
    forall c: Pid
      ensures CloneFits(t, c)
    {
      assert CloneFits(s, c);
    }
    forall p: Pid
      ensures ExitFits(t, p)
    {
      assert ExitFits(s, p);
    }
    ReportsCopied(s, t);
  }

  lemma ReadParentKeepsInv(s: State, child: Pid)
    requires Inv(s) && Enabled(s, ReadParent(child))
    ensures Inv(Apply(s, ReadParent(child)))
  {
    var t := Apply(s, ReadParent(child));
    forall c: Pid
      ensures CloneFits(t, c)
    {
      assert CloneFits(s, c);
      if c == child {
        assert Fits(s.procs, s.clones[child].creator);
      }
    }
    forall p: Pid
      ensures ExitFits(t, p)
    {
      assert ExitFits(s, p);
    }
    ReportsCopied(s, t);
  }

  lemma LinkKeepsClones(s: State, child: Pid)
    requires MemoriesFit(s) && Enabled(s, LinkChild(child))
    ensures forall c: Pid :: CloneFits(Apply(s, LinkChild(child)), c)
  {
    assert CloneFits(s, child);
    forall c: Pid
      ensures CloneFits(Apply(s, LinkChild(child)), c)
    {
      assert CloneFits(s, c);
    }
  }

  lemma LinkKeepsMemories(s: State, child: Pid)
    requires MemoriesFit(s) && Enabled(s, LinkChild(child))
    ensures MemoriesFit(Apply(s, LinkChild(child)))
  {
    LinkKeepsClones(s, child);
    assert CloneFits(s, child);
    forall p: Pid
      ensures ExitFits(Apply(s, LinkChild(child)), p)
    {
      assert ExitFits(s, p);
    }
  }

  lemma LinkKeepsAccounts(s: State, child: Pid, target: Pid)
    requires Inv(s) && child !in s.procs && target in s.procs && s.procs[target].children.Some?
    ensures Unreaped(WithChild(s.procs, child, target)) == Unreaped(s.procs) + {child}
    ensures Held(WithChild(s.procs, child, target), s.next) == Held(s.procs, s.next)
    ensures ReportedOnce(s.(procs := WithChild(s.procs, child, target)))
  {
    var after := WithChild(s.procs, child, target);
    UnreapedWithChild(s.procs, child, target);
    forall p: Pid | p < s.next
      ensures Share(after, p) == Share(s.procs, p)
    {
    }
    HeldUnchanged(s.procs, after, s.next);
    FrameReports(s, after);
  }

  lemma LinkKeepsInv(s: State, child: Pid)
    requires Inv(s) && Enabled(s, LinkChild(child))
    ensures Inv(Apply(s, LinkChild(child)))
  {
    var t := Apply(s, LinkChild(child));
    var target := s.clones[child].target.value;
    LinkKeepsMemories(s, child);
    assert CloneFits(s, child);
    if s.procs[target].children.Some? {
      WithChildKeepsTree(s.procs, child, target);
      LinkKeepsAccounts(s, child, target);
      ReportsCopied(s.(procs := t.procs), t);
    } else {
      ReportsCopied(s, t);
    }
  }

  // ---------------------------------------------------------------------------
  // Exit
  // ---------------------------------------------------------------------------

  lemma ExitMemoryKeepsInv(s: State, p: Pid, exit: Exit)
    requires Inv(s) && p != INIT && p in s.procs && (p in s.exits || MayExit(s, p))
    requires exit.Searching? ==> exit.at in s.procs && exit.at < p
    requires exit.FoundReaper? ==> exit.reaper in s.procs && exit.reaper < p
    ensures Inv(s.(exits := s.exits[p := exit]))
  {
    var t := s.(exits := s.exits[p := exit]);
    forall c: Pid
      ensures CloneFits(t, c)
    {
      assert CloneFits(s, c);
    }
    forall q: Pid
      ensures ExitFits(t, q)
    {
      assert ExitFits(s, q);
    }
    ReportsCopied(s, t);
  }

  lemma StartSearchKeepsInv(s: State, p: Pid)
    requires Inv(s) && Enabled(s, StartSearch(p))
    ensures Inv(Apply(s, StartSearch(p)))
  {
    assert Fits(s.procs, p);
    ExitMemoryKeepsInv(s, p, Searching(s.procs[p].parent));
  }

  lemma ClimbKeepsInv(s: State, p: Pid, lost: bool)
    requires Inv(s) && Enabled(s, ClimbOne(p, lost))
    ensures Inv(Apply(s, ClimbOne(p, lost)))
  {
    assert ExitFits(s, p);
    assert Fits(s.procs, p) && Fits(s.procs, s.exits[p].at);
    ExitMemoryKeepsInv(s, p, Climb(s.procs, p, s.exits[p].at, lost));
  }

  lemma MoveKeepsMemories(s: State, p: Pid, r: Pid)
    requires Inv(s) && p in s.procs && p != INIT && s.procs[p].children.Some?
    requires r in s.procs && r < p && s.procs[r].children.Some?
    requires p in s.exits || MayExit(s, p)
    ensures MemoriesFit(s.(procs := WithChildrenMoved(s.procs, p, r), exits := s.exits - {p}))
  {
    var t := s.(procs := WithChildrenMoved(s.procs, p, r), exits := s.exits - {p});
    assert Fits(s.procs, p);
    forall c: Pid
      ensures CloneFits(t, c)
    {
      assert CloneFits(s, c);
    }
    forall q: Pid
      ensures ExitFits(t, q)
    {
      assert ExitFits(s, q);
    }
  }

  lemma MoveKeepsInv(s: State, p: Pid, r: Pid)
    requires Inv(s) && p in s.procs && p != INIT && s.procs[p].children.Some? && !s.procs[p].zombie
    requires r in s.procs && r < p && (s.procs[r].children.None? ==> p in s.exits)
    requires p in s.exits || MayExit(s, p)
    ensures Inv(Move(s, p, r))
  {
    if s.procs[r].children.None? {
      ExitMemoryKeepsInv(s, p, SearchAgain);
    } else {
      MoveKeepsTree(s.procs, p, r);
      MoveKeepsMemories(s, p, r);
      MoveConservesTime(s.procs, p, r, s.next);
      MoveKeepsReports(s, p, r);
    }
  }

  lemma MoveKeepsReports(s: State, p: Pid, r: Pid)
    requires ReportedOnce(s) && TableAgrees(s) && p in s.procs && s.procs[p].children.Some?
    requires r in s.procs && s.procs[r].children.Some?
    ensures ReportedOnce(Move(s, p, r)) && TableAgrees(Move(s, p, r))
  {
    var after := WithChildrenMoved(s.procs, p, r);
    assert Unreaped(after) == Unreaped(s.procs);
    FrameReports(s, after);
    ReportsCopied(s.(procs := after), Move(s, p, r));
  }

  lemma MoveChildrenKeepsInv(s: State, p: Pid)
    requires Inv(s) && Enabled(s, MoveChildren(p))
    ensures Inv(Apply(s, MoveChildren(p)))
  {
    assert ExitFits(s, p);
    MoveKeepsInv(s, p, s.exits[p].reaper);
  }

  lemma SearchAndMoveKeepsInv(s: State, p: Pid)
    requires Inv(s) && Enabled(s, SearchAndMove(p))
    ensures Inv(Apply(s, SearchAndMove(p)))
  {
    var q := s.procs[p].parent;
    assert Fits(s.procs, p) && Fits(s.procs, q);
    SearchFindsAnOpenAncestor(s.procs, q);
    MoveKeepsInv(s, p, MarkedSearch(s.procs, q));
  }

  lemma ZombieKeepsInv(s: State, p: Pid)
    requires Inv(s) && Enabled(s, BecomeZombie(p))
    ensures Inv(Apply(s, BecomeZombie(p)))
  {
    var t := Apply(s, BecomeZombie(p));
    ZombieKeepsTree(s.procs, p);
    forall c: Pid
      ensures CloneFits(t, c)
    {
      assert CloneFits(s, c);
    }
    forall q: Pid
      ensures ExitFits(t, q)
    {
      assert ExitFits(s, q);
    }
    assert Unreaped(t.procs) == Unreaped(s.procs);
    HeldUnchanged(s.procs, t.procs, s.next);
    FrameReports(s, t.procs);
  }

  // ---------------------------------------------------------------------------
  // Wait
  // ---------------------------------------------------------------------------

  /** Reaping a zombie child that is not traced. */
  lemma ReapKeepsInv(s: State, w: Pid, c: Pid, asTracee: bool)
    requires Inv(s) && w in s.procs && s.procs[w].children.Some? && c in s.procs[w].children.value
    requires c in s.procs && s.procs[c].zombie && s.procs[c].tracer.None?
    ensures Inv(s.(procs := WithReaped(s.procs, w, c), table := s.table - {c}, count := s.count - 1,
                   reports := s.reports + [Report(w, c, asTracee, true)]))
  {
    var after := WithReaped(s.procs, w, c);
    var t := s.(procs := after, table := s.table - {c}, count := s.count - 1,
                reports := s.reports + [Report(w, c, asTracee, true)]);
    assert Fits(s.procs, w) && Fits(s.procs, c);
    ReapKeepsTree(s.procs, w, c);
    FrameMemories(s, after);
    MemoriesCopied(s.(procs := after), t);
    assert Unreaped(after) == Unreaped(s.procs) - {c};
    ReapConservesTime(s.procs, w, c, s.next);
    ReportAppended(s, t);
  }

  lemma MemoriesCopied(s: State, t: State)
    requires MemoriesFit(s) && t.procs == s.procs && t.next == s.next && t.clones == s.clones && t.exits == s.exits
    ensures MemoriesFit(t)
  {
    forall c: Pid
      ensures CloneFits(t, c)
    {
      assert CloneFits(s, c);
    }
    forall q: Pid
      ensures ExitFits(t, q)
    {
      assert ExitFits(s, q);
    }
  }

  /** A new report is about a process that no earlier report has reaped. */
  lemma ReportAppended(s: State, t: State)
    requires ReportedOnce(s) && t.procs.Keys == s.procs.Keys
    requires |t.reports| == |s.reports| + 1 && t.reports[..|s.reports|] == s.reports
    requires var r := t.reports[|s.reports|];
      && r.pid in s.procs && !s.procs[r.pid].reaped && (!r.asTracee ==> r.reaps)
      && forall p | p in s.procs :: t.procs[p].reaped <==> s.procs[p].reaped || (r.reaps && p == r.pid)
    ensures ReportedOnce(t)
  {
    var n := |s.reports|;
    assert forall i | 0 <= i < n :: t.reports[i] == s.reports[i];
    forall i | 0 <= i < |t.reports|
      ensures ReportFits(t, i)
    {
      if i < n {
        assert ReportFits(s, i);
      }
    }
    forall p: Pid
      ensures ReapReported(t, p)
    {
      assert ReapReported(s, p);
      if p in s.procs && s.procs[p].reaped {
        var i :| 0 <= i < n && s.reports[i].pid == p && s.reports[i].reaps;
        assert t.reports[i].pid == p && t.reports[i].reaps;
      } else if p in t.procs && t.procs[p].reaped {
        assert t.reports[n].pid == p && t.reports[n].reaps;
      }
    }
  }

  lemma ReleaseKeepsInv(s: State, w: Pid, p: Pid)
    requires Inv(s) && w in s.procs && s.procs[w].children.Some?
    requires p in s.procs && !s.procs[p].reaped && s.procs[p].zombie && s.procs[p].tracer == Some(w)
    ensures Inv(Consume(s, w, TraceeExit(p)))
  {
    var detached := s.procs[p := s.procs[p].(tracer := None)];
    HeldUnchanged(s.procs, detached, s.next);
    SameShapeKeepsInv(s, detached, s.charged, s.lost);
    var d := s.(procs := detached);
    assert d == s.(procs := detached, charged := s.charged, lost := s.lost);
    if s.procs[p].parent == w {
      assert Fits(s.procs, p) && Fits(detached, p);
      ReapKeepsInv(d, w, p, true);
    } else {
      var t := Consume(s, w, TraceeExit(p));
      MemoriesCopied(d, t);
      ReportAppended(d, t);
    }
  }

  lemma WaitKeepsInv(s: State, w: Pid, byMain: bool, targets: set<Pid>, stops: set<Pid>, nowait: bool)
    requires Inv(s) && Enabled(s, Wait(w, byMain, targets, stops, nowait))
    ensures Inv(Apply(s, Wait(w, byMain, targets, stops, nowait)))
  {
    var pass := Pass(s.procs, w, byMain, targets, stops);
    PassReports(s.procs, w, byMain, targets, stops);
    if pass.Reported? && !nowait {
      match pass.status {
        case TraceeExit(p) => ReleaseKeepsInv(s, w, p);
        case Zombie(c) => ReapKeepsInv(s, w, c, false);
        case Stop(_) =>
        case TraceeStop(_) =>
      }
    }
  }

  // ---------------------------------------------------------------------------
  // Tracing, subreapers and time
  // ---------------------------------------------------------------------------

  lemma FieldChangeKeepsShape(s: State, step: Step)
    requires Enabled(s, step) && (step.Detach? ==> Fits(s.procs, step.p))
    requires step.Attach? || step.Detach? || step.SetSubreaper? || step.MarkNext? || step.UnsetSubreaper?
    ensures var t := Apply(s, step);
      && t == s.(procs := t.procs, marking := t.marking) && SameShape(s.procs, t.procs)
      && forall p: Pid :: Share(t.procs, p) == Share(s.procs, p)
  {
    match step {
      case MarkNext(_, q) => MarkingKeepsShape(s.procs, q);
      case Attach(tracer, p) => OneFieldKeepsShape(s.procs, p, s.procs[p].(tracer := Some(tracer)));
      case Detach(p) => OneFieldKeepsShape(s.procs, p, s.procs[p].(tracer := None));
      case SetSubreaper(p) => OneFieldKeepsShape(s.procs, p, s.procs[p].(subreaper := true, marked := true));
      case UnsetSubreaper(p) => OneFieldKeepsShape(s.procs, p, s.procs[p].(subreaper := false));
    }
  }

  lemma OneFieldKeepsShape(ps: Procs, p: Pid, now: Proc)
    requires p in ps && (ps[p].reaped ==> now.tracer == ps[p].tracer)
    requires now == ps[p].(tracer := now.tracer, subreaper := now.subreaper, marked := now.marked)
    ensures SameShape(ps, ps[p := now]) && forall q: Pid :: Share(ps[p := now], q) == Share(ps, q)
  {
  }

  lemma MarkingKeepsShape(ps: Procs, q: Pid)
    requires q in ps
    ensures var after := WithChildrenMarked(ps, q);
      SameShape(ps, after) && forall p: Pid :: Share(after, p) == Share(ps, p)
  {
  }

  /** What is still to be marked does not matter for the invariant. */
  lemma MarkingIsFree(s: State, marking: map<Pid, set<Pid>>)
    requires Inv(s)
    ensures Inv(s.(marking := marking))
  {
    MemoriesCopied(s, s.(marking := marking));
    ReportsCopied(s, s.(marking := marking));
  }

  lemma FieldChangeKeepsInv(s: State, step: Step)
    requires Inv(s) && Enabled(s, step)
    requires step.Attach? || step.Detach? || step.SetSubreaper? || step.MarkNext? || step.UnsetSubreaper?
    ensures Inv(Apply(s, step))
  {
    var t := Apply(s, step);
    FieldChangeKeepsShape(s, step);
    HeldUnchanged(s.procs, t.procs, s.next);
    SameShapeKeepsInv(s, t.procs, s.charged, s.lost);
    MarkingIsFree(s.(procs := t.procs, charged := s.charged, lost := s.lost), t.marking);
  }

  /** Charging adds to what is held or, for a reaped process, to what is lost. */
  lemma ChargeIsHeldOrLost(s: State, p: Pid, time: Time)
    requires TimeConserved(s) && p in s.procs && p < s.next
    ensures var t := Apply(s, Charge(p, time)); Held(t.procs, t.next).Plus(t.lost) == t.charged
  {
    var t := Apply(s, Charge(p, time));
    HeldChangedAt(s.procs, t.procs, s.next, p);
  }

  lemma ChargeKeepsInv(s: State, p: Pid, time: Time)
    requires Inv(s) && Enabled(s, Charge(p, time))
    ensures Inv(Apply(s, Charge(p, time)))
  {
    var t := Apply(s, Charge(p, time));
    ChargeIsHeldOrLost(s, p, time);
    SameShapeKeepsInv(s, t.procs, t.charged, t.lost);
    assert t == s.(procs := t.procs, charged := t.charged, lost := t.lost);
  }

  /** Every step keeps the invariant. */
  lemma StepKeepsInv(s: State, step: Step)
    requires Inv(s) && Enabled(s, step)
    ensures Inv(Apply(s, step))
  {
    match step {
      case AllocateChild(creator, viaParent) => AllocateKeepsInv(s, creator, viaParent);
      case TakeThreadId => CounterKeepsInv(s);
      case AbandonClone(child) => AbandonKeepsInv(s, child);
      case ReadParent(child) => ReadParentKeepsInv(s, child);
      case LinkChild(child) => LinkKeepsInv(s, child);
      case StartSearch(p) => StartSearchKeepsInv(s, p);
      case ClimbOne(p, lost) => ClimbKeepsInv(s, p, lost);
      case MoveChildren(p) => MoveChildrenKeepsInv(s, p);
      case SearchAndMove(p) => SearchAndMoveKeepsInv(s, p);
      case BecomeZombie(p) => ZombieKeepsInv(s, p);
      case Wait(w, byMain, targets, stops, nowait) => WaitKeepsInv(s, w, byMain, targets, stops, nowait);
      case Charge(p, time) => ChargeKeepsInv(s, p, time);
      case Attach(_, _) => FieldChangeKeepsInv(s, step);
      case Detach(_) => FieldChangeKeepsInv(s, step);
      case SetSubreaper(_) => FieldChangeKeepsInv(s, step);
      case MarkNext(_, _) => FieldChangeKeepsInv(s, step);
      case UnsetSubreaper(_) => FieldChangeKeepsInv(s, step);
    }
  }

  /** The invariant holds in every state of every run. */
  lemma {:induction false} RunKeepsInv(states: seq<State>, steps: seq<Step>, i: nat)
    requires IsRun(states, steps) && i < |states|
    ensures Inv(states[i])
  {
    if i == 0 {
      BootInv(states[0]);
    } else {
      RunKeepsInv(states, steps, i - 1);
      StepKeepsInv(states[i - 1], steps[i - 1]);
    }
  }
}
