/** What holds of every run of the process lifecycle. */
module LifecycleTheorems {
  import opened Wrappers
  import opened ProcessTree
  import opened Waiting
  import opened Lifecycle
  import opened LifecycleProofs

  // ---------------------------------------------------------------------------
  // The tree
  // ---------------------------------------------------------------------------

  /** In every state of every run an unreaped process other than init is listed by its parent and by nobody else. */
  lemma RunListsOnce(states: seq<State>, steps: seq<Step>, i: nat, p: Pid)
    requires IsRun(states, steps) && i < |states|
    requires p != INIT && p in states[i].procs && !states[i].procs[p].reaped
    ensures states[i].procs[p].parent in states[i].procs
    ensures forall q | q in states[i].procs ::
              states[i].procs[q].children.Some? && p in states[i].procs[q].children.value
              <==> q == states[i].procs[p].parent
  {
    RunKeepsInv(states, steps, i);
    ListedExactlyOnce(states[i].procs, p);
  }

  /** In every state of every run the chain of parents of an unreaped process gets strictly older and ends at init. */
  lemma RunReachesInit(states: seq<State>, steps: seq<Step>, i: nat, p: Pid)
    requires IsRun(states, steps) && i < |states| && p in states[i].procs && !states[i].procs[p].reaped
    ensures var chain := Chain(states[i].procs, p);
      && chain[|chain| - 1] == INIT
      && forall k | 0 < k < |chain| :: chain[k] < chain[k - 1]
  {
    RunKeepsInv(states, steps, i);
    ChainReachesInit(states[i].procs, p);
  }

  /** In every state of every run the PID table finds exactly the unreaped processes, and counts them. */
  lemma RunTableAgrees(states: seq<State>, steps: seq<Step>, i: nat, p: Pid)
    requires IsRun(states, steps) && i < |states|
    ensures p in states[i].table <==> p in states[i].procs && !states[i].procs[p].reaped
    ensures states[i].count == |Unreaped(states[i].procs)|
  {
    RunKeepsInv(states, steps, i);
  }

  /**
    A clone has to read its parent again only for `CLONE_PARENT`, and then it will read a different
    process, one that does have a `children` map.
   */
  lemma RetrySeesAnotherParent(states: seq<State>, steps: seq<Step>, i: nat, child: Pid)
    requires IsRun(states, steps) && i < |states| && Enabled(states[i], LinkChild(child))
    requires states[i].procs[states[i].clones[child].target.value].children.None?
    ensures var s := states[i];
      var clone := s.clones[child];
      && clone.viaParent && clone.creator in s.procs
      && var again := CloneParent(s, clone.creator, true);
         && again != clone.target.value
         && again in s.procs && s.procs[again].children.Some?
  {
    RunKeepsInv(states, steps, i);
    var s := states[i];
    assert CloneFits(s, child);
    assert Fits(s.procs, s.clones[child].creator);
  }

  /** Without interference, one search and one move are enough: afterwards the process has no children. */
  lemma SearchAndMoveSucceeds(s: State, p: Pid)
    requires Inv(s) && Enabled(s, SearchAndMove(p))
    ensures var r := MarkedSearch(s.procs, s.procs[p].parent);
      && r in s.procs && s.procs[r].children.Some? && r < p
      && Apply(s, SearchAndMove(p)).procs == WithChildrenMoved(s.procs, p, r)
  {
    assert Fits(s.procs, p) && Fits(s.procs, s.procs[p].parent);
    SearchFindsAnOpenAncestor(s.procs, s.procs[p].parent);
  }

  // ---------------------------------------------------------------------------
  // Reaping and reports
  // ---------------------------------------------------------------------------

  /** A process is reaped only by a wait of its parent, as a zombie that nobody else traces. */
  lemma ReapsOnlyOwnUntracedZombies(s: State, step: Step, p: Pid)
    requires Inv(s) && Enabled(s, step) && p in s.procs && !s.procs[p].reaped
    requires p in Apply(s, step).procs && Apply(s, step).procs[p].reaped
    ensures step.Wait? && !step.nowait && s.procs[p].zombie && s.procs[p].parent == step.w
    ensures s.procs[p].tracer == None || s.procs[p].tracer == Some(step.w)
    ensures Apply(s, step).procs[p].tracer == None
  {
    OnlyWaitReaps(s, step, p);
    WaitReaps(s, step.w, step.byMain, step.targets, step.stops, step.nowait, p);
  }

  lemma WaitReaps(s: State, w: Pid, byMain: bool, targets: set<Pid>, stops: set<Pid>, nowait: bool, p: Pid)
    requires Inv(s) && Active(s, w) && p in s.procs && !s.procs[p].reaped
    requires var after := WaitOnce(s, w, byMain, targets, stops, nowait).procs; p in after && after[p].reaped
    ensures !nowait && s.procs[p].zombie && s.procs[p].parent == w
    ensures s.procs[p].tracer == None || s.procs[p].tracer == Some(w)
    ensures WaitOnce(s, w, byMain, targets, stops, nowait).procs[p].tracer == None
  {
    PassReports(s.procs, w, byMain, targets, stops);
    var pass := Pass(s.procs, w, byMain, targets, stops);
    ConsumedReaps(s.procs, w, pass.status, p);
  }

  lemma ConsumedReaps(ps: Procs, w: Pid, status: WaitStatus, p: Pid)
    requires w in ps && ps[w].children.Some? && status.pid in ps && p in ps && !ps[p].reaped
    requires status.TraceeExit? ==> ps[status.pid].zombie && ps[status.pid].tracer == Some(w)
    requires status.Zombie? ==>
               ps[status.pid].zombie && ps[status.pid].tracer.None? && ps[status.pid].parent == w
    requires WithReportConsumed(ps, w, status)[p].reaped
    ensures ps[p].zombie && ps[p].parent == w && (ps[p].tracer == None || ps[p].tracer == Some(w))
    ensures WithReportConsumed(ps, w, status)[p].tracer == None
  {
  }

  lemma OnlyWaitReaps(s: State, step: Step, p: Pid)
    requires Enabled(s, step) && p in s.procs && !s.procs[p].reaped
    requires p in Apply(s, step).procs && Apply(s, step).procs[p].reaped
    ensures step.Wait?
  {
  }

  /** Once reaped, a process stays reaped. */
  lemma ReapedForever(s: State, step: Step, p: Pid)
    requires Inv(s) && Enabled(s, step) && p in s.procs && s.procs[p].reaped
    ensures p in Apply(s, step).procs && Apply(s, step).procs[p].reaped
  {
    if step.LinkChild? {
      assert CloneFits(s, step.child);
    }
    ReapedStays(s, step, p);
  }

  lemma ReapedStays(s: State, step: Step, p: Pid)
    requires Enabled(s, step) && p in s.procs && s.procs[p].reaped && (step.LinkChild? ==> p != step.child)
    ensures p in Apply(s, step).procs && Apply(s, step).procs[p].reaped
  {
    match step {
      case Wait(w, byMain, targets, stops, nowait) => WaitKeepsReaped(s, w, byMain, targets, stops, nowait, p);
      case MoveChildren(_) =>
      case SearchAndMove(_) =>
      case MarkNext(_, _) =>
      case _ => OtherStepKeepsReaped(s, step, p);
    }
  }

  lemma WaitKeepsReaped(s: State, w: Pid, byMain: bool, targets: set<Pid>, stops: set<Pid>, nowait: bool, p: Pid)
    requires Enabled(s, Wait(w, byMain, targets, stops, nowait)) && p in s.procs && s.procs[p].reaped
    ensures var after := WaitOnce(s, w, byMain, targets, stops, nowait).procs; p in after && after[p].reaped
  {
  }

  lemma OtherStepKeepsReaped(s: State, step: Step, p: Pid)
    requires Enabled(s, step) && p in s.procs && s.procs[p].reaped && (step.LinkChild? ==> p != step.child)
    requires !step.Wait? && !step.MoveChildren? && !step.SearchAndMove? && !step.MarkNext?
    ensures p in Apply(s, step).procs && Apply(s, step).procs[p].reaped
  {
  }

  /** The step is a wait that consumes the report of the exit of `p`. */
  ghost predicate ReportsExit(s: State, step: Step, p: Pid) {
    && Enabled(s, step) && step.Wait? && !step.nowait
    && var pass := Pass(s.procs, step.w, step.byMain, step.targets, step.stops);
       pass.Reported? && (pass.status.Zombie? || pass.status.TraceeExit?) && pass.status.pid == p
  }

  /** What such a step writes down: it reaps exactly when the waiter is the parent. */
  lemma ReportWritten(s: State, step: Step, p: Pid)
    requires Inv(s) && ReportsExit(s, step, p)
    ensures p in s.procs && !s.procs[p].reaped
    ensures var asTracee := s.procs[p].tracer == Some(step.w);
      && (!asTracee ==> s.procs[p].parent == step.w)
      && Apply(s, step).reports == s.reports + [Report(step.w, p, asTracee, s.procs[p].parent == step.w)]
  {
    PassReports(s.procs, step.w, step.byMain, step.targets, step.stops);
  }

  lemma ReportsOnlyGrow(s: State, step: Step)
    requires Enabled(s, step)
    ensures s.reports <= Apply(s, step).reports
  {
  }

  lemma {:induction false} ReportsKept(states: seq<State>, steps: seq<Step>, i: nat, j: nat)
    requires IsRun(states, steps) && i <= j < |states|
    ensures states[i].reports <= states[j].reports
  {
    if i < j {
      ReportsKept(states, steps, i, j - 1);
      ReportsKeptOnce(states, steps, j - 1);
    }
  }

  lemma ReportsKeptOnce(states: seq<State>, steps: seq<Step>, i: nat)
    requires IsRun(states, steps) && i < |steps|
    ensures states[i].reports <= states[i + 1].reports
  {
    ReportsOnlyGrow(states[i], steps[i]);
  }

  /**
    If the exit of a process is reported twice in a run, the first report went to a tracer that was
    not its parent. So when tracer and parent are the same process, it hears of the exit as a tracee's
    or as a child's and never as both.
   */
  lemma ExitReportedOnce(states: seq<State>, steps: seq<Step>, first: nat, second: nat, p: Pid)
    requires IsRun(states, steps) && first < second < |steps|
    requires ReportsExit(states[first], steps[first], p) && ReportsExit(states[second], steps[second], p)
    ensures p in states[first].procs && states[first].procs[p].tracer == Some(steps[first].w)
    ensures states[first].procs[p].parent != steps[first].w
  {
    RunKeepsInv(states, steps, first);
    RunKeepsInv(states, steps, second);
    RunKeepsInv(states, steps, second + 1);
    ReportWritten(states[first], steps[first], p);
    ReportWritten(states[second], steps[second], p);
    ReportsKept(states, steps, first + 1, second);
    var i, j := |states[first].reports|, |states[second].reports|;
    var reports := states[second + 1].reports;
    assert reports[i] == states[first + 1].reports[i] && reports[j].pid == p;
    assert ReportFits(states[second + 1], i);
  }

  /** A process has been reaped exactly when one report says so. */
  lemma ReapedWhenReported(states: seq<State>, steps: seq<Step>, n: nat, p: Pid)
    requires IsRun(states, steps) && n < |states|
    ensures (p in states[n].procs && states[n].procs[p].reaped) <==>
            exists i :: 0 <= i < |states[n].reports| && states[n].reports[i].pid == p && states[n].reports[i].reaps
  {
    RunKeepsInv(states, steps, n);
    assert ReapReported(states[n], p);
    if i :| 0 <= i < |states[n].reports| && states[n].reports[i].pid == p && states[n].reports[i].reaps {
      assert ReportFits(states[n], i);
    }
  }

  // ---------------------------------------------------------------------------
  // Retries
  // ---------------------------------------------------------------------------

  /** The processes that have handed their children over. */
  ghost function Closed(ps: Procs): set<Pid> {
    set p | p in ps && ps[p].children.None?
  }

  ghost predicate IsClosed(ps: Procs, p: Pid) {
    p in ps && ps[p].children.None?
  }

  /** No process ever lists children again once it has handed them over. */
  lemma ClosedStays(s: State, step: Step, p: Pid)
    requires Inv(s) && Enabled(s, step) && IsClosed(s.procs, p)
    ensures IsClosed(Apply(s, step).procs, p)
  {
    match step {
      case LinkChild(child) => assert CloneFits(s, child);
      case Wait(w, byMain, targets, stops, nowait) => WaitKeepsClosed(s, w, byMain, targets, stops, nowait, p);
      case SearchAndMove(q) => MoveKeepsClosed(s, q, MarkedSearch(s.procs, s.procs[q].parent), p);
      case MoveChildren(q) => MoveKeepsClosed(s, q, s.exits[q].reaper, p);
      case _ => OtherStepKeepsClosed(s, step, p);
    }
  }

  lemma WaitKeepsClosed(s: State, w: Pid, byMain: bool, targets: set<Pid>, stops: set<Pid>, nowait: bool, p: Pid)
    requires Enabled(s, Wait(w, byMain, targets, stops, nowait)) && IsClosed(s.procs, p)
    ensures IsClosed(WaitOnce(s, w, byMain, targets, stops, nowait).procs, p)
  {
  }

  lemma MoveKeepsClosed(s: State, q: Pid, r: Pid, p: Pid)
    requires q in s.procs && s.procs[q].children.Some? && IsClosed(s.procs, p)
    ensures r in s.procs ==> IsClosed(Move(s, q, r).procs, p)
  {
  }

  lemma OtherStepKeepsClosed(s: State, step: Step, p: Pid)
    requires Enabled(s, step) && IsClosed(s.procs, p)
    requires !step.LinkChild? && !step.Wait? && !step.MoveChildren? && !step.SearchAndMove?
    ensures IsClosed(Apply(s, step).procs, p)
  {
  }

  lemma ClosedGrows(s: State, step: Step)
    requires Inv(s) && Enabled(s, step)
    ensures Closed(s.procs) <= Closed(Apply(s, step).procs)
    ensures |Closed(s.procs)| <= |Closed(Apply(s, step).procs)|
    ensures Closed(s.procs) != Closed(Apply(s, step).procs) ==> |Closed(s.procs)| < |Closed(Apply(s, step).procs)|
  {
    var before, after := Closed(s.procs), Closed(Apply(s, step).procs);
    forall p | p in before
      ensures p in after
    {
      ClosedStays(s, step, p);
    }
    Larger(before, after);
  }

  lemma {:induction false} Larger(a: set<Pid>, b: set<Pid>)
    requires a <= b
    ensures |a| <= |b| && (a != b ==> |a| < |b|)
  {
    var rest := b - a;
    assert b == a + rest && a !! rest;
    assert |b| == |a| + |rest|;
  }

  /** A clone finds the parent it has read without a `children` map and has to read again. */
  ghost predicate LinkFails(s: State, step: Step, child: Pid) {
    Enabled(s, step) && step == LinkChild(child) && IsClosed(s.procs, s.clones[child].target.value)
  }

  /** An exit finds the reaper it has chosen without a `children` map and has to search again. */
  ghost predicate MoveFails(s: State, step: Step, p: Pid) {
    Enabled(s, step) && step == MoveChildren(p) && IsClosed(s.procs, s.exits[p].reaper)
  }

  /** The clone remembers a process that has handed its children over since. */
  ghost predicate CloneIsStale(s: State, child: Pid) {
    child in s.clones && s.clones[child].target.Some? && IsClosed(s.procs, s.clones[child].target.value)
  }

  /** The exit remembers a process that has handed its children over since. */
  ghost predicate ExitIsStale(s: State, p: Pid) {
    p in s.exits && match s.exits[p]
                    case Searching(at) => IsClosed(s.procs, at)
                    case FoundReaper(r) => IsClosed(s.procs, r)
                    case SearchAgain => false
  }

  lemma ReadsFreshParent(s: State, child: Pid)
    requires Inv(s) && Enabled(s, ReadParent(child))
    ensures !IsClosed(s.procs, CloneParent(s, s.clones[child].creator, s.clones[child].viaParent))
  {
    assert CloneFits(s, child) && Fits(s.procs, s.clones[child].creator);
  }

  lemma OthersKeepTarget(s: State, step: Step, child: Pid)
    requires Enabled(s, step) && child in Apply(s, step).clones && Apply(s, step).clones[child].target.Some?
    requires step != ReadParent(child)
    ensures child in s.clones && Apply(s, step).clones[child] == s.clones[child] && step != LinkChild(child)
  {
  }

  /** What is remembered becomes stale only in a step in which some process hands its children over. */
  lemma CloneTurnsStale(s: State, step: Step, child: Pid)
    requires Inv(s) && Enabled(s, step) && CloneIsStale(Apply(s, step), child)
    requires Closed(Apply(s, step).procs) == Closed(s.procs)
    ensures CloneIsStale(s, child) && !LinkFails(s, step, child)
  {
    SameClosed(s.procs, Apply(s, step).procs);
    if step == ReadParent(child) {
      ReadsFreshParent(s, child);
    } else {
      OthersKeepTarget(s, step, child);
    }
  }

  lemma SearchStartsFresh(s: State, p: Pid)
    requires Inv(s) && Enabled(s, StartSearch(p))
    ensures !IsClosed(s.procs, s.procs[p].parent)
  {
    assert Fits(s.procs, p) && ExitFits(s, p);
  }

  /** From an open process the climb gets to an open process. */
  lemma ClimbStaysFresh(s: State, p: Pid, lost: bool)
    requires Inv(s) && Enabled(s, ClimbOne(p, lost)) && !IsClosed(s.procs, s.exits[p].at)
    ensures match Climb(s.procs, p, s.exits[p].at, lost)
            case Searching(at) => !IsClosed(s.procs, at)
            case FoundReaper(r) => !IsClosed(s.procs, r)
            case SearchAgain => true
  {
    assert ExitFits(s, p) && Fits(s.procs, p) && Fits(s.procs, s.exits[p].at);
  }

  lemma OthersKeepMemory(s: State, step: Step, p: Pid)
    requires Enabled(s, step) && p in Apply(s, step).exits
    requires step != StartSearch(p) && !(step.ClimbOne? && step.p == p)
    requires step != MoveChildren(p) && step != SearchAndMove(p)
    ensures p in s.exits && Apply(s, step).exits[p] == s.exits[p]
  {
  }

  lemma ExitTurnsStale(s: State, step: Step, p: Pid)
    requires Inv(s) && Enabled(s, step) && ExitIsStale(Apply(s, step), p)
    requires Closed(Apply(s, step).procs) == Closed(s.procs)
    ensures ExitIsStale(s, p) && !MoveFails(s, step, p)
  {
    SameClosed(s.procs, Apply(s, step).procs);
    if step == StartSearch(p) {
      SearchStartsFresh(s, p);
    } else if step.ClimbOne? && step.p == p {
      ClimbTurnsStale(s, p, step.lost);
    } else if step != MoveChildren(p) && step != SearchAndMove(p) {
      OthersKeepMemory(s, step, p);
    }
  }

  lemma ClimbTurnsStale(s: State, p: Pid, lost: bool)
    requires Inv(s) && Enabled(s, ClimbOne(p, lost)) && ExitIsStale(Apply(s, ClimbOne(p, lost)), p)
    ensures ExitIsStale(s, p)
  {
    if !IsClosed(s.procs, s.exits[p].at) {
      ClimbStaysFresh(s, p, lost);
    }
  }

  lemma SameClosed(ps: Procs, after: Procs)
    requires Closed(after) == Closed(ps)
    ensures forall p: Pid :: IsClosed(after, p) <==> IsClosed(ps, p)
  {
    forall p: Pid
      ensures IsClosed(after, p) <==> IsClosed(ps, p)
    {
      assert p in Closed(after) <==> p in Closed(ps);
    }
  }

  ghost function FailedLinks(states: seq<State>, steps: seq<Step>, child: Pid, i: nat): nat
    requires i <= |steps| < |states|
  {
    if i == 0 then 0
    else FailedLinks(states, steps, child, i - 1) + if LinkFails(states[i - 1], steps[i - 1], child) then 1 else 0
  }

  ghost function FailedMoves(states: seq<State>, steps: seq<Step>, p: Pid, i: nat): nat
    requires i <= |steps| < |states|
  {
    if i == 0 then 0
    else FailedMoves(states, steps, p, i - 1) + if MoveFails(states[i - 1], steps[i - 1], p) then 1 else 0
  }

  /** A clone reads its parent again at most as often as processes hand their children over. */
  lemma {:induction false} CloneRetriesBounded(states: seq<State>, steps: seq<Step>, child: Pid, i: nat)
    requires IsRun(states, steps) && i < |states|
    ensures FailedLinks(states, steps, child, i) + (if CloneIsStale(states[i], child) then 1 else 0)
            <= |Closed(states[i].procs)|
  {
    if i > 0 {
      var s, step := states[i - 1], steps[i - 1];
      CloneRetriesBounded(states, steps, child, i - 1);
      RunKeepsInv(states, steps, i - 1);
      ClosedGrows(s, step);
      if CloneIsStale(states[i], child) && Closed(states[i].procs) == Closed(s.procs) {
        CloneTurnsStale(s, step, child);
      }
    }
  }

  /** An exit searches again at most as often as processes hand their children over. */
  lemma {:induction false} ExitRetriesBounded(states: seq<State>, steps: seq<Step>, p: Pid, i: nat)
    requires IsRun(states, steps) && i < |states|
    ensures FailedMoves(states, steps, p, i) + (if ExitIsStale(states[i], p) then 1 else 0)
            <= |Closed(states[i].procs)|
  {
    if i > 0 {
      var s, step := states[i - 1], steps[i - 1];
      ExitRetriesBounded(states, steps, p, i - 1);
      RunKeepsInv(states, steps, i - 1);
      ClosedGrows(s, step);
      if ExitIsStale(states[i], p) && Closed(states[i].procs) == Closed(s.procs) {
        ExitTurnsStale(s, step, p);
      }
    }
  }
}
