/**
  One pass of `wait` over tracees and children (kernel/src/process/wait.rs), as functions on the
  process records. The filter of the caller is the set `targets` of PIDs it accepts. Which processes
  have a stop or continue status to report is not modelled; `stops` names them.
 */
module Waiting {
  import opened Wrappers
  import opened ProcessTree

  datatype WaitStatus = Zombie(pid: Pid) | Stop(pid: Pid) | TraceeExit(pid: Pid) | TraceeStop(pid: Pid)

  datatype WaitResult = Found(status: WaitStatus) | MatchedButUnready | NoMatch

  /** What the caller of `wait` gets from one pass: a report, `ECHILD`, or nothing yet. */
  datatype PassResult = Reported(status: WaitStatus) | NoChild | NothingYet

  predicate IsLeast(m: Pid, s: set<Pid>) {
    m in s && forall x | x in s :: m <= x
  }

  lemma {:induction false} LeastExists(s: set<Pid>)
    requires s != {}
    ensures exists m :: IsLeast(m, s)
    decreases |s|
  {
    var m :| m in s;
    var rest := s - {m};
    assert s == rest + {m};
    if rest == {} {
      assert IsLeast(m, s);
    } else {
      LeastExists(rest);
      var k :| IsLeast(k, rest);
      assert IsLeast(if k < m then k else m, s);
    }
  }

  /** The maps are scanned in ascending order, so the first hit is the least. */
  ghost function Least(s: set<Pid>): (m: Pid)
    requires s != {}
    ensures IsLeast(m, s)
  {
    LeastExists(s);
    var m :| IsLeast(m, s);
    m
  }

  // ---------------------------------------------------------------------------
  // Tracees
  // ---------------------------------------------------------------------------

  ghost function Tracees(ps: Procs, w: Pid, targets: set<Pid>): set<Pid> {
    set p | p in ps && p in targets && ps[p].tracer == Some(w)
  }

  /** A main-thread tracee is reported as exited only once its whole process is a zombie. */
  ghost function TraceeHits(ps: Procs, w: Pid, targets: set<Pid>, stops: set<Pid>): set<Pid> {
    set p | p in Tracees(ps, w, targets) && (ps[p].zombie || p in stops)
  }

  /** The tracer lets go of an exited tracee, and reaps it too when it is its own child. */
  function WithTraceeReleased(ps: Procs, w: Pid, p: Pid): Procs
    requires w in ps && ps[w].children.Some? && p in ps
  {
    var detached := ps[p := ps[p].(tracer := None)];
    if ps[p].parent == w then WithReaped(detached, w, p) else detached
  }

  ghost function TraceeResult(ps: Procs, w: Pid, targets: set<Pid>, stops: set<Pid>): WaitResult {
    var hits := TraceeHits(ps, w, targets, stops);
    if hits != {} then
      var p := Least(hits);
      Found(if ps[p].zombie then TraceeExit(p) else TraceeStop(p))
    else if Tracees(ps, w, targets) != {} then MatchedButUnready
    else NoMatch
  }

  // ---------------------------------------------------------------------------
  // Children
  // ---------------------------------------------------------------------------

  ghost function Children(ps: Procs, w: Pid, targets: set<Pid>): set<Pid>
    requires w in ps && ps[w].children.Some?
  {
    set c | c in ps[w].children.value && c in ps && c in targets
  }

  ghost function ChildHits(ps: Procs, w: Pid, targets: set<Pid>, stops: set<Pid>): set<Pid>
    requires w in ps && ps[w].children.Some?
  {
    set c | c in Children(ps, w, targets) && ps[c].tracer.None? && (ps[c].zombie || c in stops)
  }

  ghost function ChildResult(ps: Procs, w: Pid, targets: set<Pid>, stops: set<Pid>): WaitResult
    requires w in ps && ps[w].children.Some?
  {
    var hits := ChildHits(ps, w, targets, stops);
    if hits != {} then
      var c := Least(hits);
      Found(if ps[c].zombie then Zombie(c) else Stop(c))
    else if Children(ps, w, targets) != {} then MatchedButUnready
    else NoMatch
  }

  // ---------------------------------------------------------------------------
  // One pass
  // ---------------------------------------------------------------------------

  /**
    Tracees are looked at first; children only when no tracee has anything to report. Tracees belong
    to a thread: here to the main thread, so another thread (`byMain` false) has none.
   */
  ghost function Pass(ps: Procs, w: Pid, byMain: bool, targets: set<Pid>, stops: set<Pid>): PassResult
    requires w in ps && ps[w].children.Some?
  {
    var tracees := if byMain then TraceeResult(ps, w, targets, stops) else NoMatch;
    if tracees.Found? then Reported(tracees.status)
    else
      var children := ChildResult(ps, w, targets, stops);
      if children.Found? then Reported(children.status)
      else if tracees.NoMatch? && children.NoMatch? then NoChild
      else NothingYet
  }

  /** The records after the report of a pass without `WNOWAIT` has been consumed. */
  function WithReportConsumed(ps: Procs, w: Pid, status: WaitStatus): Procs
    requires w in ps && ps[w].children.Some? && status.pid in ps
  {
    match status
    case TraceeExit(p) => WithTraceeReleased(ps, w, p)
    case Zombie(c) => WithReaped(ps, w, c)
    case Stop(_) => ps
    case TraceeStop(_) => ps
  }

  /** An exit is only ever reported of an unreaped zombie; a `Zombie` report is of an untraced child of the caller. */
  lemma PassReports(ps: Procs, w: Pid, byMain: bool, targets: set<Pid>, stops: set<Pid>)
    requires Tree(ps) && w in ps && ps[w].children.Some?
    ensures var pass := Pass(ps, w, byMain, targets, stops);
      && (pass.Reported? ==> pass.status.pid in ps && !ps[pass.status.pid].reaped)
      && (pass.Reported? && pass.status.TraceeExit? ==>
            ps[pass.status.pid].zombie && ps[pass.status.pid].tracer == Some(w))
      && (pass.Reported? && pass.status.Zombie? ==>
            && ps[pass.status.pid].zombie && ps[pass.status.pid].tracer.None?
            && pass.status.pid in ps[w].children.value && ps[pass.status.pid].parent == w)
  {
    assert Fits(ps, w);
    var pass := Pass(ps, w, byMain, targets, stops);
    if pass.Reported? {
      assert Fits(ps, pass.status.pid);
    }
  }

  // ---------------------------------------------------------------------------
  // What a pass answers, on the records
  // ---------------------------------------------------------------------------

  /** The caller accepts `p`, as a child or, in the main thread, as a tracee. */
  ghost predicate Matches(ps: Procs, w: Pid, byMain: bool, targets: set<Pid>, p: Pid)
    requires w in ps && ps[w].children.Some?
  {
    p in targets && p in ps && (p in ps[w].children.value || (byMain && ps[p].tracer == Some(w)))
  }

  /** `p` is an accepted tracee of the caller with something to report. */
  ghost predicate TraceeReady(
      ps: Procs, w: Pid, byMain: bool, targets: set<Pid>, stops: set<Pid>, p: Pid)
  {
    byMain && p in targets && p in ps && ps[p].tracer == Some(w) && (ps[p].zombie || p in stops)
  }

  /** `c` is an accepted child of the caller that nobody traces and that has something to report. */
  ghost predicate ChildReady(ps: Procs, w: Pid, targets: set<Pid>, stops: set<Pid>, c: Pid)
    requires w in ps && ps[w].children.Some?
  {
    c in targets && c in ps && c in ps[w].children.value && ps[c].tracer.None? && (ps[c].zombie || c in stops)
  }

  /** The report is the right one: the oldest ready tracee or, without one, the oldest ready child. */
  ghost predicate ReportIsDue(
      ps: Procs, w: Pid, byMain: bool, targets: set<Pid>, stops: set<Pid>, status: WaitStatus)
    requires w in ps && ps[w].children.Some?
  {
    if status.TraceeExit? || status.TraceeStop? then
      && TraceeReady(ps, w, byMain, targets, stops, status.pid)
      && (forall q | TraceeReady(ps, w, byMain, targets, stops, q) :: status.pid <= q)
      && (status.TraceeExit? <==> ps[status.pid].zombie)
    else
      && ChildReady(ps, w, targets, stops, status.pid)
      && (forall q | ChildReady(ps, w, targets, stops, q) :: status.pid <= q)
      && (forall q :: !TraceeReady(ps, w, byMain, targets, stops, q))
      && (status.Zombie? <==> ps[status.pid].zombie)
  }

  /**
    What a caller of `wait` is told: `ECHILD` exactly when it accepts no child or tracee of its own, a
    report exactly when one of them is ready, and to wait otherwise.
   */
  ghost predicate Answers(
      result: PassResult, ps: Procs, w: Pid, byMain: bool, targets: set<Pid>, stops: set<Pid>)
    requires w in ps && ps[w].children.Some?
  {
    match result
    case NoChild => forall p :: !Matches(ps, w, byMain, targets, p)
    case Reported(status) => ReportIsDue(ps, w, byMain, targets, stops, status)
    case NothingYet =>
      && (exists p :: Matches(ps, w, byMain, targets, p))
      && (forall p :: !TraceeReady(ps, w, byMain, targets, stops, p))
      && (forall p :: !ChildReady(ps, w, targets, stops, p))
  }

  lemma TraceesReady(ps: Procs, w: Pid, targets: set<Pid>, stops: set<Pid>, p: Pid)
    ensures p in TraceeHits(ps, w, targets, stops) <==> TraceeReady(ps, w, true, targets, stops, p)
  {
  }

  lemma ChildrenReady(ps: Procs, w: Pid, targets: set<Pid>, stops: set<Pid>, p: Pid)
    requires w in ps && ps[w].children.Some?
    ensures p in ChildHits(ps, w, targets, stops) <==> ChildReady(ps, w, targets, stops, p)
  {
  }

  lemma PassAnswers(ps: Procs, w: Pid, byMain: bool, targets: set<Pid>, stops: set<Pid>)
    requires w in ps && ps[w].children.Some?
    ensures Answers(Pass(ps, w, byMain, targets, stops), ps, w, byMain, targets, stops)
  {
    forall p
      ensures p in TraceeHits(ps, w, targets, stops) <==> TraceeReady(ps, w, true, targets, stops, p)
      ensures p in ChildHits(ps, w, targets, stops) <==> ChildReady(ps, w, targets, stops, p)
      ensures Matches(ps, w, byMain, targets, p) <==>
              p in Children(ps, w, targets) || (byMain && p in Tracees(ps, w, targets))
    {
      TraceesReady(ps, w, targets, stops, p);
      ChildrenReady(ps, w, targets, stops, p);
    }
    if Pass(ps, w, byMain, targets, stops) == NothingYet {
      var p :| p in Children(ps, w, targets) || (byMain && p in Tracees(ps, w, targets));
      assert Matches(ps, w, byMain, targets, p);
    }
  }

  /** No two different answers are right. */
  lemma OneRightAnswer(
      a: PassResult, b: PassResult, ps: Procs, w: Pid, byMain: bool, targets: set<Pid>, stops: set<Pid>)
    requires w in ps && ps[w].children.Some?
    requires Answers(a, ps, w, byMain, targets, stops) && Answers(b, ps, w, byMain, targets, stops)
    ensures a == b
  {
    if a.Reported? {
      assert Matches(ps, w, byMain, targets, a.status.pid);
    }
    if b.Reported? {
      assert Matches(ps, w, byMain, targets, b.status.pid);
    }
  }

  /** Once the exit of a process has been reported to `w` and consumed, no later pass reports that process to `w`. */
  lemma ConsumedIsOver(
      ps: Procs, w: Pid, status: WaitStatus, byMain: bool, targets: set<Pid>, stops: set<Pid>)
    requires Tree(ps) && w in ps && ps[w].children.Some? && status.pid in ps
    requires status.Zombie? ==> ps[status.pid].tracer.None? && ps[status.pid].parent == w
    requires status.TraceeExit? || status.Zombie?
    ensures var after := WithReportConsumed(ps, w, status);
      && w in after && after[w].children.Some?
      && var again := Pass(after, w, byMain, targets, stops);
         again.Reported? ==> again.status.pid != status.pid
  {
    var after := WithReportConsumed(ps, w, status);
    assert Fits(ps, w) && Fits(ps, status.pid);
    assert status.pid !in after[w].children.value && after[status.pid].tracer.None?;
    PassAnswers(after, w, byMain, targets, stops);
  }
}
