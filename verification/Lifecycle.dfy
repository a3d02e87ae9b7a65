/**
  The life of processes as a concurrent protocol: one step for each locked section of `clone`,
  `exit`, `wait`, `ptrace` and `prctl` that touches the tree, in any interleaving.

  Between two sections a thread remembers what it has read: a cloning thread the process it is going
  to link its child to, an exiting thread where its search for a reaper has got to. These memories
  are part of the state, so other steps may make them stale.
 */
module Lifecycle {
  import opened Wrappers
  import opened ProcessTree
  import opened Waiting

  /** A `clone` under way: `target` is the parent read so far, `None` before (or again after) a read. */
  datatype Clone = Clone(creator: Pid, viaParent: bool, target: Option<Pid>)

  /** An exit under way: searching at an ancestor, a reaper found, or about to search again. */
  datatype Exit = Searching(at: Pid) | FoundReaper(reaper: Pid) | SearchAgain

  /** A consumed report of an exit to `waiter`; `reaps` tells whether the process was reaped with it. */
  datatype Report = Report(waiter: Pid, pid: Pid, asTracee: bool, reaps: bool)

  /**
    `table` holds the PIDs whose process slot in the PID table is taken and `count` is the table's
    process count. `charged` is all the CPU time ever charged to processes, and `lost` the part of it
    that was charged to processes already reaped. For a process whose `prctl` is marking downwards,
    `marking` holds the processes whose children it has still to mark.
   */
  datatype State = State(
    procs: Procs, next: Pid, clones: map<Pid, Clone>, exits: map<Pid, Exit>, marking: map<Pid, set<Pid>>,
    table: set<Pid>, count: int, charged: Time, lost: Time, reports: seq<Report>)

  const BOOT := State(map[INIT := NewProc(0, false)], INIT + 1, map[], map[], map[], {INIT}, 1, ZERO, ZERO, [])

  datatype Step =
    | TakeThreadId
    | AllocateChild(creator: Pid, viaParent: bool)
    | AbandonClone(child: Pid)
    | ReadParent(child: Pid)
    | LinkChild(child: Pid)
    | StartSearch(p: Pid)
    | ClimbOne(p: Pid, lost: bool)
    | MoveChildren(p: Pid)
    | SearchAndMove(p: Pid)
    | BecomeZombie(p: Pid)
    | Wait(w: Pid, byMain: bool, targets: set<Pid>, stops: set<Pid>, nowait: bool)
    | Attach(tracer: Pid, p: Pid)
    | Detach(p: Pid)
    | SetSubreaper(p: Pid)
    | MarkNext(p: Pid, q: Pid)
    | UnsetSubreaper(p: Pid)
    | Charge(p: Pid, time: Time)

  // ---------------------------------------------------------------------------
  // When a step can be taken
  // ---------------------------------------------------------------------------

  /** The process has a thread that runs and is not its last, exiting one. */
  predicate Active(s: State, p: Pid) {
    p in s.procs && s.procs[p].children.Some? && !s.procs[p].zombie && p !in s.exits
  }

  /** The last thread of `p` may begin to exit: none of its threads is in the middle of a clone or a `prctl`. */
  ghost predicate MayExit(s: State, p: Pid) {
    Active(s, p) && p !in s.marking && forall c | c in s.clones :: s.clones[c].creator != p
  }

  ghost predicate Enabled(s: State, step: Step) {
    match step
    case TakeThreadId => true
    case AllocateChild(creator, viaParent) => Active(s, creator) && (viaParent ==> creator != INIT)
    case AbandonClone(child) => child in s.clones && s.clones[child].target.None?
    case ReadParent(child) => child in s.clones && s.clones[child].target.None? && s.clones[child].creator in s.procs
    case LinkChild(child) =>
      child in s.clones && s.clones[child].target.Some? && s.clones[child].target.value in s.procs
    case StartSearch(p) =>
      && p != INIT && p in s.procs
      && (MayExit(s, p) || (p in s.exits && s.exits[p] == SearchAgain))
    case ClimbOne(p, lost) =>
      && p in s.procs && p in s.exits && s.exits[p].Searching? && s.exits[p].at in s.procs
      && (lost ==> s.procs[s.exits[p].at].parent in s.procs && s.procs[s.procs[s.exits[p].at].parent].reaped)
    case MoveChildren(p) =>
      && p in s.procs && s.procs[p].children.Some?
      && p in s.exits && s.exits[p].FoundReaper? && s.exits[p].reaper in s.procs
    case SearchAndMove(p) => p != INIT && MayExit(s, p) && s.procs[p].parent in s.procs
    case BecomeZombie(p) =>
      p in s.procs && !s.procs[p].zombie && (s.procs[p].children.None? || (p == INIT && MayExit(s, p)))
    case Wait(w, _, _, _, _) => Active(s, w)
    case Attach(tracer, p) =>
      Active(s, tracer) && p in s.procs && !s.procs[p].reaped && s.procs[p].tracer.None?
    case Detach(p) => p in s.procs
    case SetSubreaper(p) => Active(s, p)
    case MarkNext(p, q) => p in s.marking && q in s.marking[p] && q in s.procs
    case UnsetSubreaper(p) => Active(s, p)
    case Charge(p, _) => p in s.procs
  }

  // ---------------------------------------------------------------------------
  // What a step does
  // ---------------------------------------------------------------------------

  function CloneParent(s: State, creator: Pid, viaParent: bool): Pid
    requires creator in s.procs
  {
    if viaParent then s.procs[creator].parent else creator
  }

  /** Link below the parent that was read, or read again when it has no `children` map any more. */
  function Link(s: State, child: Pid, target: Pid): State
    requires child in s.clones && target in s.procs
  {
    if s.procs[target].children.None? then
      s.(clones := s.clones[child := s.clones[child].(target := None)])
    else
      s.(procs := WithChild(s.procs, child, target), clones := s.clones - {child},
         table := s.table + {child}, count := s.count + 1)
  }

  /** The children of `p` itself are the first to be marked. */
  function StartMarking(s: State, p: Pid): map<Pid, set<Pid>> {
    s.marking[p := {p} + if p in s.marking then s.marking[p] else {}]
  }

  /** What is left to mark once `q` is done; a marking with nothing left has ended. */
  function StillMarking(s: State, p: Pid, q: Pid): map<Pid, set<Pid>>
    requires p in s.marking && q in s.procs
  {
    var left := s.marking[p] - {q} + NewlyMarked(s.procs, q);
    if left == {} then s.marking - {p} else s.marking[p := left]
  }

  /** One turn of the climb; `lost` when the next ancestor has been reaped and dropped meanwhile. */
  function Climb(ps: Procs, p: Pid, at: Pid, lost: bool): Exit
    requires p in ps && at in ps
  {
    var a := ps[at];
    if at == INIT || !a.marked then FoundReaper(INIT)
    else if a.subreaper && !a.zombie then FoundReaper(at)
    else if lost then Searching(ps[p].parent)
    else Searching(a.parent)
  }

  /** Hand the children to the reaper that was found, or search again when it has exited as well. */
  function Move(s: State, p: Pid, r: Pid): State
    requires p in s.procs && s.procs[p].children.Some? && r in s.procs
  {
    if s.procs[r].children.None? then s.(exits := s.exits[p := SearchAgain])
    else s.(procs := WithChildrenMoved(s.procs, p, r), exits := s.exits - {p})
  }

  /** Consume the report of one wait pass. A reaped process leaves the PID table. */
  function Consume(s: State, w: Pid, status: WaitStatus): State
    requires w in s.procs && s.procs[w].children.Some? && status.pid in s.procs
  {
    var after := WithReportConsumed(s.procs, w, status);
    var reaps := status.Zombie? || (status.TraceeExit? && s.procs[status.pid].parent == w);
    var s1 := s.(procs := after);
    var s2 := if reaps then s1.(table := s.table - {status.pid}, count := s.count - 1)
              else s1;
    if status.Zombie? || status.TraceeExit? then
      s2.(reports := s.reports + [Report(w, status.pid, status.TraceeExit?, reaps)])
    else s2
  }

  ghost function WaitOnce(s: State, w: Pid, byMain: bool, targets: set<Pid>, stops: set<Pid>, nowait: bool): State
    requires w in s.procs && s.procs[w].children.Some?
  {
    var pass := Pass(s.procs, w, byMain, targets, stops);
    if nowait || !pass.Reported? || pass.status.pid !in s.procs then s else Consume(s, w, pass.status)
  }

  /** The time a step charges to a process that has been reaped, where nobody will ever account for it. */
  function LostIn(s: State, step: Step): Time {
    if step.Charge? && step.p in s.procs && s.procs[step.p].reaped then step.time else ZERO
  }

  ghost function Apply(s: State, step: Step): State
    requires Enabled(s, step)
  {
    match step
    case TakeThreadId => s.(next := s.next + 1)
    case AbandonClone(child) => s.(clones := s.clones - {child})
    case AllocateChild(creator, viaParent) =>
      s.(next := s.next + 1, clones := s.clones[s.next := Clone(creator, viaParent, None)])
    case ReadParent(child) =>
      var clone := s.clones[child];
      s.(clones := s.clones[child := clone.(target := Some(CloneParent(s, clone.creator, clone.viaParent)))])
    case LinkChild(child) => Link(s, child, s.clones[child].target.value)
    case StartSearch(p) => s.(exits := s.exits[p := Searching(s.procs[p].parent)])
    case ClimbOne(p, lost) => s.(exits := s.exits[p := Climb(s.procs, p, s.exits[p].at, lost)])
    case MoveChildren(p) => Move(s, p, s.exits[p].reaper)
    case SearchAndMove(p) =>
      var r := MarkedSearch(s.procs, s.procs[p].parent);
      if r in s.procs then Move(s, p, r) else s
    case BecomeZombie(p) => s.(procs := s.procs[p := s.procs[p].(zombie := true)])
    case Wait(w, byMain, targets, stops, nowait) => WaitOnce(s, w, byMain, targets, stops, nowait)
    case Attach(tracer, p) => s.(procs := s.procs[p := s.procs[p].(tracer := Some(tracer))])
    case Detach(p) => s.(procs := s.procs[p := s.procs[p].(tracer := None)])
    case SetSubreaper(p) =>
      s.(procs := WithFlag(s.procs, p), marking := if s.procs[p].marked then s.marking else StartMarking(s, p))
    case MarkNext(p, q) =>
      s.(procs := WithChildrenMarked(s.procs, q), marking := StillMarking(s, p, q))
    case UnsetSubreaper(p) => s.(procs := s.procs[p := s.procs[p].(subreaper := false)])
    case Charge(p, time) =>
      s.(procs := s.procs[p := s.procs[p].(own := s.procs[p].own.Plus(time))], charged := s.charged.Plus(time),
         lost := s.lost.Plus(LostIn(s, step)))
  }

  // ---------------------------------------------------------------------------
  // Runs
  // ---------------------------------------------------------------------------

  ghost predicate IsRun(states: seq<State>, steps: seq<Step>) {
    && |states| == |steps| + 1
    && states[0] == BOOT
    && forall i | 0 <= i < |steps| :: Enabled(states[i], steps[i]) && states[i + 1] == Apply(states[i], steps[i])
  }

  // ---------------------------------------------------------------------------
  // The invariant
  // ---------------------------------------------------------------------------

  /** What a cloning thread remembers: its target still has children only if it is still the right parent. */
  ghost predicate CloneFits(s: State, c: Pid) {
    c in s.clones ==>
      var clone := s.clones[c];
      && c !in s.procs && c < s.next && clone.creator < c && Active(s, clone.creator)
      && (clone.viaParent ==> clone.creator != INIT)
      && (clone.target.Some? ==>
            var t := clone.target.value;
            && t in s.procs && t < c
            && (if clone.viaParent then s.procs[t].children.Some? ==> s.procs[clone.creator].parent == t
                else t == clone.creator))
  }

  /** What an exiting thread remembers: only processes older than its own. */
  ghost predicate ExitFits(s: State, p: Pid) {
    p in s.exits ==>
      && p != INIT && p in s.procs && s.procs[p].children.Some? && !s.procs[p].zombie
      && (s.exits[p].Searching? ==> s.exits[p].at in s.procs && s.exits[p].at < p)
      && (s.exits[p].FoundReaper? ==> s.exits[p].reaper in s.procs && s.exits[p].reaper < p)
  }

  ghost predicate MemoriesFit(s: State) {
    && (forall p | p in s.procs :: p < s.next)
    && (forall c: Pid :: CloneFits(s, c))
    && (forall p: Pid :: ExitFits(s, p))
  }

  /** The PID table finds exactly the processes in the tree, and counts them. */
  ghost predicate TableAgrees(s: State) {
    s.table == Unreaped(s.procs) && s.count == |s.table|
  }

  /** All time ever charged is accounted for by unreaped processes or was lost. */
  ghost predicate TimeConserved(s: State) {
    Held(s.procs, s.next).Plus(s.lost) == s.charged
  }

  ghost predicate ReportFits(s: State, i: int)
    requires 0 <= i < |s.reports|
  {
    var r := s.reports[i];
    && (!r.asTracee ==> r.reaps)
    && (r.reaps ==> r.pid in s.procs && s.procs[r.pid].reaped)
    && (r.reaps ==> forall j | i < j < |s.reports| :: s.reports[j].pid != r.pid)
  }

  ghost predicate ReapReported(s: State, p: Pid) {
    p in s.procs && s.procs[p].reaped ==>
      exists i :: 0 <= i < |s.reports| && s.reports[i].pid == p && s.reports[i].reaps
  }

  /** A process is reaped exactly when a reaping report of it was given, and that report is its last. */
  ghost predicate ReportedOnce(s: State) {
    && (forall i | 0 <= i < |s.reports| :: ReportFits(s, i))
    && (forall p: Pid :: ReapReported(s, p))
  }

  ghost predicate Inv(s: State) {
    Tree(s.procs) && MemoriesFit(s) && TableAgrees(s) && TimeConserved(s) && ReportedOnce(s)
  }
}
