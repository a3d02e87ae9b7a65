/**
  The threads of one process: spawning, exiting and `execve` (kernel/src/process/execve.rs, the thread
  part of clone.rs, and kernel/src/process/posix_thread/exit.rs), one step for each locked section.
 */
module Exec {
  import opened Wrappers
  import opened TaskSets
  import PidTables

  type Tid = nat

  /**
    Where a thread is inside `execve`: it has claimed the process; it sleeps (`woken` when its waker
    has been woken meanwhile); it has seen that it is alone; it is the main thread; it is giving up.
   */
  datatype Phase = Claimed | Asleep(woken: bool) | Alone | IsMain | Failing

  /**
    `tid` maps every task ever to its thread ID, `slots` is the thread column of the PID table,
    `starting` are tasks not yet in that table, `leaving` are exited tasks still in it, and
    `lastAnswers` counts how often `remove_exited` has answered that the last task is gone.
   */
  datatype Group = Group(
    pid: Tid, ts: Tasks, tid: map<Task, Tid>, exec: map<Task, Phase>, slots: map<Tid, Task>,
    starting: set<Task>, leaving: set<Task>, lastAnswers: nat)

  datatype Step =
    | Spawn(creator: Task, task: Task, tid: Tid)
    | Publish(task: Task)
    | Exit(task: Task, wholeGroup: bool)
    | Unpublish(task: Task)
    | StartExec(task: Task)
    | Check(task: Task, killed: bool)
    | Signal(task: Task)
    | Promote(task: Task)
    | FinishExec(task: Task)

  /** A process right after its creation: one running main thread. */
  ghost predicate Starts(g: Group) {
    && |g.ts.list| == 1 && g.ts == Tasks(g.ts.list, false, false, false, None)
    && g.tid == map[g.ts.list[0] := g.pid] && g.exec == map[] && g.slots == map[g.pid := g.ts.list[0]]
    && g.starting == {} && g.leaving == {} && g.lastAnswers == 0
  }

  /** The task executes kernel code that is not part of an `execve`. */
  ghost predicate Runs(g: Group, t: Task) {
    t in LiveTasks(g.ts) && t !in g.starting && t !in g.exec && t in g.tid
  }

  ghost predicate Enabled(g: Group, step: Step) {
    match step
    case Spawn(creator, task, tid) =>
      Runs(g, creator) && task !in g.tid && tid !in g.tid.Values && tid !in g.slots && tid != g.pid
    case Publish(task) => task in g.starting && task in g.tid
    case Exit(task, _) => Runs(g, task) && task in g.ts.list
    case Unpublish(task) => task in g.leaving && task in g.tid
    case StartExec(task) => Runs(g, task)
    case Check(task, _) => task in g.exec && task in g.tid && (g.exec[task] == Claimed || g.exec[task] == Asleep(true))
    case Signal(task) => task in g.exec && g.exec[task].Asleep?
    case Promote(task) => task in g.exec && task in g.tid && g.exec[task] == Alone && |g.ts.list| > 0
    case FinishExec(task) => task in g.exec && (g.exec[task] == IsMain || g.exec[task] == Failing)
  }

  /** The test of the wait loop: no other task is left, as far as the task set shows. */
  predicate SeemsAlone(g: Group, t: Task)
    requires t in g.tid
  {
    if g.tid[t] == g.pid then |g.ts.list| == 1 else |g.ts.list| == 2 && g.ts.exitedMain
  }

  /** An exit under the task-set lock: the flags, the removal and the wake-up. */
  function ExitUnderLock(g: Group, t: Task, wholeGroup: bool): Group
    requires t in g.ts.list && t in g.tid
  {
    var flagged := if wholeGroup && !g.ts.inExecve then g.ts.(exitedGroup := true) else g.ts;
    var ts := AfterExit(flagged, t);
    g.(ts := ts,
       leaving := if g.tid[t] == g.pid then g.leaving else g.leaving + {t},
       lastAnswers := g.lastAnswers + if AllExited(ts) then 1 else 0,
       exec := if g.ts.waker.Some? && g.ts.waker.value in g.exec
               then g.exec[g.ts.waker.value := Asleep(true)] else g.exec)
  }

  /** One turn of the wait loop under the task-set lock: clear the waker, test, and register again. */
  function CheckUnderLock(g: Group, t: Task, killed: bool): Group
    requires t in g.tid
  {
    var cleared := g.(ts := g.ts.(waker := None));
    if SeemsAlone(g, t) then cleared.(exec := g.exec[t := Alone])
    else if killed then cleared.(exec := g.exec[t := Failing])
    else cleared.(ts := g.ts.(waker := Some(t)), exec := g.exec[t := Asleep(false)])
  }

  /** The caller of `execve` becomes the main thread and takes over the PID as its thread ID. */
  function MakeMain(g: Group, t: Task): Group
    requires t in g.tid && |g.ts.list| > 0
  {
    if g.tid[t] == g.pid then g.(exec := g.exec[t := IsMain])
    else g.(ts := g.ts.(list := SwapRemove(g.ts.list, 0), exitedMain := false),
            tid := g.tid[t := g.pid],
            slots := (g.slots - {g.tid[t]})[g.pid := t],
            exec := g.exec[t := IsMain])
  }

  function Apply(g: Group, step: Step): Group
    requires Enabled(g, step)
  {
    match step
    case Spawn(_, task, tid) =>
      if g.ts.exitedGroup || g.ts.inExecve then g
      else g.(ts := g.ts.(list := g.ts.list + [task]), tid := g.tid[task := tid], starting := g.starting + {task})
    case Publish(task) => g.(slots := g.slots[g.tid[task] := task], starting := g.starting - {task})
    case Exit(task, wholeGroup) => ExitUnderLock(g, task, wholeGroup)
    case Unpublish(task) => g.(slots := g.slots - {g.tid[task]}, leaving := g.leaving - {task})
    case StartExec(task) =>
      if g.ts.exitedGroup || g.ts.inExecve then g
      else g.(ts := g.ts.(inExecve := true), exec := g.exec[task := Claimed])
    case Check(task, killed) => CheckUnderLock(g, task, killed)
    case Signal(task) => g.(exec := g.exec[task := Asleep(true)])
    case Promote(task) => MakeMain(g, task)
    case FinishExec(task) => g.(ts := g.ts.(inExecve := false), exec := g.exec - {task})
  }

  ghost predicate IsRun(states: seq<Group>, steps: seq<Step>) {
    && |states| == |steps| + 1
    && Starts(states[0])
    && forall i | 0 <= i < |steps| :: Enabled(states[i], steps[i]) && states[i + 1] == Apply(states[i], steps[i])
  }

  // ---------------------------------------------------------------------------
  // The invariant
  // ---------------------------------------------------------------------------

  /** A task that a thread ID still belongs to: it is in the set, or has left it but not yet the PID table. */
  ghost predicate Holds(g: Group, t: Task) {
    t in g.ts.list || t in g.leaving
  }

  /** The main task has the PID as its thread ID and nobody else has. */
  ghost predicate TaskFits(g: Group, t: Task) {
    && (t in g.ts.list ==> t in g.tid && (t == g.ts.list[0] <==> g.tid[t] == g.pid))
    && (t in g.starting ==> t in g.ts.list && t != g.ts.list[0] && t in LiveTasks(g.ts) && t !in g.exec)
    && (t in g.leaving ==> t in g.tid && t !in g.ts.list && g.tid[t] != g.pid)
    && (Holds(g, t) && t !in g.starting ==> g.tid[t] in g.slots && g.slots[g.tid[t]] == t)
  }

  ghost predicate ThreadsFit(g: Group) {
    && WellFormed(g.ts)
    && (forall t: Task :: TaskFits(g, t))
    && (forall t, u | t in g.tid && u in g.tid && Holds(g, t) && Holds(g, u) && g.tid[t] == g.tid[u] :: t == u)
    && (forall d | d in g.slots :: g.slots[d] in g.tid && Holds(g, g.slots[d]) && g.tid[g.slots[d]] == d)
  }

  /** At most one thread is inside `execve`; asleep and not woken it has company, alone it really is. */
  ghost predicate ExecFits(g: Group) {
    && (g.ts.inExecve <==> g.exec != map[])
    && (forall t, u | t in g.exec && u in g.exec :: t == u)
    && (forall t | t in g.exec :: t in LiveTasks(g.ts) && t in g.ts.list && t !in g.starting)
    && (forall t | t in g.exec :: g.exec[t].Asleep? <==> g.ts.waker == Some(t))
    && (g.ts.waker.Some? ==> g.ts.waker.value in g.exec)
    && (forall t | t in g.exec && g.exec[t] == Asleep(false) :: LiveTasks(g.ts) - {t} != {})
    && (forall t | t in g.exec && g.exec[t] == Alone :: t in g.tid && SeemsAlone(g, t))
  }

  /** The answer "that was the last task" has been given exactly if no task is left. */
  ghost predicate AnswersFit(g: Group) {
    g.lastAnswers == if LiveTasks(g.ts) == {} then 1 else 0
  }

  ghost predicate Inv(g: Group) {
    ThreadsFit(g) && ExecFits(g) && AnswersFit(g)
  }

  // ---------------------------------------------------------------------------
  // The promotion itself, on the task set and the PID table
  // ---------------------------------------------------------------------------

  method MakeCurrentMainThread<P, G, S>(
      pid: Tid, oldTid: Tid, current: Task, tasks: TaskSet, table: PidTables.PidTable<Task, P, G, S>)
    returns (newTid: Tid)
    requires table.Valid() && pid in PidTables.Threads(table.entries)
    requires oldTid in PidTables.Threads(table.entries) && PidTables.Threads(table.entries)[oldTid] == current
    requires oldTid != pid ==>
               && oldTid !in PidTables.Processes(table.entries)
               && tasks.hasExitedMain && tasks.inExecve && |tasks.tasks| == 2 && tasks.tasks[1] == current
    modifies tasks, table
    ensures table.Valid() && newTid == pid
    ensures oldTid == pid ==> tasks.Contents() == old(tasks.Contents())
    ensures oldTid != pid ==> tasks.Contents() == old(tasks.Contents()).(list := [current], exitedMain := false)
    ensures oldTid == pid ==> PidTables.Threads(table.entries) == old(PidTables.Threads(table.entries))
    ensures oldTid != pid ==>
              var before := old(PidTables.Threads<Task, P, G, S>(table.entries));
              PidTables.Threads(table.entries) == (before - {oldTid})[pid := current]
    ensures PidTables.Processes(table.entries) == old(PidTables.Processes(table.entries))
    ensures table.processCount == old(table.processCount)
  {
    if oldTid == pid {
      return pid;
    }
    tasks.SwapMain();
    newTid := pid;
    var thread := table.TakeThread(oldTid);
    table.ReplaceThread(pid, thread.value);
  }
}
