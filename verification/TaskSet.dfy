/**
  The set of tasks of one process (kernel/src/process/task_set.rs). The main task sits at index 0 and
  stays there after it has exited; every other task leaves the vector when it exits.
 */
module TaskSets {
  import opened Wrappers

  type Task = nat

  /** The contents of a task set; `waker` is the task that wants to hear of exits during its `execve`. */
  datatype Tasks = Tasks(
    list: seq<Task>, exitedMain: bool, exitedGroup: bool, inExecve: bool, waker: Option<Task>)

  /** `Vec::swap_remove`: the last element takes the place of the removed one. */
  function SwapRemove<T>(s: seq<T>, i: nat): seq<T>
    requires i < |s|
  {
    s[i := s[|s| - 1]][..|s| - 1]
  }

  ghost predicate Distinct<T>(s: seq<T>) {
    forall i, j | 0 <= i < j < |s| :: s[i] != s[j]
  }

  /** The tasks that have not exited. */
  ghost function LiveTasks(ts: Tasks): set<Task> {
    set i | 0 <= i < |ts.list| && !(i == 0 && ts.exitedMain) :: ts.list[i]
  }

  function IndexOf(s: seq<Task>, t: Task): (i: nat)
    requires t in s
    ensures i < |s| && s[i] == t
  {
    if s[0] == t then 0 else 1 + IndexOf(s[1..], t)
  }

  /** The exit of `t`: the main task only sets a flag, any other task is removed. */
  function AfterExit(ts: Tasks, t: Task): Tasks
    requires t in ts.list
  {
    if IndexOf(ts.list, t) == 0 then ts.(exitedMain := true)
    else ts.(list := SwapRemove(ts.list, IndexOf(ts.list, t)))
  }

  /** What `remove_exited` answers: no task is alive any more. */
  predicate AllExited(ts: Tasks) {
    ts.exitedMain && |ts.list| == 1
  }

  ghost predicate WellFormed(ts: Tasks) {
    |ts.list| > 0 && Distinct(ts.list)
  }

  /** An exit takes exactly that task out of the live ones and leaves the main task where it is. */
  lemma ExitRemovesOne(ts: Tasks, t: Task)
    requires WellFormed(ts) && t in LiveTasks(ts)
    ensures var after := AfterExit(ts, t);
      WellFormed(after) && after.list[0] == ts.list[0] && LiveTasks(after) == LiveTasks(ts) - {t}
  {
    var after := AfterExit(ts, t);
    var k := IndexOf(ts.list, t);
    if k > 0 {
      var n := |ts.list|;
      assert forall i | 0 <= i < n - 1 :: after.list[i] == if i == k then ts.list[n - 1] else ts.list[i];
      forall x | x in LiveTasks(ts) && x != t
        ensures x in LiveTasks(after)
      {
        var i :| 0 <= i < n && !(i == 0 && ts.exitedMain) && ts.list[i] == x;
        var j := if i == n - 1 then k else i;
        assert after.list[j] == x && !(j == 0 && after.exitedMain);
      }
    }
  }

  /** The answer of `remove_exited` is right: it is true exactly when nobody is left. */
  lemma AllExitedMeansNobodyLeft(ts: Tasks)
    requires WellFormed(ts)
    ensures AllExited(ts) <==> LiveTasks(ts) == {}
  {
    if ts.exitedMain && |ts.list| > 1 {
      assert ts.list[1] in LiveTasks(ts);
    }
    if !ts.exitedMain {
      assert ts.list[0] in LiveTasks(ts);
    }
  }

  class Waker {
    const task: Task
    var hasWoken: bool

    constructor (task: Task)
      ensures this.task == task && !hasWoken
    {
      this.task := task;
      hasWoken := false;
    }

    method WakeUp()
      modifies this
      ensures hasWoken
    {
      hasWoken := true;
    }
  }

  class TaskSet {
    var tasks: seq<Task>
    var hasExitedMain: bool
    var hasExitedGroup: bool
    var inExecve: bool
    var execveWaker: Waker?

    ghost function Contents(): Tasks
      reads this
    {
      Tasks(tasks, hasExitedMain, hasExitedGroup, inExecve,
            if execveWaker == null then None else Some(execveWaker.task))
    }

    constructor ()
      ensures Contents() == Tasks([], false, false, false, None)
    {
      tasks := [];
      hasExitedMain := false;
      hasExitedGroup := false;
      inExecve := false;
      execveWaker := null;
    }

    method Insert(task: Task) returns (result: Result<(), Task>)
      modifies `tasks
      ensures result == if old(hasExitedGroup || inExecve) then Err(task) else Ok(())
      ensures Contents() == if result.Err? then old(Contents())
                            else old(Contents()).(list := old(tasks) + [task])
    {
      if hasExitedGroup || inExecve {
        return Err(task);
      }
      tasks := tasks + [task];
      return Ok(());
    }

    method Position(task: Task) returns (position: nat)
      requires task in tasks
      ensures position == IndexOf(tasks, task)
    {
      position := 0;
      while tasks[position] != task
        invariant position < |tasks| && task in tasks[position..]
        invariant IndexOf(tasks, task) == position + IndexOf(tasks[position..], task)
        decreases |tasks| - position
      {
        assert tasks[position..][1..] == tasks[position + 1..];
        position := position + 1;
      }
    }

    /** Takes an exited task out and wakes the task in `execve`; true when no live task is left. */
    method RemoveExited(task: Task) returns (last: bool)
      requires WellFormed(Contents()) && task in LiveTasks(Contents())
      modifies this, execveWaker
      ensures Contents() == AfterExit(old(Contents()), task)
      ensures WellFormed(Contents()) && LiveTasks(Contents()) == old(LiveTasks(Contents())) - {task}
      ensures last <==> LiveTasks(Contents()) == {}
      ensures last ==> |tasks| == 1
      ensures execveWaker == old(execveWaker) && (execveWaker != null ==> execveWaker.hasWoken)
    {
      ExitRemovesOne(Contents(), task);
      AllExitedMeansNobodyLeft(AfterExit(Contents(), task));
      var position := Position(task);
      if position == 0 {
        hasExitedMain := true;
      } else {
        tasks := SwapRemove(tasks, position);
      }
      if execveWaker != null {
        execveWaker.WakeUp();
      }
      last := hasExitedMain && |tasks| == 1;
    }

    /** Drops the exited main task; the only other task becomes the main task. */
    method SwapMain()
      requires |tasks| == 2 && hasExitedMain
      modifies this
      ensures Contents() == old(Contents()).(list := [old(tasks)[1]], exitedMain := false)
    {
      tasks := SwapRemove(tasks, 0);
      hasExitedMain := false;
    }

    method SetExitedGroup()
      requires !inExecve
      modifies `hasExitedGroup
      ensures Contents() == old(Contents()).(exitedGroup := true)
    {
      hasExitedGroup := true;
    }

    method StartExecve()
      requires !hasExitedGroup
      modifies `inExecve
      ensures Contents() == old(Contents()).(inExecve := true)
    {
      inExecve := true;
    }

    method FinishExecve()
      modifies `inExecve
      ensures Contents() == old(Contents()).(inExecve := false)
    {
      inExecve := false;
    }

    method SetExecveWaker(waker: Waker)
      requires execveWaker == null
      modifies `execveWaker
      ensures Contents() == old(Contents()).(waker := Some(waker.task)) && execveWaker == waker
    {
      execveWaker := waker;
    }

    method ClearExecveWaker()
      modifies `execveWaker
      ensures Contents() == old(Contents()).(waker := None)
    {
      execveWaker := null;
    }
  }
}
