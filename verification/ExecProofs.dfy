/** Every step of the thread protocol keeps its invariant, and what follows for whole runs. */
module ExecProofs {
  import opened Wrappers
  import opened TaskSets
  import opened Exec

  lemma StartInv(g: Group)
    requires Starts(g)
    ensures Inv(g)
  {
    var main := g.ts.list[0];
    assert main in LiveTasks(g.ts);
    forall t: Task
      ensures TaskFits(g, t)
    {
    }
  }

  // ---------------------------------------------------------------------------
  // Spawning
  // ---------------------------------------------------------------------------

  lemma AppendIsLive(ts: Tasks, task: Task)
    requires WellFormed(ts) && task !in ts.list
    ensures var after := ts.(list := ts.list + [task]);
      WellFormed(after) && LiveTasks(after) == LiveTasks(ts) + {task}
  {
    var after := ts.(list := ts.list + [task]);
    assert after.list[|ts.list|] == task;
    forall x | x in LiveTasks(ts)
      ensures x in LiveTasks(after)
    {
      var i :| 0 <= i < |ts.list| && !(i == 0 && ts.exitedMain) && ts.list[i] == x;
      assert after.list[i] == x;
    }
  }

  lemma SpawnKeepsInv(g: Group, step: Step)
    requires Inv(g) && step.Spawn? && Enabled(g, step)
    ensures Inv(Apply(g, step))
  {
    var h := Apply(g, step);
    if h != g {
      assert TaskFits(g, step.task);
      AppendIsLive(g.ts, step.task);
      forall t: Task
        ensures TaskFits(h, t)
      {
        assert TaskFits(g, t);
      }
      assert ThreadsFit(h);
      assert ExecFits(h);
    }
  }

  lemma PublishKeepsInv(g: Group, step: Step)
    requires Inv(g) && step.Publish? && Enabled(g, step)
    ensures Inv(Apply(g, step))
  {
    var h := Apply(g, step);
    assert TaskFits(g, step.task);
    forall t: Task
      ensures TaskFits(h, t)
    {
      assert TaskFits(g, t);
    }
    assert ThreadsFit(h);
    assert ExecFits(h);
  }

  // ---------------------------------------------------------------------------
  // Exiting
  // ---------------------------------------------------------------------------

  lemma ExitKeepsThreads(g: Group, task: Task, wholeGroup: bool)
    requires Inv(g) && Enabled(g, Step.Exit(task, wholeGroup))
    ensures ThreadsFit(ExitUnderLock(g, task, wholeGroup))
  {
    var h := ExitUnderLock(g, task, wholeGroup);
    ExitRemovesOne(g.ts, task);
    ExitListed(g.ts, task);
    forall t: Task
      ensures TaskFits(h, t)
    {
      assert TaskFits(g, t);
    }
    forall d | d in h.slots
      ensures h.slots[d] in h.tid && Holds(h, h.slots[d]) && h.tid[h.slots[d]] == d
    {
      assert TaskFits(g, g.slots[d]);
    }
  }

  /** Which tasks are listed after an exit. */
  lemma ExitListed(ts: Tasks, task: Task)
    requires WellFormed(ts) && task in ts.list
    ensures forall t :: t in AfterExit(ts, task).list <==> t in ts.list && (t != task || task == ts.list[0])
  {
    var k := IndexOf(ts.list, task);
    var n := |ts.list|;
    if k > 0 {
      var after := AfterExit(ts, task).list;
      assert forall i | 0 <= i < n - 1 :: after[i] == if i == k then ts.list[n - 1] else ts.list[i];
      forall t | t in ts.list && t != task
        ensures t in after
      {
        var i :| 0 <= i < n && ts.list[i] == t;
        assert after[if i == n - 1 then k else i] == t;
      }
    }
  }

  /** Flags and wakers do not decide who is listed or alive. */
  lemma SameTasksSameLive(ts: Tasks, us: Tasks)
    requires us.list == ts.list && us.exitedMain == ts.exitedMain
    ensures LiveTasks(us) == LiveTasks(ts) && (WellFormed(ts) <==> WellFormed(us))
  {
  }

  lemma ExitKeepsExec(g: Group, task: Task, wholeGroup: bool)
    requires Inv(g) && Enabled(g, Step.Exit(task, wholeGroup))
    ensures ExecFits(ExitUnderLock(g, task, wholeGroup))
  {
    var h := ExitUnderLock(g, task, wholeGroup);
    ExitRemovesOne(g.ts, task);
    ExitListed(g.ts, task);
    SameTasksSameLive(AfterExit(g.ts, task), h.ts);
    assert h.exec.Keys == g.exec.Keys;
    forall t | t in g.exec
      ensures g.exec[t] != Alone && t in LiveTasks(h.ts) && t in h.ts.list
      ensures h.exec[t] == if g.exec[t].Asleep? then Asleep(true) else g.exec[t]
    {
      if g.exec[t] == Alone {
        AloneIsAlone(g, t);
      }
    }
  }

  lemma ExitKeepsAnswers(g: Group, task: Task, wholeGroup: bool)
    requires Inv(g) && Enabled(g, Step.Exit(task, wholeGroup))
    ensures AnswersFit(ExitUnderLock(g, task, wholeGroup))
  {
    var h := ExitUnderLock(g, task, wholeGroup);
    ExitRemovesOne(g.ts, task);
    SameTasksSameLive(AfterExit(g.ts, task), h.ts);
    AllExitedMeansNobodyLeft(h.ts);
  }

  /** A thread that has passed the test of the wait loop is the only live task of its process. */
  lemma AloneIsAlone(g: Group, t: Task)
    requires ThreadsFit(g) && t in LiveTasks(g.ts) && t in g.ts.list && t in g.tid && SeemsAlone(g, t)
    ensures LiveTasks(g.ts) == {t}
  {
    assert TaskFits(g, t);
  }

  lemma ExitKeepsInv(g: Group, step: Step)
    requires Inv(g) && step.Exit? && Enabled(g, step)
    ensures Inv(Apply(g, step))
  {
    ExitKeepsThreads(g, step.task, step.wholeGroup);
    ExitKeepsExec(g, step.task, step.wholeGroup);
    ExitKeepsAnswers(g, step.task, step.wholeGroup);
  }

  lemma UnpublishKeepsInv(g: Group, step: Step)
    requires Inv(g) && step.Unpublish? && Enabled(g, step)
    ensures Inv(Apply(g, step))
  {
    var h := Apply(g, step);
    assert TaskFits(g, step.task);
    forall t: Task
      ensures TaskFits(h, t)
    {
      assert TaskFits(g, t);
    }
    assert ThreadsFit(h);
    assert ExecFits(h);
  }

  // ---------------------------------------------------------------------------
  // Execve
  // ---------------------------------------------------------------------------

  /** Steps that touch only flags, the waker and the phase of the thread in `execve`. */
  lemma PhaseKeepsThreads(g: Group, h: Group)
    requires ThreadsFit(g) && AnswersFit(g)
    requires h == g.(ts := h.ts, exec := h.exec) && h.ts.list == g.ts.list && h.ts.exitedMain == g.ts.exitedMain
    requires forall t | t in h.exec :: t !in g.starting
    ensures ThreadsFit(h) && AnswersFit(h)
  {
    SameTasksSameLive(g.ts, h.ts);
    forall t: Task
      ensures TaskFits(h, t)
    {
      assert TaskFits(g, t);
    }
  }

  lemma LiveIsListed(g: Group, t: Task)
    requires t in LiveTasks(g.ts)
    ensures t in g.ts.list
  {
  }

  lemma StartExecKeepsInv(g: Group, step: Step)
    requires Inv(g) && step.StartExec? && Enabled(g, step)
    ensures Inv(Apply(g, step))
  {
    var h := Apply(g, step);
    if h != g {
      assert g.exec == map[];
      LiveIsListed(g, step.task);
      SameTasksSameLive(g.ts, h.ts);
      PhaseKeepsThreads(g, h);
    }
  }

  /** A thread that fails the test of the wait loop does have company. */
  lemma NotAloneHasCompany(g: Group, t: Task)
    requires ThreadsFit(g) && t in LiveTasks(g.ts) && t in g.ts.list && t in g.tid && !SeemsAlone(g, t)
    ensures LiveTasks(g.ts) - {t} != {}
  {
    assert TaskFits(g, t);
    var list := g.ts.list;
    if g.tid[t] == g.pid {
      assert list[1] in LiveTasks(g.ts) - {t};
    } else if !g.ts.exitedMain {
      assert list[0] in LiveTasks(g.ts) - {t};
    } else {
      assert list[if list[1] == t then 2 else 1] in LiveTasks(g.ts) - {t};
    }
  }

  /** The wait loop goes on to the promotion exactly when nobody else is left, killed or not. */
  lemma CheckSucceedsExactlyWhen(g: Group, t: Task, killed: bool)
    requires Inv(g) && Enabled(g, Check(t, killed))
    ensures var phase := Apply(g, Check(t, killed)).exec[t];
      && (phase == Alone <==> LiveTasks(g.ts) == {t})
      && (phase == Failing <==> LiveTasks(g.ts) != {t} && killed)
      && (phase == Asleep(false) <==> LiveTasks(g.ts) != {t} && !killed)
  {
    if SeemsAlone(g, t) {
      AloneIsAlone(g, t);
    } else {
      NotAloneHasCompany(g, t);
    }
  }

  lemma CheckKeepsInv(g: Group, step: Step)
    requires Inv(g) && step.Check? && Enabled(g, step)
    ensures Inv(Apply(g, step))
  {
    var h := Apply(g, step);
    SameTasksSameLive(g.ts, h.ts);
    PhaseKeepsThreads(g, h);
    if !SeemsAlone(g, step.task) {
      NotAloneHasCompany(g, step.task);
    }
  }

  lemma SignalKeepsInv(g: Group, step: Step)
    requires Inv(g) && step.Signal? && Enabled(g, step)
    ensures Inv(Apply(g, step))
  {
    PhaseKeepsThreads(g, Apply(g, step));
  }

  lemma FinishKeepsInv(g: Group, step: Step)
    requires Inv(g) && step.FinishExec? && Enabled(g, step)
    ensures Inv(Apply(g, step))
  {
    var h := Apply(g, step);
    SameTasksSameLive(g.ts, h.ts);
    PhaseKeepsThreads(g, h);
    assert h.exec == map[];
  }

  /** After promotion the caller is the whole task set and owns the PID; its old thread ID finds nobody. */
  lemma PromotionTakesOver(g: Group, t: Task)
    requires Inv(g) && Enabled(g, Promote(t))
    ensures var h := Apply(g, Promote(t));
      && h.ts.list == [t] && !h.ts.exitedMain && LiveTasks(h.ts) == {t}
      && h.tid[t] == g.pid && g.pid in h.slots && h.slots[g.pid] == t
      && (g.tid[t] != g.pid ==> g.tid[t] !in h.slots)
      && (forall d | d != g.pid && d != g.tid[t] :: d in h.slots <==> d in g.slots)
      && (forall d | d in g.slots && d != g.pid && d != g.tid[t] :: h.slots[d] == g.slots[d])
  {
    var h := Apply(g, Promote(t));
    AloneIsAlone(g, t);
    assert TaskFits(g, t);
    assert TaskFits(g, g.ts.list[0]);
    if g.tid[t] == g.pid {
      assert g.ts.list == [t];
      assert g.ts.list[0] in LiveTasks(g.ts);
    } else {
      assert g.ts.list[1] == t;
      assert h.ts.list == [t];
    }
    assert h.ts.list[0] in LiveTasks(h.ts);
  }

  lemma PromoteKeepsInv(g: Group, step: Step)
    requires Inv(g) && step.Promote? && Enabled(g, step)
    ensures Inv(Apply(g, step))
  {
    var h := Apply(g, step);
    PromotionTakesOver(g, step.task);
    AloneIsAlone(g, step.task);
    forall t: Task
      ensures TaskFits(h, t)
    {
      assert TaskFits(g, t) && TaskFits(g, step.task);
    }
    forall d | d in h.slots
      ensures h.slots[d] in h.tid && Holds(h, h.slots[d]) && h.tid[h.slots[d]] == d
    {
      if d != g.pid {
        assert TaskFits(g, g.slots[d]) && TaskFits(g, step.task);
      }
    }
    forall t, u | t in h.tid && u in h.tid && Holds(h, t) && Holds(h, u) && h.tid[t] == h.tid[u]
      ensures t == u
    {
      assert TaskFits(h, t) && TaskFits(h, u);
    }
  }

  // ---------------------------------------------------------------------------
  // Runs
  // ---------------------------------------------------------------------------

  lemma StepKeepsInv(g: Group, step: Step)
    requires Inv(g) && Enabled(g, step)
    ensures Inv(Apply(g, step))
  {
    match step {
      case Spawn(_, _, _) => SpawnKeepsInv(g, step);
      case Publish(_) => PublishKeepsInv(g, step);
      case Exit(_, _) => ExitKeepsInv(g, step);
      case Unpublish(_) => UnpublishKeepsInv(g, step);
      case StartExec(_) => StartExecKeepsInv(g, step);
      case Check(_, _) => CheckKeepsInv(g, step);
      case Signal(_) => SignalKeepsInv(g, step);
      case Promote(_) => PromoteKeepsInv(g, step);
      case FinishExec(_) => FinishKeepsInv(g, step);
    }
  }

  lemma {:induction false} RunKeepsInv(states: seq<Group>, steps: seq<Step>, i: nat)
    requires IsRun(states, steps) && i < |states|
    ensures Inv(states[i])
  {
    if i == 0 {
      StartInv(states[0]);
    } else {
      RunKeepsInv(states, steps, i - 1);
      StepKeepsInv(states[i - 1], steps[i - 1]);
    }
  }

  /** A task is live after a step exactly if it was before and has not exited, or is spawned into an open process. */
  lemma LiveAfter(g: Group, step: Step, t: Task)
    requires Inv(g) && Enabled(g, step)
    ensures t in LiveTasks(Apply(g, step).ts) <==>
            || (t in LiveTasks(g.ts) && !(step.Exit? && step.task == t))
            || (step.Spawn? && step.task == t && !g.ts.exitedGroup && !g.ts.inExecve)
  {
    match step {
      case Spawn(_, task, _) => SpawnedIsLive(g.ts, task, t);
      case Exit(task, wholeGroup) =>
        var flagged := if wholeGroup && !g.ts.inExecve then g.ts.(exitedGroup := true) else g.ts;
        SameTasksSameLive(g.ts, flagged);
        ExitRemovesOne(flagged, task);
      case Promote(task) =>
        PromotionTakesOver(g, task);
        AloneIsAlone(g, task);
      case _ => SameTasksSameLive(g.ts, Apply(g, step).ts);
    }
  }

  lemma SpawnedIsLive(ts: Tasks, task: Task, t: Task)
    requires |ts.list| > 0
    ensures t in LiveTasks(ts.(list := ts.list + [task])) <==> t in LiveTasks(ts) || t == task
  {
    var after := ts.(list := ts.list + [task]);
    assert after.list[|ts.list|] == task;
    if t in LiveTasks(ts) {
      var i :| 0 <= i < |ts.list| && !(i == 0 && ts.exitedMain) && ts.list[i] == t;
      assert after.list[i] == t;
    }
  }

  /** The whole group is told to exit exactly by a group exit outside `execve`, so the two never go together. */
  lemma {:induction false} NeverExitsInExecve(states: seq<Group>, steps: seq<Step>, i: nat)
    requires IsRun(states, steps) && i < |states|
    ensures !(states[i].ts.exitedGroup && states[i].ts.inExecve)
    ensures i > 0 ==>
              (states[i].ts.exitedGroup <==>
                 || states[i - 1].ts.exitedGroup
                 || (steps[i - 1].Exit? && steps[i - 1].wholeGroup && !states[i - 1].ts.inExecve))
  {
    if i > 0 {
      NeverExitsInExecve(states, steps, i - 1);
      FlagsAfter(states[i - 1], steps[i - 1], states[i]);
    }
  }

  lemma FlagsAfter(g: Group, step: Step, h: Group)
    requires Enabled(g, step) && h == Apply(g, step) && !(g.ts.exitedGroup && g.ts.inExecve)
    ensures !(h.ts.exitedGroup && h.ts.inExecve)
    ensures h.ts.exitedGroup <==> g.ts.exitedGroup || (step.Exit? && step.wholeGroup && !g.ts.inExecve)
  {
  }

  /** A group that exits stays so, and from then on threads and calls of `execve` only become fewer. */
  lemma {:induction false} ExitingGroupShrinks(states: seq<Group>, steps: seq<Step>, i: nat, j: nat)
    requires IsRun(states, steps) && i <= j < |states| && states[i].ts.exitedGroup
    ensures states[j].ts.exitedGroup && LiveTasks(states[j].ts) <= LiveTasks(states[i].ts)
    ensures states[j].exec.Keys <= states[i].exec.Keys
  {
    if i < j {
      ExitingGroupShrinks(states, steps, i, j - 1);
      ShrinksOnce(states, steps, j - 1);
    }
  }

  lemma ShrinksOnce(states: seq<Group>, steps: seq<Step>, i: nat)
    requires IsRun(states, steps) && i < |steps| && states[i].ts.exitedGroup
    ensures states[i + 1].ts.exitedGroup && LiveTasks(states[i + 1].ts) <= LiveTasks(states[i].ts)
    ensures states[i + 1].exec.Keys <= states[i].exec.Keys
  {
    RunKeepsInv(states, steps, i);
    ExitingGroupStep(states[i], steps[i], states[i + 1]);
  }

  lemma NoExecStarts(g: Group, step: Step)
    requires Enabled(g, step) && g.ts.exitedGroup
    ensures Apply(g, step).ts.exitedGroup && Apply(g, step).exec.Keys <= g.exec.Keys
  {
  }

  lemma ExitingGroupStep(g: Group, step: Step, h: Group)
    requires Inv(g) && Enabled(g, step) && h == Apply(g, step) && g.ts.exitedGroup
    ensures h.ts.exitedGroup && LiveTasks(h.ts) <= LiveTasks(g.ts) && h.exec.Keys <= g.exec.Keys
  {
    NoExecStarts(g, step);
    forall t | t in LiveTasks(h.ts)
      ensures t in LiveTasks(g.ts)
    {
      LiveAfter(g, step, t);
    }
  }

  /** No wake-up is lost: a thread that sleeps in `execve` and has not been woken still waits for somebody. */
  lemma SleeperHasCompany(states: seq<Group>, steps: seq<Step>, i: nat, t: Task)
    requires IsRun(states, steps) && i < |states| && t in states[i].exec && states[i].exec[t] == Asleep(false)
    ensures exists other :: other != t && other in LiveTasks(states[i].ts)
  {
    RunKeepsInv(states, steps, i);
    var other :| other in LiveTasks(states[i].ts) - {t};
  }

  /** The exit of the last other thread wakes the sleeper, whatever happened since it fell asleep. */
  lemma ExitWakesSleeper(states: seq<Group>, steps: seq<Step>, i: nat, t: Task)
    requires IsRun(states, steps) && i < |steps| && steps[i].Exit?
    requires t in states[i].exec && states[i].exec[t].Asleep?
    ensures t in states[i + 1].exec && states[i + 1].exec[t] == Asleep(true)
  {
    RunKeepsInv(states, steps, i);
  }

  /** At most one thread is inside `execve`. */
  lemma OneExecAtATime(states: seq<Group>, steps: seq<Step>, i: nat, t: Task, u: Task)
    requires IsRun(states, steps) && i < |states| && t in states[i].exec && u in states[i].exec
    ensures t == u
  {
    RunKeepsInv(states, steps, i);
  }

  /** When the wait loop ends well, its caller is the only live thread, and stays so until it is the main thread. */
  lemma WaitLoopEndsAlone(states: seq<Group>, steps: seq<Step>, i: nat, t: Task)
    requires IsRun(states, steps) && i < |states| && t in states[i].exec && states[i].exec[t] == Alone
    ensures LiveTasks(states[i].ts) == {t}
  {
    RunKeepsInv(states, steps, i);
    AloneIsAlone(states[i], t);
  }

  /**
    In every state of every run the main task is at index 0 and holds the PID; the answer "that was
    the last task" has been given at most once, exactly when nobody is left, and then the set holds
    one task whose thread ID is the PID, as reaping the zombie expects.
   */
  lemma LastTaskAnsweredOnce(states: seq<Group>, steps: seq<Step>, i: nat)
    requires IsRun(states, steps) && i < |states|
    ensures var g := states[i];
      && |g.ts.list| > 0 && g.ts.list[0] in g.tid && g.tid[g.ts.list[0]] == g.pid
      && g.lastAnswers <= 1
      && (g.lastAnswers == 1 <==> LiveTasks(g.ts) == {})
      && (LiveTasks(g.ts) == {} ==> |g.ts.list| == 1)
  {
    RunKeepsInv(states, steps, i);
    assert TaskFits(states[i], states[i].ts.list[0]);
    AllExitedMeansNobodyLeft(states[i].ts);
  }

  /** Thread IDs resolve correctly: the thread slots list exactly the tasks that hold an ID and have been published. */
  lemma SlotsResolve(states: seq<Group>, steps: seq<Step>, i: nat, t: Task)
    requires IsRun(states, steps) && i < |states| && Holds(states[i], t) && t !in states[i].starting
    ensures t in states[i].tid && states[i].tid[t] in states[i].slots
    ensures forall d | d in states[i].slots :: states[i].slots[d] == t <==> d == states[i].tid[t]
  {
    RunKeepsInv(states, steps, i);
    assert TaskFits(states[i], t);
  }
}
