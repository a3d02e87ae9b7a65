# Verified models of the kernel's process lifecycle, IPC identifiers, Sixel decoder and system-call loops

This project models parts of an operating-system kernel written in Rust and proves properties of the
model for all inputs, all runs or all reachable states.

- **Process lifecycle.** `clone`, `exit`, `wait`, `ptrace` attach/detach and `prctl` on the process tree and the PID
  table. `ProcessTree.dfy` and `Waiting.dfy` define what each locked section does to the process records.
  `Lifecycle.dfy` is the concurrent protocol: one step for each locked section, in any interleaving, with what a
  thread remembers between two sections as part of the state. `LifecycleProofs.dfy` proves the invariant;
  `LifecycleTheorems.dfy`, `TimeTheorems.dfy`, `MarkTheorems.dfy` and `FieldTheorems.dfy` prove what follows for every
  run.
  `SubreaperRace.dfy` and `LostTime.dfy` exhibit runs (built with `Reachability.dfy`) in which an expected property
  fails. `Kernel.dfy` has the loops of the kernel on mutable state, proved to compute the same functions; its retry
  loops run under the interference that `Interference.dfy` derives from the protocol.
- **PID table and task set.** `PidTable.dfy` refines four independent maps. `TaskSet.dfy`, `Exec.dfy` and
  `ExecProofs.dfy` model the threads of one process, including `execve` by a thread that is not the main thread.
- **IPC identifiers.** `Ipc.dfy`: the bitmap allocator, the table on top of it, and the lookup-or-create loop for
  semaphore sets with other threads interfering.
- **Sixel.** `Sixel.dfy` defines what a Sixel stream means (columns painted on an infinite black canvas; the format is
  chapter 14 of the VT330/VT340 Programmer Reference Manual), `SixelDecoder.dfy` has the decoder loops and proves that
  they draw exactly that, and `SixelLaws.dfy` proves laws of streams. `SixelCarriage.dfy` says in pixels what `$` and `-`
  do, and `SixelDrawing.dfy` that printing any drawing and decoding it gives exactly the pixels it describes.
- **Byte- and bit-moving loops.** `Sendfile.dfy`, `Poll.dfy`, `Select.dfy`, `Dirents.dfy` (`getdents`), `Affinity.dfy`,
  with 64-bit words as bit sequences in `Words.dfy`.

Things outside the modelled code are parameters: what files answer when they are polled, read or written, which
processes have a stop to report, how waits of the poller end, which descriptors are open, and what other threads do
between two locked sections. They are arbitrary, so the results hold for all of them.

PIDs are allocated by a counter that only grows (kernel/src/process/posix_thread/mod.rs:401-402), so a PID doubles as
the birth stamp of its process.

Where the code and its documentation disagree, the model follows the code:

- The comment at kernel/src/process/process/mod.rs:129-134 says that `has_child_subreaper`, once true of a process, is
  true of all its descendants. While a new subreaper is still marking, one `children` map at a time, it cannot be: the
  marks are settled when every marked process that no marking has still to visit has marked children only.
  `MarkTheorems.RunMarksExactlyWhen` says exactly which runs keep the marks settled, in any interleaving of the marking
  with the other steps, and `ProcessTree.SearchesAgreeExactlyWhen` in which states the search that relies on the marks
  is right. `SubreaperRace.MarksCanBeLost` is a run that loses them because an exiting process climbs from an ancestor
  that is no longer its parent, and `SubreaperRace.MarksCanBeOvertaken` one that loses them although every move goes to
  an ancestor, because a move comes between two levels of the marking.
- CPU time is not conserved once a process has been reaped: its last thread may still be charged ticks, as in
  `LostTime.TimeCanBeLost`. `TimeTheorems.RunConservesTime` accounts for them and
  `TimeTheorems.AllTimeHeldExactlyWhen` says exactly when nothing is lost.
- Sixel registers of 256 and more make the plain path panic and are clamped on the repeat path. Both are modelled;
  `SixelLaws.PanicsExactlyWhen` and `SixelLaws.RunLengthExactlyWhen` state the exact conditions, and
  `SixelLaws.PlainSixelPanics` and `SixelLaws.RepeatedSixelDraws` are concrete streams.
- Record lengths of 64 KiB and more are truncated by `getdents`. `Dirents.ReadDir` states that the buffer can be walked
  back exactly when no accepted record was truncated. Names that come from paths are too short for that
  (`Dirents.PathNamesFit`); `Dirents.LongNameIsLost` is a longer one.

Where arithmetic can overflow (Sixel percentages, the padding of truncated directory records), both builds are
modelled: the checked one panics and the unchecked one wraps around.

## Model

| member | source | states |
|---|---|---|
| `ProcessTree.ChainReachesInit` | kernel/src/process/exit.rs:95-127 | in a well-formed tree every chain of parents gets strictly older, consists of unreaped processes that still list children, and ends at init, so the climb ends |
| `ProcessTree.ListedExactlyOnce` | kernel/src/process/clone.rs:884-932 | an unreaped process other than init is in exactly one `children` map, that of the process its `parent` field names |
| `ProcessTree.LeftNoChildren` | kernel/src/process/exit.rs:133-158 | a process whose `children` is `None` is the parent of no unreaped process |
| `ProcessTree.MarkedSearchIsNearest` | kernel/src/process/exit.rs:95-127 | the search with the `has_child_subreaper` shortcut equals the plain search for the nearest live subreaper, else init, whenever marks are inherited |
| `ProcessTree.SearchesAgreeExactlyWhen` | kernel/src/process/exit.rs:95-127 | whatever the marks are, the two searches agree if and only if the plain one ends at init or every process on its way carries the mark |
| `ProcessTree.NearestIsFirst` | kernel/src/process/exit.rs:95-127 | the plain search answers the first live subreaper in the chain of parents, or init when there is none before it |
| `ProcessTree.SearchFindsAnOpenAncestor` | kernel/src/process/exit.rs:71-90 | the search answers an ancestor that still accepts children |
| `ProcessTree.SubreaperMarksAllDescendants` | kernel/src/process/process/mod.rs:738-784 | becoming a subreaper marks exactly the process, its descendants and what was marked before, although propagation stops at marked processes |
| `ProcessTree.WithChildKeepsTree` | kernel/src/process/clone.rs:884-932 | linking a new process keeps the tree well-formed |
| `ProcessTree.MoveKeepsTree` | kernel/src/process/exit.rs:133-158 | handing the children to an older process keeps the tree well-formed |
| `ProcessTree.ReapKeepsTree` | kernel/src/process/wait.rs:339-345 | reaping an untraced zombie child keeps the tree well-formed |
| `ProcessTree.ZombieKeepsTree` | kernel/src/process/exit.rs:30-36 | becoming a zombie after the children are gone keeps the tree well-formed |
| `ProcessTree.WithChildKeepsMarks` | kernel/src/process/clone.rs:901-906 | a new process keeps the marks settled, whatever is still to be visited |
| `ProcessTree.ReapKeepsMarks` | kernel/src/process/wait.rs:339-375 | reaping keeps the marks settled |
| `ProcessTree.SubreaperKeepsMarks` | kernel/src/process/process/mod.rs:738-784 | becoming a subreaper undisturbed keeps marks inherited by all descendants |
| `ProcessTree.FlagKeepsMarks` | kernel/src/process/process/mod.rs:738-744 | setting the two flags of a new subreaper keeps the marks settled once its own children are still to be visited |
| `ProcessTree.MarkingKeepsMarks` | kernel/src/process/process/mod.rs:757-784 | marking the children of one process keeps the marks settled, with the newly marked ones still to be visited in its place |
| `ProcessTree.MoveKeepsMarksExactlyWhen` | kernel/src/process/exit.rs:133-158 | a move keeps the marks settled if and only if it does not put an unmarked child below a marked reaper that nobody has still to visit |
| `ProcessTree.MoveUpwardsKeepsMarks` | kernel/src/process/exit.rs:71-158 | a move to an ancestor always keeps marks inherited |
| `ProcessTree.ReapConservesTime` | kernel/src/process/wait.rs:368-372 | reaping moves CPU time from child to parent without loss or double counting |
| `ProcessTree.MoveConservesTime` | kernel/src/process/exit.rs:148-157 | reparenting does not change the total of accounted time |
| `Waiting.PassReports` | kernel/src/process/wait.rs:63-80 | a pass reports exits only of unreaped zombies, to their tracer or, untraced, to their parent |
| `Waiting.PassAnswers` | kernel/src/process/wait.rs:63-86 | on the records alone: `ECHILD` if and only if the caller accepts no child and no tracee of its own; a report if and only if one of them is ready, of the oldest ready tracee or else the oldest ready untraced child, as an exit or a stop; otherwise nothing yet |
| `Waiting.OneRightAnswer` | kernel/src/process/wait.rs:63-86 | these conditions leave room for one answer only |
| `Waiting.ConsumedIsOver` | kernel/src/process/wait.rs:241-282 | a process whose exit was reported to a waiter and consumed is never reported to that waiter again |
| `LifecycleProofs.BootInv` | kernel/src/process/process/init_proc.rs:102-150 | the initial state, with init alone, satisfies the invariant |
| `LifecycleProofs.AllocateKeepsInv` | kernel/src/process/posix_thread/mod.rs:401-402 | taking a fresh PID keeps the invariant |
| `LifecycleProofs.CounterKeepsInv` | kernel/src/process/clone.rs:457 | a thread taking its ID from the same counter keeps the invariant |
| `LifecycleProofs.AbandonKeepsInv` | kernel/src/process/clone.rs:586-646 | a clone that fails after taking its PID keeps the invariant |
| `LifecycleProofs.ReadParentKeepsInv` | kernel/src/process/clone.rs:934-942 | reading the parent to link to, without holding its lock, keeps the invariant |
| `LifecycleProofs.LinkKeepsInv` | kernel/src/process/clone.rs:884-932 | linking under a remembered, possibly stale parent keeps tree, PID table, time and reports consistent |
| `LifecycleProofs.StartSearchKeepsInv` | kernel/src/process/exit.rs:95-101 | starting, or restarting, the search keeps the invariant |
| `LifecycleProofs.ClimbKeepsInv` | kernel/src/process/exit.rs:95-127 | one turn of the climb, also after a lost path, keeps the invariant |
| `LifecycleProofs.MoveChildrenKeepsInv` | kernel/src/process/exit.rs:133-158 | a move to a remembered, possibly stale reaper keeps the invariant, or is retried |
| `LifecycleProofs.SearchAndMoveKeepsInv` | kernel/src/process/exit.rs:71-90 | an undisturbed search and move keeps the invariant |
| `LifecycleProofs.ZombieKeepsInv` | kernel/src/process/exit.rs:30-36 | becoming a zombie keeps the invariant |
| `LifecycleProofs.ReapKeepsInv` | kernel/src/process/wait.rs:339-375 | reaping keeps the invariant: tree, PID table and its count, CPU time, at most one reaping report |
| `LifecycleProofs.ReleaseKeepsInv` | kernel/src/process/wait.rs:251-282 | consuming the exit of a tracee keeps the invariant |
| `LifecycleProofs.WaitKeepsInv` | kernel/src/process/wait.rs:51-106 | one wait pass, with or without `WNOWAIT`, keeps the invariant |
| `LifecycleProofs.FieldChangeKeepsInv` | kernel/src/process/posix_thread/ptrace/mod.rs:267-289 | attaching and detaching a tracer, and setting or clearing the subreaper flag, keep the invariant |
| `LifecycleProofs.ChargeKeepsInv` | kernel/src/process/process/timer_manager.rs:55-71 | charging a tick to any process, reaped or not, keeps the invariant |
| `LifecycleProofs.ChargeIsHeldOrLost` | kernel/src/process/process/timer_manager.rs:55-71 | a charge adds to what unreaped processes account for or, for a reaped one, to what is lost |
| `LifecycleProofs.StepKeepsInv` | kernel/src/process/clone.rs:884-942 | every step of every thread keeps the invariant |
| `LifecycleProofs.RunKeepsInv` | kernel/src/process/exit.rs:71-158 | the invariant holds in every state of every interleaving |
| `LifecycleTheorems.RunListsOnce` | kernel/src/process/clone.rs:884-932 | in every reachable state an unreaped process other than init is listed by its parent and by nobody else |
| `LifecycleTheorems.RunReachesInit` | kernel/src/process/exit.rs:95-127 | in every reachable state parent chains get strictly older and end at init |
| `LifecycleTheorems.RunTableAgrees` | kernel/src/process/clone.rs:908-928 | in every reachable state the PID table finds exactly the linked, unreaped processes and counts them |
| `LifecycleTheorems.RetrySeesAnotherParent` | kernel/src/process/clone.rs:891-896 | a retry happens only for `CLONE_PARENT`, and sees a different parent that does accept children |
| `LifecycleTheorems.SearchAndMoveSucceeds` | kernel/src/process/exit.rs:71-90 | without interference one search and one move suffice |
| `LifecycleTheorems.ReapsOnlyOwnUntracedZombies` | kernel/src/process/wait.rs:285-375 | only a wait of the parent without `WNOWAIT` reaps, and only a zombie that nobody else traces |
| `LifecycleTheorems.ReapedForever` | kernel/src/process/wait.rs:339-345 | a reaped process stays reaped |
| `LifecycleTheorems.ReportWritten` | kernel/src/process/wait.rs:251-336 | a consumed report of an exit reaps if and only if the waiter is the parent, and goes to the tracer or else the parent |
| `LifecycleTheorems.ExitReportedOnce` | kernel/src/process/wait.rs:206-234 | if an exit is reported twice in a run, the first report went to a tracer that was not the parent; so a tracer that is the parent hears of it as `TraceeExit` or `Zombie` and never both |
| `LifecycleTheorems.ReapedWhenReported` | kernel/src/process/wait.rs:251-336 | a process has been reaped if and only if a reaping report of it was given |
| `LifecycleTheorems.ClosedStays` | kernel/src/process/exit.rs:133-158 | a process that has handed its children over never lists children again |
| `LifecycleTheorems.CloneTurnsStale` | kernel/src/process/clone.rs:891-896 | the parent a clone has read loses its `children` only in a later step in which some process hands its children over |
| `LifecycleTheorems.ExitTurnsStale` | kernel/src/process/exit.rs:76-81 | the same for the ancestor or reaper an exit has got to |
| `LifecycleTheorems.CloneRetriesBounded` | kernel/src/process/clone.rs:885-896 | over every run a clone reads its parent again at most as often as processes hand their children over |
| `LifecycleTheorems.ExitRetriesBounded` | kernel/src/process/exit.rs:76-81 | over every run an exit searches again at most as often as processes hand their children over |
| `TimeTheorems.ChargedSoFar` | kernel/src/process/process/timer_manager.rs:61-71 | the charged total of a state is the sum over the steps so far |
| `TimeTheorems.LostSoFar` | kernel/src/process/process/timer_manager.rs:61-71 | the lost total of a state is the sum of the charges to processes already reaped |
| `TimeTheorems.RunConservesTime` | kernel/src/process/wait.rs:368-372 | over every run, own time plus reaped-children totals of the unreaped processes plus what was charged to reaped ones equal all time ever charged |
| `TimeTheorems.AllTimeHeldExactlyWhen` | kernel/src/process/wait.rs:368-372 | the unreaped processes account for all time ever charged if and only if every charge to a reaped process was zero |
| `LostTime.TimeCanBeLost` | kernel/src/process/exit.rs:30-45 | a reachable state in which a tick charged after the reap is accounted for by no process |
| `FieldTheorems.StepFields` | kernel/src/process/process/mod.rs:738-750 | subreaper flag, zombie flag, tracer, own time and reaped time of a process change only in the steps meant for them, and exactly as meant |
| `FieldTheorems.NewProcessFields` | kernel/src/process/process/mod.rs:246-270 | a process is created by the link of its clone alone, as no subreaper, untraced, and with no time |
| `FieldTheorems.RunFields` | kernel/src/process/process/mod.rs:738-750 | in every state of every run a process is a subreaper if and only if it was made one and not unmade since, a zombie if and only if it has exited, traced by whoever attached last and has neither let go nor been told of its exit, and its two clocks hold exactly the user and kernel time charged to it and taken over from reaped children |
| `MarkTheorems.SettledAtRest` | kernel/src/process/process/mod.rs:129-134 | with no marking under way, settled marks are the same as marks inherited by all descendants |
| `MarkTheorems.StepKeepsMarks` | kernel/src/process/process/mod.rs:738-784 | every step except a move keeps the marks settled, each single step of a marking included |
| `MarkTheorems.MoveStepKeepsMarksExactlyWhen` | kernel/src/process/exit.rs:71-158 | a move to a remembered reaper, or an undisturbed search and move, keeps the marks settled if and only if it puts no unmarked child below a marked reaper that nobody has still to visit |
| `MarkTheorems.RunMarksExactlyWhen` | kernel/src/process/process/mod.rs:129-134 | up to any state of a run the marks have been settled throughout if and only if every successful move was safe in that sense |
| `MarkTheorems.AncestorIsSafe` | kernel/src/process/exit.rs:71-90 | a move to a process that is still an ancestor is safe when nobody is marking |
| `MarkTheorems.RunKeepsMarks` | kernel/src/process/process/mod.rs:129-134 | marks stay settled in all runs whose moves go to processes that are still ancestors, at moments when nobody is marking |
| `MarkTheorems.RunSearchIsNearest` | kernel/src/process/exit.rs:95-127 | after safe moves and with nobody marking, the kernel's search agrees with the plain one from every process |
| `Reachability.ReachableFork` | kernel/src/process/clone.rs:884-932 | a whole fork by an active process is a run of the protocol |
| `SubreaperRace.MarksCanBeLost` | kernel/src/process/exit.rs:95-127 | a reachable state in which a marked subreaper has an unmarked child and the search with the shortcut misses it |
| `SubreaperRace.MarksCanBeOvertaken` | kernel/src/process/process/mod.rs:757-784 | the same after a run whose only move went to the parent, between two levels of the marking |
| `SubreaperRace.SearchWhileMarking` | kernel/src/process/process/mod.rs:757-784 | a reachable state in the middle of a marking, in which the search misses two subreapers above |
| `Interference.StepDisturbs` | kernel/src/process/exit.rs:71-158 | every step of the protocol that is not part of the exit of a process is an interference that the retry loops below allow for |
| `Interference.DisturbsTransitive` | kernel/src/process/exit.rs:71-158 | any number of such interferences in a row is again one |
| `Interference.OthersDoNotCreate` | kernel/src/process/clone.rs:884-932 | no step but its own link creates the process of a pending clone, so others leave it uncreated |
| `Kernel.ProcessKernel.Boot` | kernel/src/process/process/init_proc.rs:102-150 | tree and PID table agree after booting |
| `Kernel.ProcessKernel.FindReaperProcess` | kernel/src/process/exit.rs:95-127 | under any finite interference, lost paths included, the climb ends at an older process; undisturbed it finds what the search function says, which is the nearest live subreaper, else init, when marks are inherited |
| `Kernel.ProcessKernel.MoveProcessChildren` | kernel/src/process/exit.rs:133-158 | the loop moves all children at once and changes nothing else, or fails when the reaper has no `children` |
| `Kernel.ProcessKernel.MoveChildrenToReaperProcess` | kernel/src/process/exit.rs:71-90 | under any finite interference the retry loop ends and the children are moved to a process that still accepts them at that moment; init keeps its own |
| `Kernel.ProcessKernel.ExitProcess` | kernel/src/process/exit.rs:18-46 | the whole new tree after an exit; tree and PID table still agree |
| `Kernel.ProcessKernel.LinkToParent` | kernel/src/process/clone.rs:884-906 | under any finite interference the retry loop ends, and the child is linked below the process that is its right parent at that moment and inherits its mark; the child has the mark of that process and is otherwise new: no subreaper, no tracer, no children |
| `Kernel.ProcessKernel.SetParentAndGroup` | kernel/src/process/clone.rs:884-932 | the same with the PID table: the child enters it, and tree and table agree; the fields of the child |
| `Kernel.ProcessKernel.MarkOne` | kernel/src/process/process/mod.rs:760-768 | one atomic marking with its queue entry |
| `Kernel.ProcessKernel.MarkChildren` | kernel/src/process/process/mod.rs:770-783 | one marking step of the protocol: exactly the children of one process are marked, and exactly those without a mark before are queued |
| `Kernel.ProcessKernel.PropagateHasChildSubreaper` | kernel/src/process/process/mod.rs:757-784 | the breadth-first loop ends and marks exactly what downward propagation reaches |
| `Kernel.ProcessKernel.SetChildSubreaper` | kernel/src/process/process/mod.rs:738-744 | after `PR_SET_CHILD_SUBREAPER` the process is a subreaper, nothing but marks has changed elsewhere, and if marks were inherited exactly its descendants have got one and marks still are inherited |
| `Kernel.ProcessKernel.ReapZombieChild` | kernel/src/process/wait.rs:339-375 | the child leaves tree and PID table; its user and kernel time go to the reaped time of the parent, whose own time stays |
| `Kernel.ProcessKernel.CleanupExitedTracee` | kernel/src/process/wait.rs:251-282 | the tracer lets go, and reaps only its own child |
| `Kernel.ProcessKernel.TryWaitTracees` | kernel/src/process/wait.rs:183-249 | the scan reports the least matching tracee with something to report and nothing else changes; a thread without tracees matches none |
| `Kernel.ProcessKernel.TryWaitChildren` | kernel/src/process/wait.rs:285-336 | the scan reports the least matching untraced child with something to report and reaps it if it is a zombie |
| `Kernel.ProcessKernel.WaitPass` | kernel/src/process/wait.rs:63-80 | tracees of the calling thread before children; `ECHILD`, a report or nothing yet exactly as `Waiting.PassAnswers` says of the records |
| `PidTables.StoreWritesThreads` | kernel/src/process/pid_table.rs:363-470 | a stored entry shows in the thread map at its identifier only |
| `PidTables.StoreWritesProcesses` | kernel/src/process/pid_table.rs:363-470 | the same for the process map |
| `PidTables.StoreWritesGroups` | kernel/src/process/pid_table.rs:363-470 | the same for the process-group map |
| `PidTables.StoreWritesSessions` | kernel/src/process/pid_table.rs:363-470 | the same for the session map |
| `PidTables.UnchangedSlots` | kernel/src/process/pid_table.rs:363-470 | slots written back as they were leave the four maps alone |
| `PidTables.PidTable.constructor` | kernel/src/process/pid_table.rs:39-48 | the empty table |
| `PidTables.PidTable.InsertThread` | kernel/src/process/pid_table.rs:51-58 | one entry more in the thread map; the other maps and the count unchanged |
| `PidTables.PidTable.RemoveThread` | kernel/src/process/pid_table.rs:64-81 | one entry less in the thread map only; an empty entry is dropped |
| `PidTables.PidTable.TakeThread` | kernel/src/process/pid_table.rs:86-106 | returns and removes the thread, if there is one |
| `PidTables.PidTable.ReplaceThread` | kernel/src/process/pid_table.rs:109-114 | another thread under the same identifier |
| `PidTables.PidTable.GetThread` | kernel/src/process/pid_table.rs:117-121 | looks up the thread map |
| `PidTables.PidTable.InsertProcess` | kernel/src/process/pid_table.rs:133-141 | process and main-thread slot are filled together and the count goes up by one |
| `PidTables.PidTable.RemoveProcess` | kernel/src/process/pid_table.rs:148-168 | both slots are emptied and the count stays the number of processes |
| `PidTables.PidTable.GetProcess` | kernel/src/process/pid_table.rs:171-175 | looks up the process map |
| `PidTables.PidTable.InsertProcessGroup` | kernel/src/process/pid_table.rs:192-195 | one entry more in the group map only |
| `PidTables.PidTable.RemoveProcessGroup` | kernel/src/process/pid_table.rs:198-213 | one entry less in the group map only |
| `PidTables.PidTable.InsertSession` | kernel/src/process/pid_table.rs:232-235 | one entry more in the session map only |
| `PidTables.PidTable.RemoveSession` | kernel/src/process/pid_table.rs:238-253 | one entry less in the session map only |
| `TaskSets.ExitRemovesOne` | kernel/src/process/task_set.rs:56-75 | an exit takes exactly that task out of the live ones and leaves the main task at index 0 |
| `TaskSets.AllExitedMeansNobodyLeft` | kernel/src/process/task_set.rs:70-75 | the answer of `remove_exited` is true if and only if no task is live |
| `TaskSets.TaskSet.Insert` | kernel/src/process/task_set.rs:37-44 | a task is added unless the group has exited or an `execve` is under way |
| `TaskSets.TaskSet.Position` | kernel/src/process/task_set.rs:56-62 | the first index of the task |
| `TaskSets.TaskSet.RemoveExited` | kernel/src/process/task_set.rs:56-75 | exactly that task leaves the live ones, the waker is woken, the answer is right, and a set without live tasks holds one task |
| `TaskSets.TaskSet.SwapMain` | kernel/src/process/task_set.rs:85-91 | the other task becomes the main and only task |
| `TaskSets.TaskSet.SetExitedGroup` | kernel/src/process/task_set.rs:94-97 | sets that flag only |
| `TaskSets.TaskSet.StartExecve` | kernel/src/process/task_set.rs:105-108 | sets that flag only |
| `TaskSets.TaskSet.FinishExecve` | kernel/src/process/task_set.rs:111-113 | clears that flag only |
| `TaskSets.TaskSet.SetExecveWaker` | kernel/src/process/task_set.rs:124-127 | registers the waker only |
| `TaskSets.TaskSet.ClearExecveWaker` | kernel/src/process/task_set.rs:130-132 | drops the waker only |
| `Exec.MakeCurrentMainThread` | kernel/src/process/execve.rs:247-285 | task set and PID table after the promotion: the caller is the only task, the PID finds it, its old thread ID finds nothing, process slot and count are unchanged |
| `ExecProofs.StartInv` | kernel/src/process/task_set.rs:23-31 | a process with one running main thread satisfies the invariant |
| `ExecProofs.SpawnKeepsInv` | kernel/src/process/clone.rs:492-501 | adding a thread, or being refused, keeps the invariant |
| `ExecProofs.PublishKeepsInv` | kernel/src/process/clone.rs:503-504 | the later insertion into the PID table keeps the invariant |
| `ExecProofs.ExitKeepsInv` | kernel/src/process/posix_thread/exit.rs:62-88 | an exit under the task-set lock, with its wake-up, keeps the invariant |
| `ExecProofs.UnpublishKeepsInv` | kernel/src/process/posix_thread/exit.rs:106-108 | the later removal from the PID table keeps the invariant |
| `ExecProofs.StartExecKeepsInv` | kernel/src/process/execve.rs:66-79 | the exclusion check keeps the invariant |
| `ExecProofs.CheckKeepsInv` | kernel/src/process/execve.rs:212-245 | one turn of the wait loop (clear, test, register, sleep) keeps the invariant |
| `ExecProofs.SignalKeepsInv` | kernel/src/process/execve.rs:228-229 | a wake-up by a signal keeps the invariant |
| `ExecProofs.FinishKeepsInv` | kernel/src/process/task_set.rs:111-113 | ending an `execve`, successful or not, keeps the invariant |
| `ExecProofs.PromoteKeepsInv` | kernel/src/process/execve.rs:247-285 | the promotion keeps the invariant |
| `ExecProofs.AloneIsAlone` | kernel/src/process/execve.rs:217-223 | a thread that passes the length test really is the only live task |
| `ExecProofs.NotAloneHasCompany` | kernel/src/process/execve.rs:217-223 | a thread that fails it really has company |
| `ExecProofs.CheckSucceedsExactlyWhen` | kernel/src/process/execve.rs:212-245 | the wait loop succeeds if and only if the caller is the only live task, fails if and only if it is killed before that, and else sleeps |
| `ExecProofs.StepKeepsInv` | kernel/src/process/execve.rs:66-79 | every step keeps the invariant |
| `ExecProofs.RunKeepsInv` | kernel/src/process/execve.rs:212-285 | the invariant holds in every state of every run |
| `ExecProofs.PromotionTakesOver` | kernel/src/process/execve.rs:247-285 | after promotion the set is exactly the caller, the PID resolves to it, the old thread ID to nobody, and other identifiers as before |
| `ExecProofs.SleeperHasCompany` | kernel/src/process/execve.rs:225-243 | a thread asleep in `execve` and not yet woken still waits for a live thread: no wake-up is lost |
| `ExecProofs.ExitWakesSleeper` | kernel/src/process/task_set.rs:70-74 | every exit wakes the sleeper |
| `ExecProofs.OneExecAtATime` | kernel/src/process/execve.rs:66-79 | at most one thread is inside `execve` |
| `ExecProofs.WaitLoopEndsAlone` | kernel/src/process/execve.rs:212-245 | from the success of the wait loop until the promotion the caller is the only live task |
| `ExecProofs.LastTaskAnsweredOnce` | kernel/src/process/wait.rs:349-357 | index 0 always holds the thread with the PID; "last task" is answered once, exactly when none is left; a zombie's set holds one task |
| `ExecProofs.SlotsResolve` | kernel/src/process/execve.rs:283-284 | a published thread is found under its thread ID and under no other |
| `ExecProofs.LiveAfter` | kernel/src/process/task_set.rs:34-90 | a task is live after a step if and only if it was and has not exited, or was spawned while neither a group exit nor an `execve` was under way |
| `ExecProofs.NeverExitsInExecve` | kernel/src/process/posix_thread/exit.rs:60-80 | in every run the group flag is set exactly by group exits outside `execve`, so the two are never under way together |
| `ExecProofs.ExitingGroupShrinks` | kernel/src/process/task_set.rs:93-107 | from a group exit on the live tasks and the calls of `execve` only become fewer |
| `Sixel.FieldsOfPrinted` | kernel/src/fb_console.rs:602-627 | printed decimal lists are read back, numbers beyond 32 bits as the largest 32-bit number |
| `Sixel.FieldsSplit` | kernel/src/fb_console.rs:614-620 | a semicolon ends a field, and an empty field counts as 0 |
| `Sixel.SpanStopsAt` | kernel/src/fb_console.rs:602-627 | exactly the longest run of digits and semicolons is consumed |
| `Sixel.ParamsReadBack` | kernel/src/fb_console.rs:602-627 | parameters followed by any other byte are recovered exactly, with the length consumed |
| `Sixel.RgbOfPercentages` | kernel/src/fb_console.rs:493-499 | percentages up to 100 each fill their own byte of the colour |
| `Sixel.RowMajorAt` | kernel/src/fb_console.rs:559-566 | where each pixel of the canvas ends up in the output |
| `SixelDecoder.ParseSixelParams` | kernel/src/fb_console.rs:602-627 | the saturating loop reads the list and consumes the span that the definition gives |
| `SixelDecoder.ParseByte` | kernel/src/fb_console.rs:602-627 | one byte of a parameter list, with saturating arithmetic |
| `SixelDecoder.EnsureGrid` | kernel/src/fb_console.rs:569-579 | the grid grows to what is needed, stays rectangular and keeps its pixels |
| `SixelDecoder.WriteSixelCol` | kernel/src/fb_console.rs:581-600 | exactly the pixels whose bits are set change colour |
| `SixelDecoder.PaintColumn` | kernel/src/fb_console.rs:524-525 | growing and painting together act like painting on the infinite canvas |
| `SixelDecoder.PaintRun` | kernel/src/fb_console.rs:523-527 | a run paints its columns side by side |
| `SixelDecoder.RepeatSixel` | kernel/src/fb_console.rs:511-530 | a repeat command with the clamped register |
| `SixelDecoder.TakeTurn` | kernel/src/fb_console.rs:484-552 | one turn of the decoder does what the first command of the rest means |
| `SixelDecoder.Flatten` | kernel/src/fb_console.rs:559-564 | rows are written out in order |
| `SixelDecoder.DecodeAll` | kernel/src/fb_console.rs:483-552 | the loop over the stream ends with the columns the stream paints, on a grid that shows them |
| `SixelDecoder.DecodeFrom` | kernel/src/fb_console.rs:483-567 | the same with the final image, from any pen |
| `SixelDecoder.DecodeSixel` | kernel/src/fb_console.rs:466-567 | on every input and in checked and unchecked builds the decoder ends and draws exactly the picture the stream means, cropped to what was painted, or panics exactly when the meaning says so |
| `SixelLaws.CommandOfRun` | kernel/src/fb_console.rs:511-530 | what an encoded run does as a command |
| `SixelLaws.CopiesPaint` | kernel/src/fb_console.rs:540-547 | what its copies do one after the other |
| `SixelLaws.PanicsExactlyWhen` | kernel/src/fb_console.rs:487-547 | decoding panics if and only if a plain sixel is met under a register of 256 or more or, in a checked build, a percentage overflows |
| `SixelLaws.PicturePanicsExactlyWhen` | kernel/src/fb_console.rs:466-567 | the same for a whole stream, decided by its bytes alone |
| `SixelLaws.PlainSixelPanics` | kernel/src/fb_console.rs:540-542 | `#256?` panics |
| `SixelLaws.RepeatedSixelDraws` | kernel/src/fb_console.rs:520-522 | `#256!1?` draws an image |
| `SixelLaws.BuildsAgreeExactlyWhen` | kernel/src/fb_console.rs:496-499 | checked and unchecked builds draw the same picture if and only if the overflow check adds no panic |
| `SixelLaws.BuildsDiffer` | kernel/src/fb_console.rs:496-499 | a register definition with a percentage that overflows makes only a checked build panic |
| `SixelLaws.RunLengthExactlyWhen` | kernel/src/fb_console.rs:511-547 | a repeat and its copies paint the same if and only if there is nothing to repeat, the register is below 256, or the bytes after it make decoding panic anyway |
| `SixelLaws.SplitAtBoundary` | kernel/src/fb_console.rs:484-552 | up to a command boundary a stream behaves like its prefix and from there on like its suffix |
| `SixelLaws.BoundaryKept` | kernel/src/fb_console.rs:602-627 | what follows a prefix does not matter for its boundaries, as long as it starts with no parameter byte |
| `SixelLaws.RunLengthPreservesPicture` | kernel/src/fb_console.rs:511-547 | expanding a run at a command boundary leaves the picture unchanged if and only if the bytes before it panic already, the run is empty, the register is below 256, or the bytes after it make decoding panic anyway, for every prefix and suffix |
| `SixelCarriage.PixelIsLast` | kernel/src/fb_console.rs:579-600 | a pixel has the colour of the last column that covers it |
| `SixelCarriage.PixelUntouched` | kernel/src/fb_console.rs:567-577 | a pixel that no column covers is black |
| `SixelCarriage.ExtentIsTight` | kernel/src/fb_console.rs:567-577 | the picture is large enough for every column and no larger |
| `SixelCarriage.BandCounts` | kernel/src/fb_console.rs:535-539 | the band reached is the number of `-` commands so far |
| `SixelCarriage.PaintedLower` | kernel/src/fb_console.rs:579-600 | a stream that starts further down paints the same columns further down |
| `SixelCarriage.CarriageReturns` | kernel/src/fb_console.rs:531-539 | after `$` or `-` at a command boundary the rest is painted from the left margin on, in the band reached before or the next one |
| `SixelCarriage.CarriageShows` | kernel/src/fb_console.rs:531-539 | the same in pixels: width, height and every pixel of the picture, with six rows for each `-`, for every stream before and after |
| `SixelDrawings.ItemTurn` | kernel/src/fb_console.rs:483-552 | what each item of a drawing does to position, register and palette, said of the items before it |
| `SixelDrawings.WeightHasBits` | kernel/src/fb_console.rs:579-600 | the topmost of six pixels is the least significant bit |
| `SixelDrawings.PenSelected` | kernel/src/fb_console.rs:485-509 | a register has the colour of its last definition, red, green and blue in percent, else that of the default palette |
| `SixelDrawings.DrawingDecodes` | kernel/src/fb_console.rs:463-565 | printing any drawing and decoding it panics if and only if an item fails, gives no image if and only if no item paints, and else gives an image of the size of the drawing whose every pixel has the colour of the last item that paints it |
| `Sendfile.WillingFilesSendAll` | kernel/src/syscall/sendfile.rs:126-184 | if the files never refuse or fall short, everything asked for is sent that the input has |
| `Sendfile.OutcomeInRange` | kernel/src/syscall/sendfile.rs:126-184 | a transfer never moves more than asked for or than there is, and fails only with nothing moved |
| `Sendfile.RejectedExactlyWhen` | kernel/src/syscall/sendfile.rs:26-119 | a call is refused with `EBADF` if and only if its arguments make sense and access is missing, and accepted if and only if nothing is wrong |
| `Sendfile.OutcomeEnds` | kernel/src/syscall/sendfile.rs:126-184 | every transfer ends at the first turn with an error, an empty read or a short write, or with everything moved, and has moved what the turns before it read and the part of a short write |
| `Sendfile.ReadNext` | kernel/src/syscall/sendfile.rs:135-141 | a read at the offset leaves the position alone, one without offset moves it |
| `Sendfile.WriteNext` | kernel/src/syscall/sendfile.rs:159-183 | a short or failed write is counted exactly; with nothing sent the position is restored |
| `Sendfile.GiveUp` | kernel/src/syscall/sendfile.rs:174-183 | a failed write after some bytes ends the call with what was sent; before any byte it is an error that moves nothing |
| `Sendfile.TakeTurn` | kernel/src/syscall/sendfile.rs:126-184 | one turn under any short read, short write or error keeps output and position exact |
| `Sendfile.TransferLoop` | kernel/src/syscall/sendfile.rs:126-184 | the loop ends as the pattern of the files decides and has appended exactly the bytes it counts |
| `Sendfile.SysSendfile` | kernel/src/syscall/sendfile.rs:17-202 | a call that reports n appended exactly `input[start..start+n]`; position or offset moved by n; a failed call sent nothing and moved nothing, except for an offset that cannot be written back; no overflow; an accepted call whose offset can be written back fails if and only if its first read fails, or that read gives bytes and the first write fails, and with that error; fewer bytes than asked for mean that it stopped at the first turn in trouble |
| `Ipc.IdAlloc.WithCapacity` | packages/ostd/libs/id-alloc/src/lib.rs:20-27 | nothing is used |
| `Ipc.IdAlloc.Alloc` | packages/ostd/libs/id-alloc/src/lib.rs:32-43 | the least free identifier, or none exactly when all are used |
| `Ipc.IdAlloc.FindFree` | packages/ostd/libs/id-alloc/src/lib.rs:36-38 | the next free identifier |
| `Ipc.IdAlloc.AllocSpecific` | packages/ostd/libs/id-alloc/src/lib.rs:140-151 | that identifier, if it is free |
| `Ipc.IdAlloc.Free` | packages/ostd/libs/id-alloc/src/lib.rs:123-130 | that identifier becomes free, and the hint stays the least free one |
| `Ipc.IpcIds.constructor` | kernel/src/ipc/ipc_ids.rs:22-31 | only 0 is used |
| `Ipc.IpcIds.Remove` | kernel/src/ipc/ipc_ids.rs:48-66 | object and identifier go together, or nothing changes |
| `Ipc.IpcIds.InsertAuto` | kernel/src/ipc/ipc_ids.rs:69-94 | the least free identifier; a failed constructor changes nothing; `ENOSPC` exactly when all are taken |
| `Ipc.IpcIds.InsertAt` | kernel/src/ipc/ipc_ids.rs:97-122 | `EEXIST` exactly when taken; a failed constructor changes nothing |
| `Ipc.IpcNamespace.constructor` | kernel/src/ipc/ipc_ns.rs:61-75 | a namespace starts without semaphore sets |
| `Ipc.KeysUnique` | kernel/src/ipc/ipc_ns.rs:126-133 | no two sets share a key that is not private |
| `Ipc.SlotDecides` | kernel/src/ipc/ipc_ns.rs:135-163 | looking at the slot of a key finds it exactly if any set has it, and creating keeps keys in their slots |
| `Ipc.DecidesExactlyWhen` | kernel/src/ipc/ipc_ns.rs:135-172 | each of `EEXIST`, `ENOENT`, `ENOSPC`, `EINVAL` and success if and only if its condition holds of the sets in the table |
| `Ipc.SlotsCollideExactlyWhen` | kernel/src/ipc/ipc_ns.rs:133 | two keys share an identifier if and only if they agree modulo the number of identifiers, taken as unsigned |
| `Ipc.IpcNamespace.CreateSemSet` | kernel/src/ipc/ipc_ns.rs:187-195 | a new private set, or the exact reason why not |
| `Ipc.IpcNamespace.RemoveSemSet` | kernel/src/ipc/ipc_ns.rs:110-115 | the set is removed, or nothing changes |
| `Ipc.HistoryGrows` | kernel/src/ipc/ipc_ns.rs:135-174 | how changes by others are recorded and insertions counted |
| `Ipc.IpcNamespace.Interfere` | kernel/src/ipc/ipc_ns.rs:135-174 | any operations of others at an unlocked moment leave a valid table and a history of changes |
| `Ipc.IpcNamespace.GetOrCreateSemSet` | kernel/src/ipc/ipc_ns.rs:135-174 | with others interfering at every unlocked moment, the answer and the new table are those of one undivided look at a table that existed during the call; the number of rounds is at most one more than the insertions of others |
| `Ipc.IpcNamespace.SemGet` | kernel/src/ipc/ipc_ns.rs:118-174 | the same for every key: a private one makes a new set or says exactly why not |
| `Poll.CountEventsFrom` | kernel/src/syscall/poll.rs:229-250 | stores all answers and counts those that are not empty |
| `Poll.RegisterPoller` | kernel/src/syscall/poll.rs:202-221 | the early exit counts exactly the entries with answers; otherwise none has any |
| `Poll.CountsReady` | kernel/src/syscall/poll.rs:229-250 | the count is the number of entries with an answer |
| `Poll.ResolvesAsItEnds` | kernel/src/syscall/poll.rs:88-157 | a poll is ready in the first round with an answer, expires or fails at the first wait that is not woken, and else still waits |
| `Poll.DoPoll` | kernel/src/syscall/poll.rs:88-157 | ends in the first round with any answer; the count returned is the number of entries with non-empty `revents`, however the poll ends; a closed descriptor answers `NVAL`, a negative one nothing |
| `Words.WithBitAddsMember` | kernel/src/syscall/select.rs:224-231 | setting a bit adds exactly that number to the set |
| `Select.FdSet.Set` | kernel/src/syscall/select.rs:224-231 | adds the descriptor, unless it is too large |
| `Select.FdSet.IsSet` | kernel/src/syscall/select.rs:245-251 | membership |
| `Select.FdSet.Clear` | kernel/src/syscall/select.rs:254-258 | the empty set |
| `Select.Requests` | kernel/src/syscall/select.rs:114-140 | the requests are descriptors below `nfds` named by some set, in ascending order, each for exactly the events of the sets that name it |
| `Select.RequestsComplete` | kernel/src/syscall/select.rs:114-140 | every named descriptor below `nfds` is requested, for what it was named |
| `Select.EventsReadBack` | kernel/src/syscall/select.rs:186-214 | asking for three sets reads back as these three sets |
| `Select.BuildRequests` | kernel/src/syscall/select.rs:114-140 | the loop builds exactly the requests |
| `Select.Mark` | kernel/src/syscall/select.rs:162-167 | one result goes into one output set and is counted if it does |
| `Select.StoreResults` | kernel/src/syscall/select.rs:158-181 | the count is the number of bits set; `EBADF` exactly when some descriptor is invalid |
| `Select.PollRequests` | kernel/src/syscall/select.rs:153-181 | the poll and what is made of its end |
| `Select.DoSelect` | kernel/src/syscall/select.rs:46-182 | a requested descriptor is in the read set if and only if its file answers data, a hang-up or an error in the deciding round, in the write set if and only if room or an error, in the except set if and only if urgent data; the result is their number of bits; every error case, `EBADF` if and only if some requested descriptor is not open |
| `Select.CausesOfResults` | kernel/src/syscall/select.rs:205-214 | which events make a result readable, writable or exceptional |
| `Select.BadExactlyWhen` | kernel/src/syscall/select.rs:202-205 | `EBADF` if and only if some requested descriptor is not open |
| `Select.ChosenWasRequested` | kernel/src/syscall/select.rs:158-181 | every reported descriptor is below `nfds` and was named by some input set |
| `Select.ReportedUnasked` | kernel/src/syscall/select.rs:158-181 | but not necessarily by the set it is reported in: a hang-up is reported readable to a caller that named the descriptor only as writable |
| `Select.AnswersAreMasked` | kernel/src/process/signal/poll.rs:99 | when files honour the mask, a result holds only what was asked, a hang-up, an error or the mark of a closed descriptor |
| `Select.ReadableNamedExactlyWhen` | kernel/src/syscall/select.rs:158-181 | the readable set holds only descriptors it named if and only if no other requested descriptor reports a hang-up or an error |
| `Select.WritableNamedExactlyWhen` | kernel/src/syscall/select.rs:158-181 | the writable set holds only descriptors it named if and only if no other requested descriptor reports an error |
| `Select.ExceptionalAlwaysNamed` | kernel/src/syscall/select.rs:158-181 | the exceptional set holds only descriptors it named |
| `Dirents.LeReadBack` | kernel/src/syscall/getdents64.rs:129-134 | numbers are read back from their little-endian bytes |
| `Dirents.TypeCodeInjective` | kernel/src/syscall/getdents64.rs:239-252 | the type code determines the type |
| `Dirents.TypeCodeIsMode` | kernel/src/syscall/getdents64.rs:226-252 | the type code is the file type of the mode shifted down by twelve bits |
| `Dirents.PaddingIsZero` | kernel/src/syscall/getdents64.rs:209-218 | after the name a record holds zeros only |
| `Dirents.RecordReadBack` | kernel/src/syscall/getdents64.rs:186-221 | a whole record gives back its fields, its name and its length, whatever follows it |
| `Dirents.WalkRecovers` | kernel/src/syscall/getdents64.rs:186-221 | walking records by `d_reclen` gives every entry, in order, and ends at the last byte, in both formats |
| `Dirents.RecordsAligned` | kernel/src/syscall/getdents64.rs:188-191 | every record starts at a multiple of 8 |
| `Dirents.CStrStopsAtNul` | kernel/src/syscall/getdents64.rs:211-213 | a name without NUL is read back up to its terminator |
| `Dirents.SpoiledRecordUnreadable` | kernel/src/syscall/getdents64.rs:188-191 | a record whose length was truncated to 16 bits cannot be read |
| `Dirents.DirentBufferReader.WriteStart` | kernel/src/syscall/getdents64.rs:208-213 | header and name as far as there is room |
| `Dirents.DirentBufferReader.Serialize` | kernel/src/syscall/getdents64.rs:208-220 | a record that fits is written whole, with zero padding; a truncated length panics exactly in a checked build |
| `Dirents.DirentBufferReader.Visit` | kernel/src/syscall/getdents64.rs:104-120 | when an entry is accepted, refused or makes the kernel panic, and that a refusal changes nothing |
| `Dirents.Feed` | kernel/src/fs/utils/dirent_visitor.rs:14-18 | entries are offered until one is refused |
| `Dirents.ReadDir` | kernel/src/syscall/getdents64.rs:46-70 | the buffer up to `read_len` walks back to exactly the accepted entries if and only if each of their record lengths fits in 16 bits, which a checked build enforces by panicking; which entries are accepted |
| `Dirents.FitsMeansLongEnough` | kernel/src/syscall/getdents64.rs:208-220 | the padding subtraction underflows exactly when the record length does not fit |
| `Dirents.PathNamesFit` | kernel/src/fs/utils/mod.rs:27 | names up to the longest one a path can contain fit |
| `Dirents.LongNameIsLost` | kernel/src/syscall/getdents64.rs:188-191 | every name of 65536 bytes claims 24 bytes, is accepted there and cannot be read back |
| `Affinity.WordsOfAreWords` | kernel/src/syscall/sched_affinity.rs:104-139 | the written words stand for the CPUs below 64 times their number |
| `Affinity.ReadAfterWrite` | kernel/src/syscall/sched_affinity.rs:69-139 | what is read back of a written mask is the set restricted to the words that fit |
| `Affinity.NothingLostExactlyWhen` | kernel/src/syscall/sched_affinity.rs:115-117 | nothing is lost if and only if the buffer has a word for every CPU in the set |
| `Affinity.WriteAfterRead` | kernel/src/syscall/sched_affinity.rs:69-139 | what is written back of a read mask is the mask without missing CPUs |
| `Affinity.ReadCpuSet` | kernel/src/syscall/sched_affinity.rs:69-101 | exactly the existing CPUs whose bits are set; `EINVAL` exactly for size 0 or an empty result |
| `Affinity.Flush` | kernel/src/syscall/sched_affinity.rs:120-124 | stores the pending word and empty ones up to the given word |
| `Affinity.WriteCpuSet` | kernel/src/syscall/sched_affinity.rs:104-139 | bit b of word w is set exactly when CPU 64w+b is in the set; words beyond are untouched; the byte count |

## Left out

- Kernel.ProcessKernel.SetParentAndGroup: states the PID table only when nobody interferes; interference is in `LinkToParent` and, with the table, in the protocol.
- Kernel.ProcessKernel.ExitProcess: is the undisturbed exit; interference is in `MoveChildrenToReaperProcess` and in the protocol.
- Interleavings inside one wait pass: the tracees lock is dropped before the children lock is taken, and the model takes one pass as one step.
- Kernel.ProcessKernel.PropagateHasChildSubreaper: is the undisturbed loop; others acting between two of its `children` maps are in the protocol, where each map is a step.
- Kernel.ProcessKernel.SetChildSubreaper: is the undisturbed call, for the same reason.
- The lock on its own `children` that a new subreaper holds until it has marked everything: the protocol lets others change that map in the meantime, so it has more runs than the kernel.
- Kernel.ProcessKernel.TryWaitTracees: tracees that are not the main thread of their process, and tracers other than the main thread of theirs, are not modelled.
- Ptrace stops, and what makes a stop or continue status available.
- Process groups, sessions, cgroups, credentials, namespaces and signals inside the lifecycle; groups and sessions appear only as PID-table columns.
- `vfork`, alone and with `CLONE_PARENT`.
- The end of the PID range: the counter of the kernel does not recycle, and the model's does not end.
- Weak references of the PID table that can no longer be upgraded: a slot is taken to stay valid while it is stored.
- Update in place of the Sixel grid and the aliasing of its rows: the grid is a value that the loops replace.
- SixelDrawings.DrawingDecodes: is about streams with plainly printed numbers; leading zeros, empty fields and stray digits are in the laws of `Sixel`, `SixelLaws` and `SixelCarriage`, which are about all streams.
- Exhaustion of memory and of `usize` in the Sixel decoder; drawing text and pixels on the screen; SGR sequences.
- Page faults of user memory, except for the offset that `sendfile` writes back.
- `sendfile`: looking up the descriptors, failing seeks, other users of the same open file, and a file sent to itself.
- `poll` and `select`: timers and the limit on descriptors; the busy loop on aarch64 is one of the wait sequences the model allows.
- `getdents`: how a file system enumerates its entries and keeps the directory offset.
- CPU affinity: looking up the thread and migrating it.
- Semaphore operations, permissions and the other System V objects.
- The vDSO data page, the security modules, drivers, boot code and thin system-call wrappers: they would only add easy members or depend on hardware.
