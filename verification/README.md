# Container runtime: a verified model

The runtime is an interactive program that creates, starts, stops and deletes Linux
containers, time-slices them with SIGSTOP and SIGCONT, keeps their records in a text file and
shows its own log.  This project models the parts of it whose correctness depends on more than
one function, and proves what they keep over all inputs, all interleavings and all runs.

| part | files | form |
|---|---|---|
| scheduler | `RoundRobin.dfy`, `Scheduler.dfy`, `Interleaving.dfy`, `SchedulerCommands.dfy` | the ring as a value; the pid array as a class proved equal to it; the thread against the main thread, one critical section or signal at a time; what each command comes to |
| start handshake | `Handshake.dfy`, `HandshakeTrace.dfy` | parent and child as a state machine over their system calls, with descriptors and pipe contents; the outcome read off the kernel's answers |
| container manager | `Manager.dfy`, `ManagerInvariant.dfy`, `ManagerExact.dfy`, `ManagerOutcomes.dfy`, `ManagerResults.dfy`, `ContainerManager.dfy`, `ContainerList.dfy`, `Identity.dfy` | commands as steps of a world; a class over the linked list and the scheduler's array whose methods are proved equal to the steps |
| record file | `Metadata.dfy`, `Reload.dfy`, `Persistence.dfy` | printer, parser, what becomes of texts with separators in them, and the disk events of a save |
| log reader | `LogRecords.dfy`, `Logger.dfy`, `LogReader.dfy`, `LogMeaning.dfy` | parsing, catalog and rows; the loops and the growable catalog; what the cells mean |
| command text | `CommandText.dfy`, `Tokeniser.dfy` | pure tokenisers; the in-place loops on character arrays |
| resource limits | `Limits.dfy` | a process's limit table and a kernel that refuses to raise it |
| shared | `Text.dfy`, `Sequences.dfy` | the C library's text routines as functions; sequences without repetition |

Modelling choices: `pid_t` is an unbounded integer and a pid is never reused; the outcome of
every system call is a parameter, so a statement about a command covers all of its failures.
Where `Manager` saves the record file it assumes that a lost write makes `fclose` fail;
`Persistence.LostWritePublished` shows what happens otherwise.  In the handshake a pipe write
of a few bytes succeeds, a read fails only with EINTR, finitely often, and nothing outside
kills the child before it has been sent its token.  A process leaves `alive` in one step: the
time in which it is a zombie, which `kill(pid, 0)` still finds, is not represented.

Nothing is assumed of the texts a user types or of the record file found at the first start.
Results that do depend on them say so: `Within(w, run, OneLine)` asks that no text of the run
holds a line break, `Within(w, run, NoSeparator)` that none holds a tab, CR or LF, and both that
the file found at the first start is missing or was written by this program from such texts.

## Where the code differs from what it says

- The refresh after `sched off` is meant to leave no container paused
  (src/container.c:774-780).  A SIGSTOP for a target picked before the flag went down can land
  after the SIGCONT (src/scheduler.c:123-133).  `Interleaving.SchedOffFailsIff` says in which
  states that can happen, `SchedOffExact` in which interleavings it does, `SchedOffBound` limits
  it to one container.
- The help text says that quotes protect spaces in command arguments (src/main.c:197-198).  The
  join drops them and the child splits at every space (src/namespace.c:49-58).
  `CommandText.CommandRoundTrip` says exactly when the words survive.
- A quoted name may hold a tab, which the record file uses as its separator;
  `Metadata.RoundTripIff` gives the exact condition, `TabInNameIsLost` an instance.  `fprintf`
  results are ignored, so a save may publish a partial file if `fclose` does not notice.
- A name of five words with tabs between them comes back from the file with its second word as
  the pid and its fifth as the state (`Reload.TabbedNameSetsPid`), so a record that is not
  RUNNING can have a pid after a restart (`ManagerResults.TabbedNameBreaksPids`).
  `ManagerExact.PidsIff` says exactly for which files.
- A root path with a line break in it splits its record in two; two containers on such a path
  come back with the same id (`Reload.NewlineDuplicatesIds`).  `ManagerExact.IdsIff` says exactly
  for which files ids stay distinct.
- Start-up leaves no RUNNING record without a process, except when two records of the file
  share one (`ManagerExact.BootReconcilesIff`).
- `wait_for_parent_ready` handles end of file, but the child keeps a write end of that pipe
  open itself, so that branch cannot be taken (`Handshake.ContinueEofNeverSeen`).
- `logger_follow` takes its position from the end of the file after the first pass, so lines
  appended in between are never shown: following equals a batch pass if and only if there are none
  (`Logger.FollowIsBatchIff`), and `GapRowsAreMissing` counts what is lost.
- Repeated removals reset the scheduler's index, so a target can wait for ever although it
  stays listed (`RoundRobin.ChurnStarves`); the wait is bounded by the number of changes
  (`FairUnderChange`).
- A failed delete puts the record back at the end of the list, not where it was.

## Model

| member | source | states |
|---|---|---|
| `RoundRobin.AddKeeps` | src/scheduler.c:214-232 | adding keeps the pids distinct and the index in range, and makes that pid occur exactly once, behind the others, whether or not it was there |
| `RoundRobin.RemoveKeeps` | src/scheduler.c:234-251 | swap-removal keeps the ring valid and takes out exactly that pid |
| `RoundRobin.RemoveMoves` | src/scheduler.c:234-251 | the last target takes the removed one's place, the others stay, and the index stays while it is in range and is 0 otherwise |
| `RoundRobin.SurvivorsFilter` | src/scheduler.c:78-93 | pruning keeps exactly the living pids, without repetition |
| `RoundRobin.SurvivorsKeepOrder` | src/scheduler.c:81-88 | what stands earlier after pruning stood earlier before |
| `RoundRobin.PruneKeeps` | src/scheduler.c:78-93 | pruning keeps the ring valid, index included, and leaves exactly the living targets |
| `RoundRobin.Stabilises` | src/scheduler.c:114-133 | from any assignment of paused and unpaused over n >= 2 distinct live targets, after n-1 ticks and ever after exactly the target at the index runs |
| `RoundRobin.AtMostOneRunsWithinTick` | src/scheduler.c:128-133 | once stable, between the two signals of a tick nobody runs, and after them exactly one does |
| `RoundRobin.SoleSurvivorStaysPaused` | src/scheduler.c:117-121 | with fewer than two targets no tick changes who is paused, for any number of ticks |
| `RoundRobin.ResumedIsRotation` | src/scheduler.c:123-125 | n ticks on a stable list resume the targets in ring order, starting after the current one |
| `RoundRobin.EachResumedOnce` | src/scheduler.c:123-125 | any n consecutive ticks resume each of n targets exactly once |
| `RoundRobin.WaitBound` | src/scheduler.c:78-125 | along any mix of ticks, adds, removals and prunes, the ticks a listed target is passed over are bounded by its distance and the number of changes |
| `RoundRobin.FairUnderChange` | src/scheduler.c:78-125 | with 2 to N targets and k changes, a target that stays listed is resumed within (k+1)*N ticks |
| `RoundRobin.ChurnStarves` | src/scheduler.c:234-251 | for every number of rounds there is a run with that many comings and goings in which a listed target is never resumed: the bound's dependence on k is real |
| `Scheduler.SchedulerState.EnsureCapacity` | src/scheduler.c:55-76 | the doubling loop ends with enough room and the same pids, or fails and changes nothing |
| `Scheduler.SchedulerState.PruneDead` | src/scheduler.c:78-93 | the in-place compaction equals the order-preserving filter of the ring, index included |
| `Scheduler.SchedulerState.Pick` | src/scheduler.c:105-126 | the thread's critical section prunes, rotates and picks as the ring does, and picks nobody when disabled or below two targets |
| `Scheduler.SchedulerState.AddTarget` | src/scheduler.c:214-232 | equals the ring's add, also for a pid that is present; a failed allocation changes nothing |
| `Scheduler.SchedulerState.RemoveTarget` | src/scheduler.c:234-251 | equals the ring's swap-removal |
| `Scheduler.SchedulerState.ClearTargets` | src/scheduler.c:253-258 | empties the ring |
| `Interleaving.RunKeeps` | src/scheduler.c:95-139 | in every interleaving the targets stay distinct known pids, only living processes are paused, a SIGSTOP is pending only while the flag is set, and a pid not yet registered is neither paused nor picked nor targeted |
| `Interleaving.SchedOffBound` | src/container.c:752-782 | after `sched off`, until the next enable, the RUNNING containers that are paused between commands are late stops, of which there is at most one: the target picked before the flag went down |
| `Interleaving.SchedOffClean` | src/container.c:752-782 | if nothing was picked at that moment no RUNNING container is paused |
| `Interleaving.SchedOffExact` | src/container.c:752-782 | when `sched off` has finished, a living RUNNING container is paused if and only if its SIGSTOP landed after its SIGCONT |
| `Interleaving.LateStopWasPicked` | src/scheduler.c:105-133 | the only stop that can be late is the one already picked |
| `Interleaving.SchedOffFailsIff` | src/container.c:752-782 | when the flag is about to go down, some interleaving leaves a RUNNING container paused if and only if the thread has just picked one to stop that is listed and alive |
| `Interleaving.LateStopHappens` | src/scheduler.c:123-133 | for every such state, an interleaving in which that container stays paused |
| `Interleaving.TargetsAlwaysRunning` | src/container.c:744-782 | at every micro-step of both threads, in the middle of commands too, each target is the pid of a RUNNING record or of a dead process |
| `SchedulerCommands.RefreshSetsTargets` | src/container.c:752-765 | `sched on` and `sched off`, whatever the thread does meanwhile: the targets end up as exactly the RUNNING pids in list order, from the first on if the thread slept |
| `SchedulerCommands.SwitchSetsTargets` | src/container.c:752-782 | the same from the moment the command is typed, with the flag as asked for |
| `SchedulerCommands.SchedOnStopsOthers` | src/container.c:766-773 | `sched on` while the thread sleeps: the first RUNNING container is current and runs, every other is stopped |
| `SchedulerCommands.SchedOnConverges` | src/scheduler.c:105-133 | `sched on` with any steps of the thread in between: n-1 rounds after it is done, and ever after, exactly the current target runs |
| `SchedulerCommands.RoundsAreTicks` | src/scheduler.c:98-136 | rounds of the thread's micro-steps are ticks of the ring, so what holds of those holds of the thread |
| `SchedulerCommands.StopTakesOut` | src/container.c:502-538 | after `stop`, whatever happens meanwhile, the process is gone, no target and not RUNNING |
| `SchedulerCommands.StartPutsIn` | src/container.c:834-857 | after `start` the new pid is the last RUNNING one, and a target if it was to be tracked |
| `SchedulerCommands.ReapTakesOff` | src/container.c:366-386 | after a poll a dead process is not RUNNING, and no target unless only the recovery check found it |
| `Handshake.StepKeepsInv` | src/namespace.c:137-420 | every step of either process keeps the invariant on descriptors, pipe contents, order of stages and reports |
| `Handshake.EveryRunEndsClean` | src/namespace.c:293-420 | every run is finite and never deadlocks; at the end the parent holds exactly the descriptors it came with, and after a failure the child is dead and reaped |
| `Handshake.NoDeadlock` | src/namespace.c:115-135 | until the parent has returned some process can step |
| `Handshake.RunsAreBounded` | src/namespace.c:237-291 | the length of a run is bounded by the rank of its start, short reads and interruptions included |
| `Handshake.ExecComesLast` | src/namespace.c:148-234 | the child execs only after the maps are written, the token is read, the root is switched and the limits are applied |
| `Handshake.SuccessIsExact` | src/namespace.c:367-419 | the parent returns success if and only if the child reported ready and no exec errno; after the token a failure carries the reported errno or EPROTO |
| `HandshakeTrace.ResultIsTheKernels` | src/namespace.c:293-420 | on the list of answers alone: the parent returns the errno of its own first failed call; else that of the child's first stage that failed and is not tolerated, plus 10000 for the limits; else that of exec, or EPROTO after a short read; EPROTO if the child died silently; and otherwise success with the pid the child was told |
| `HandshakeTrace.ChildFollowsScript` | src/namespace.c:137-235 | a living child stands where its answers have brought it, stage by stage |
| `HandshakeTrace.ExecPassedEveryStage` | src/namespace.c:148-229 | a child that execs had all eight stages answered in order, each with success or with EINVAL for the /proc remount or EPERM for the loopback setup |
| `Handshake.EofIsHonest` | src/namespace.c:237-291 | end of file on the status or exec pipe means that the child died, or exec'd, without having written |
| `Handshake.ContinueEofNeverSeen` | src/namespace.c:115-135 | the child never sees end of file on the continue pipe, and an exec'd program inherits exactly three pipe ends |
| `Metadata.LineFitsBuffer` | src/container.c:268-280 | every line of the record file has at most 1013 bytes |
| `Metadata.LineParsesBack` | src/container.c:597-636 | one clean record comes back from its line |
| `Metadata.LoadRendered` | src/container.c:597-650 | a list of clean records comes back from its file in order, RUNNING without a process as STOPPED |
| `Metadata.LoadIsLineByLine` | src/container.c:597-650 | as long as no field holds a line break, every record is read back from its own line |
| `Metadata.IdComesBack` | src/container.c:621-621 | whatever its other fields hold, a record that comes back comes back with its id |
| `Metadata.LoadedFits` | src/container.c:617-645 | whatever the file holds, a loaded record fits its C types, owns no stack and, if RUNNING, has a live process |
| `Metadata.RoundTripIff` | src/container.c:268-280 | loading inverts saving if and only if every text field is non-empty and free of tab, CR and LF |
| `Metadata.LoadedIsClean` | src/container.c:597-650 | whatever the file holds, every record loaded from it is clean |
| `Metadata.LineFormat` | src/container.c:268-280 | the ten fields of a line, in order |
| `Metadata.LineMeans` | src/container.c:610-638 | every field of the record made from a line of six, seven or ten clean fields, with the defaults for what is missing |
| `Metadata.OtherLinesAreDropped` | src/container.c:610-612 | a line with another number of fields is passed over |
| `Metadata.RecoverMeans` | src/container.c:640-645 | RUNNING without a live process comes back STOPPED with pid -1, everything else as it was |
| `Metadata.TabInNameIsLost` | src/container.c:268-280 | a name with a tab does not come back |
| `Reload.LoadedPidsIff` | src/container.c:604-645 | for any text, every loaded record that is not RUNNING has pid -1 if and only if the third field of every accepted line reads as -1 unless its sixth is RUNNING |
| `Reload.LoadedIds` | src/container.c:621-621 | the ids of a loaded list are the first fields of the accepted lines, cut to size |
| `Reload.TabbedNameSetsPid` | src/container.c:604-626 | a name of five words with tabs between them sets pid and state on reload |
| `Reload.CreatedWithPidSeven` | src/container.c:604-626 | an instance: CREATED with pid 7 |
| `Reload.NewlineForgesRecord` | src/container.c:597-616 | a root path with a line break brings back a record named after the rest of the path instead |
| `Reload.NewlineDuplicatesIds` | src/container.c:597-616 | two containers on such a path come back with the same id |
| `Persistence.SavePrefix` | src/container.c:260-295 | a save interrupted anywhere before its rename leaves the file alone; the rename publishes what was written |
| `Persistence.SaveIsAtomic` | src/container.c:260-295 | no proper part of a save's disk events changes the file, and the whole publishes the complete list or nothing |
| `Persistence.SaveKeepsConsistent` | src/container.c:260-295 | any number of saves: at every prefix of the history the file is the original or the complete rendering of the last saved list |
| `Persistence.CutKeepsConsistent` | src/container.c:260-295 | so after a crash at any event |
| `Persistence.SaveIsAllOrNothing` | src/container.c:282-294 | a save that returns -1 leaves the file unchanged, one that returns 0 replaces it completely |
| `Persistence.LostWritePublished` | src/container.c:268-286 | with a lost write that `fclose` does not report, a partial file is published |
| `Identity.IdShape` | src/container.c:675-675 | an id is the prefix and the number filled up with zeros to four digits |
| `Identity.ScanInvertsFormat` | src/container.c:297-303 | scanning inverts `container-%04d` for every number an int holds |
| `Identity.IdsAreDistinct` | src/container.c:675-675 | different numbers give different ids |
| `Identity.BumpExceedsAll` | src/container.c:297-303 | after loading any list, the next number exceeds every number on it |
| `Identity.BumpIsTight` | src/container.c:297-303 | and by no more than one |
| `ManagerInvariant.StepIsConsistent` | src/container.c:260-295 | every command with every outcome, in any state and with any texts, keeps the file's history consistent |
| `ManagerInvariant.StepKeeps` | src/container.c:253-958 | every command, with every failure, crash and restart, keeps the manager's invariant, at each level of what is known of the texts |
| `ManagerInvariant.RunKeeps` | src/container.c:588-958 | so does every run |
| `ManagerOutcomes.CreateOutcome` | src/container.c:665-723 | `create` uses up a number; if the disk takes the longer list, list and file are that list, otherwise neither has changed |
| `ManagerOutcomes.NewRecordMeans` | src/container.c:675-715 | every field of a new record, from the specification or by default |
| `ManagerOutcomes.StartOutcome` | src/container.c:784-860 | `start` on each of its paths: record, stack, process, file and targets afterwards |
| `ManagerOutcomes.StartReturnsZeroIff` | src/container.c:784-860 | it succeeds exactly if a record was found that was not running, it came up, and the disk took the list |
| `ManagerOutcomes.HaltOutcome` | src/container.c:502-538 | a stopped container is STOPPED without pid and stack, its process is gone, it is no target, the file says so if the disk took it, and nothing else has changed |
| `ManagerOutcomes.StopOutcome` | src/container.c:909-925 | `stop` halts the first record with that id |
| `ManagerOutcomes.DeleteOutcome` | src/container.c:927-958 | `delete` takes exactly that record out of list and file, or leaves the file alone and the record at the end |
| `ManagerOutcomes.WaitOutcome` | src/container.c:457-500 | the end of a foreground run stops the record, saves, and leaves the targets alone |
| `ManagerOutcomes.PollOutcome` | src/container.c:355-401 | a poll stops exactly the records found to have ended, untracks exactly the reaped ones, and saves if there were any |
| `ManagerOutcomes.RefreshOutcome` | src/container.c:752-765 | the targets become the RUNNING pids in list order, but where an add failed |
| `ManagerOutcomes.QuitOutcome` | src/container.c:1320-1347 | every container that can be stopped is, and the list is saved in that state |
| `ManagerOutcomes.BootOutcome` | src/container.c:588-663 | start-up: the records of the file polled once, no targets, the next number just beyond the largest |
| `ManagerOutcomes.CrashOutcome` | src/container.c:260-295 | a crash keeps the processes and the first disk events and nothing else |
| `ManagerOutcomes.FileStays` | src/container.c:260-295 | until another save succeeds the file stays as it is, through any run and any crash |
| `ManagerOutcomes.CreatedSurvives` | src/container.c:717-723 | a container whose creation succeeded is there again after any run and crash in which no later save succeeds, if its texts hold no separators and no text holds a line break |
| `ManagerExact.PidsIff` | src/container.c:604-645 | in every state of any run of any commands the records that are not RUNNING have pid -1, if and only if each start-up reads a file in which every line says so |
| `ManagerExact.IdsIff` | src/container.c:297-303 | ids are pairwise distinct in every state of a run if and only if each start-up reads a file whose accepted lines start with different ids |
| `ManagerExact.BootReconcilesIff` | src/container.c:639-654 | however the poll turns out every RUNNING record has a live process after start-up, if and only if no two RUNNING records of the file share one |
| `ManagerResults.Lifecycle` | src/container.c:253-258 | in every reachable state, whatever the texts and the file found, a RUNNING record has a pid, others have no stack, each allocated stack has one RUNNING owner, and every other stack was freed exactly once |
| `ManagerResults.RunningIffPid` | src/container.c:366-386 | in every state of a run without separators in its texts RUNNING is having a pid, and any other record has pid -1 |
| `ManagerResults.TabbedNameBreaksPids` | src/container.c:677-681 | a name that can be typed in quotes brings its container back as CREATED with pid 7 |
| `ManagerResults.StartNeverOverwrites` | src/container.c:802-811 | whatever the texts, the record for which `start` allocates has no stack |
| `ManagerResults.QuitLeaksNothing` | src/container.c:1320-1347 | whatever the texts, at exit every stack of the session has been freed exactly once |
| `ManagerResults.CrashConsistency` | src/container.c:260-295 | for every world, every list of commands and every text, crashes in the middle of saves and of start-up included: at every prefix of the history `containers.meta` is the initial file or the complete rendering of the list at an earlier successful save |
| `ManagerResults.RestartRestoresIff` | src/container.c:588-663 | after any run, crash included, the file is the list saved last, and start-up brings it back if and only if none of its texts holds a separator |
| `ManagerResults.BootReconciles` | src/container.c:639-654 | after start-up of a run without separators in its texts every RUNNING record has a live process |
| `ManagerResults.IdsUnique` | src/container.c:297-303 | ids are pairwise distinct in every state of a run without line breaks in its texts, and the sequence exceeds all of them |
| `ManagerResults.IssuedOnce` | src/container.c:675-675 | whatever the texts, a session never issues an id twice |
| `ManagerResults.TargetsAreRunning` | src/container.c:744-782 | whatever the texts, every scheduler target is the pid of a RUNNING record or of a dead process; after the thread's prune only RUNNING pids remain |
| `ManagerResults.FailedDeleteReorders` | src/container.c:946-951 | a delete whose save fails keeps the same records and moves that one to the end |
| `ManagerResults.CommandReachesExec` | src/container.c:692-696 | the words of a typed command reach exec unchanged through prompt, join, record, file, restart and re-split |
| `ContainerManager.Runtime.SaveMetadata` | src/container.c:260-295 | walks the list, prints exactly its rendering, and equals the model's save |
| `ContainerManager.Runtime.RetireContainer` | src/container.c:366-389 | node, stack and target array change as the model's retirement says |
| `ContainerManager.Runtime.SyncContainerState` | src/container.c:355-389 | equals the model's sync, the branch that does not untrack included |
| `ContainerManager.Runtime.PollStates` | src/container.c:391-401 | the loop equals the model's poll: one save at the end if anything changed |
| `ContainerManager.Runtime.FindContainer` | src/container.c:244-251 | finds the first node with that id |
| `ContainerManager.Runtime.Create` | src/container.c:665-742 | equals the model's create on every path, and returns 0 exactly when the list has grown |
| `ContainerManager.Runtime.Start` | src/container.c:784-860 | equals the model's start, and returns 0 exactly when the record was found, was not running, was launched and was saved |
| `ContainerManager.Runtime.StartAt` | src/container.c:808-860 | the same from the allocation of the stack on, with every failure path |
| `ContainerManager.Runtime.StopContainerProcess` | src/container.c:502-538 | equals the model's halt, and returns 0 exactly when a running container was killed and reaped |
| `ContainerManager.Runtime.Stop` | src/container.c:909-925 | equals the model's stop, return value included |
| `ContainerManager.Runtime.WaitForContainerProcess` | src/container.c:457-500 | equals the model's wait, and returns 0 exactly when the child was reaped and the save succeeded |
| `ContainerManager.Runtime.Delete` | src/container.c:927-958 | equals the model's delete, and returns 0 exactly when the record is gone |
| `ContainerManager.Runtime.RefreshTargets` | src/container.c:752-765 | clears the target array and adds every RUNNING pid in list order, but where an allocation fails |
| `ContainerManager.Runtime.CleanupAllContainers` | src/container.c:1320-1347 | equals the model's quit |
| `ContainerManager.Runtime.RestoreRecords` | src/container.c:597-650 | the fgets loop loads the records of the text and leaves the sequence beyond them |
| `ContainerManager.Runtime.ManagerInit` | src/container.c:588-663 | equals the model's boot |
| `ContainerList.List.SetRecord` | src/container.c:369-371 | changing a node changes its record in the sequence and nothing else |
| `ContainerList.List.Append` | src/container.c:211-219 | appends to the chain, which stays acyclic with tail its last node |
| `ContainerList.List.Remove` | src/container.c:221-242 | takes out exactly that node and keeps the order of the others; does nothing if it is absent |
| `ContainerList.List.AppendThenWithdraw` | src/container.c:717-723 | a failed create restores the exact sequence |
| `ContainerList.List.RemoveThenReappend` | src/container.c:946-951 | a failed delete keeps the multiset and puts the node last |
| `LogRecords.LogLineRoundTrip` | src/logger.c:402-462 | parsing a line gives back the time, event and message it was written with |
| `LogRecords.LogLineShape` | src/logger.c:73-95 | the line itself: time in brackets, event, colon, message |
| `LogRecords.UnstampedLine` | src/logger.c:402-430 | a line without a time is all message, under the event LOG |
| `LogRecords.MatchesIff` | src/logger.c:151-159 | a line passes the filter exactly if the id occurs in it |
| `Logger.TailIsSuffix` | src/logger.c:633-693 | `logs -n N id` is exactly the last N rows of `logs id`, or all of them if there are no more |
| `Logger.SelectionMeans` | src/logger.c:633-693 | a selection holds only matching records, at most the tail, and what it leaves out stands before everything it holds |
| `Logger.FilterOnlySelects` | src/logger.c:523-551 | the filter reaches neither the catalog nor any cell |
| `Logger.FilterIsView` | src/logger.c:695-735 | the rows of `logs id` are the rows of `logs` at exactly the matching lines, cell for cell |
| `Logger.StreamConcat` | src/logger.c:711-726 | rendering in two goes with a kept catalog is rendering at once |
| `Logger.LinesConcatIff` | src/logger.c:594-631 | reading a text in two goes gives the same fgets chunks if and only if the first part ends a chunk |
| `Logger.FollowAgreesWithBatch` | src/logger.c:806-908 | for every append-only growth in whole lines and all polling points, follow shows the initial tail and then the rows of one batch pass; its catalog is the batch catalog |
| `Logger.TruncatedLogStartsOver` | src/logger.c:876-878 | a file that has become shorter is read again from its start |
| `Logger.FollowSkipsGap` | src/logger.c:820-831 | follow's output is that of a batch pass over the file with what was appended between first pass and seek cut out |
| `Logger.GapRowsAreMissing` | src/logger.c:820-831 | with any filter, follow has shown exactly as many rows fewer than a batch pass as there are matching lines in the gap |
| `Logger.GapMatchIsLost` | src/logger.c:820-831 | so a matching line in the gap always makes them differ |
| `Logger.FollowIsBatchIff` | src/logger.c:820-831 | without a filter follow shows the rows of a batch pass over the final file if and only if the gap is empty |
| `Logger.GapInstance` | src/logger.c:820-831 | one line in the gap of an empty log is never shown |
| `LogReader.LogCatalog.Update` | src/logger.c:475-551 | the growable array's update equals the catalog's |
| `LogReader.ReadRecords` | src/logger.c:594-631 | one record per fgets chunk of the file |
| `LogReader.BuildSelection` | src/logger.c:633-693 | the matching indexes, cut to the tail |
| `LogReader.RenderRecords` | src/logger.c:695-735 | every record updates the catalog, exactly the selected rows are shown |
| `LogReader.RenderHistory` | src/logger.c:745-791 | prints the history of the file |
| `LogReader.FollowLog` | src/logger.c:806-917 | the follow loop equals the sequence of polls, a shrunken file included |
| `LogMeaning.CatalogIsLatest` | src/logger.c:523-551 | the catalog holds, for every id, the last name, pid and status any line gave, and exactly the ids that were mentioned |
| `LogMeaning.RowMeaning` | src/logger.c:553-592 | every cell of every row, from the lines up to it alone |
| `LogMeaning.NameIsExtractedIff` | src/logger.c:295-331 | the name in a creation line is recovered if and only if it has no blank, line break or closing parenthesis |
| `LogMeaning.PidIsExtracted` | src/logger.c:333-372 | the pid of a start line is recovered |
| `LogMeaning.StoppedPidIsExtracted` | src/logger.c:364-372 | the pid of a stop line is recovered by its second form |
| `LogMeaning.AnnouncedStateIsShown` | src/logger.c:374-400 | a created, started, stopped, deleted, limit or error line shows as a row with its container, its event and that state, whatever came before |
| `LogMeaning.OtherEventsKeepStatus` | src/logger.c:374-400 | any other event shows the state announced last, or none |
| `LogMeaning.SystemLines` | src/logger.c:374-400 | a line about no container shows its own state or SYSTEM |
| `LogMeaning.StartedLineIsShown` | src/container.c:844-853 | the line `start` writes shows as a row with its id, its pid and RUNNING, whatever came before |
| `CommandText.TypedWordsParse` | src/main.c:117-150 | typing words with spaces in between, quoted where needed, gives those words |
| `CommandText.TypableIff` | src/main.c:117-150 | the argument lists that lines of at most 255 bytes without newline and NUL can produce are exactly those of words that lack blanks or one kind of quote and whose shortest spelling fits |
| `CommandText.ShortestIsLowerBound` | src/main.c:117-150 | no line is shorter than the shortest spelling of its arguments |
| `CommandText.JoinNotLonger` | src/main.c:314-325 | the tokens of a line, joined, are no longer than the line |
| `CommandText.CommandNeverTooLong` | src/main.c:327-330 | so the join of a typed command always fits its 256 bytes |
| `CommandText.CommandRoundTrip` | src/namespace.c:34-67 | the child's argument vector is the typed words if and only if each is non-empty and free of spaces; ENAMETOOLONG never occurs and E2BIG only with such a word |
| `CommandText.ArgvMeans` | src/namespace.c:34-67 | every way the split can end, for any command: ENAMETOOLONG from 256 bytes on, EINVAL without a word, E2BIG from 32 words on |
| `CommandText.QuotedSpaceIsSplit` | src/namespace.c:49-58 | a quoted argument with a space is split |
| `Text.TokensKeepText` | src/namespace.c:49-58 | splitting loses nothing but separators and changes no order |
| `Text.LinesAreTheFile` | src/container.c:597-597 | the reads of a file put together are the file, each of at most 1023 bytes and one line |
| `Tokeniser.ParseInPlace` | src/main.c:117-150 | the destructive tokeniser leaves one terminated string in bounds per token of the pure tokeniser |
| `Tokeniser.JoinInto` | src/main.c:314-331 | fails exactly when the joined words do not fit, otherwise the buffer holds them |
| `Tokeniser.SplitInPlace` | src/namespace.c:49-58 | the strtok loop leaves one terminated string per token, and gives up exactly when the slots run out |
| `Tokeniser.BuildArgv` | src/namespace.c:34-67 | the outcome of the pure split, error by error |
| `Limits.Process.ApplySingle` | src/resource.c:8-35 | setrlimit is never refused; soft and hard become the smaller of request and soft limit, and no other resource changes |
| `Limits.Process.ApplyLimits` | src/resource.c:37-78 | succeeds for every configuration: the seconds go to the CPU limit, the megabytes times 1048576 to the address space, the number of processes to NPROC, each lowering it or leaving it alone if 0 |
| `Limits.Process.ApplyEach` | src/resource.c:37-78 | any number of calls is a history of such tables |
| `Limits.GuardsNeverFire` | src/resource.c:54-65 | the megabyte product is exact and below 2^52, so neither EINVAL guard fires |
| `Limits.OutcomeIsMinimum` | src/resource.c:8-75 | after any sequence of calls each resource has soft and hard limit equal to the smallest of its non-zero requests and its original limit, or is as it was |
| `Limits.OutcomeByField` | src/resource.c:47-75 | the same spelled out for seconds, bytes and processes |
| `Limits.OrderDoesNotMatter` | src/resource.c:8-75 | two sequences of the same configurations, in any order and multiplicity, end in the same limits |
| `Limits.Idempotent` | src/resource.c:8-75 | applying a whole sequence again changes nothing |

## Left out

- Tables, banners, help and error messages: display only; a log row is a tuple of cells without column widths.
- `src/filesystem.c`, `src/network.c`, `src/monitor.c` and the stats loops: kernel and `/proc` plumbing; switching the root is one step of the child that succeeds or fails with an errno.
- Terminal foreground handling and SIGINT (src/container.c:158-168, src/container.c:415-455): tty side effects.
- `parse_limit_flags` (src/main.c:205-246): the parsing of `--cpu`, `--mem` and `--pids` is not modelled; a limit configuration is any triple of 32-bit numbers.
- `scheduler_start`, `scheduler_stop` and the sleeping between ticks: thread creation and wall-clock time; a tick may happen at any moment.
- Pid reuse by the kernel: a new pid is assumed fresh.
- Integer overflow of sizes and of the id sequence: the sequence is assumed to stay below INT_MAX.
- Failed allocations of records and of log arrays; a failed stack or scheduler allocation is modelled.
- `ContainerManager.Runtime`: processes, stacks and the disk are values next to the list and the array; printing and logging are not represented.
- Zombies: a process is alive or gone, see above.
- `Handshake` is a state machine over the system calls rather than two methods, because its properties are about their interleaving; local variables that no branch depends on are not represented.
- Logger.FollowAgreesWithBatch: growth in whole lines and no truncation is assumed, as the statement is false otherwise; `PollOnce` itself models truncation.
- LogMeaning.StartedLineIsShown: the message is taken to be short enough for the record's fields and free of line breaks.
- Metadata.RoundTripIff: records are taken to fit their character arrays, which the C types guarantee.
