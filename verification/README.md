# RPTOS-64: a verified model of the kernel's shared state

RPTOS-64 is a small four-core kernel. Its cores and system calls share the scheduler's queues, the banks of devices,
locks and mailboxes, the tasks' translation frames and the kernel's own memory. This project models those parts in Dafny
and proves what every operation keeps, over all interleavings and all runs.

`dafny verify dfyconfig.toml` checks everything.

| file | what it models |
|---|---|
| `Common.dfy` | options, sequences without repetition, the bound of a pass |
| `FwList.dfy` | the intrusive linked lists, over heap nodes with head and tail pointers |
| `QueuePass.dfy`, `LinkedPass.dfy` | the scheduler's waiting pass over those lists, an in-place walk that unlinks nodes, and that it is the pass of `Scheduler.dfy` |
| `Flags.dfy`, `Rotation.dfy`, `Words.dfy` | the flags byte of a task; the rotation of levels; the packed words, masks and shifts it is kept in |
| `Tasks.dfy`, `Scheduler.dfy`, `Interleavings.dfy` | placement of tasks, the scheduler's passes, the steps of the four cores and their runs |
| `Effects.dfy` | what one scheduler call does to every task and queue, told from the state before it |
| `Affinity.dfy`, `Sleepers.dfy`, `Waits.dfy` | core affinity, sleep and waiting, over whole runs |
| `Kernel.dfy` | the scheduler's loops, updating PCB bank, queues and running slots in place, proved to be those steps |
| `Shutdown.dfy` | the shutdown barrier, its `&=` and `\|=` split into loads and stores |
| `Locks.dfy` | mutex and semaphores as interleaved exclusive accesses |
| `Tags.dfy`, `Ledger.dfy` | the packed tag word, and the ledger of owned resources that termination replays |
| `DumpLog.dfy` | the dump bank and the breakpoint log |
| `PageTable.dfy` | growth of a task's translation frame |
| `Kmem.dfy` | the kernel frame allocator |
| `Mailbox.dfy`, `Uart.dfy` | the message segment pool; mini-UART transfers against the wait test |

## Main results

- Placement: over every run of the four cores each valid task is on exactly one queue or one core, with the status, priority
  and flags that place asks for (`RunKeepsPlacement`, `OnePlace`); the loops over the bank compute exactly those steps
  (`Kernel.Machine`), and the waiting pass over the linked lists computes the same queues (`WakePass`, `PassLinked`).
- What each call does is stated in full and in numbers from the state before it: the scheduler (`ScheduleTask`,
  `ScheduleQueues`), the dispatcher (`DispatchExactly`), leaving a core (`LeaveExactly`), spawning (`SpawnExactly`), every call
  on the ledger (`AcquireExactly` and its like), the kernel allocator (`AllocExactly`) and the locks (`StepExactly`).
- Over any run a task that waits for a word rests exactly until the first call that looks at it and sees the word as it
  wants it (`WaitForAWord`), and a task's flags know the last two cores it ran on (`PreviousCoreOverRuns`).
- A task without the migration bit never changes core (`NeverOnAnotherCore`); no sleeper is woken early (`NeverWokenEarly`),
  and after any run requests and sleep correspond one to one exactly when the task has asked as often as it has waited
  (`RunSurplus`, `SleepersAreTheRequesters`).
- Level rotation is fair in any 48 calls of any run (`EveryRunIsFair`) on the packed words (`WordsCountOwnCalls`), and
  starves four levels as written (`AsWrittenLevelsStarve`).
- Shutdown: power-off only after four announcements, in every interleaving of loads and stores (`PowerOffOnlyAfterAll`);
  with fresh stores it comes (`FreshRunPowersOff`); announcements can be lost, and then it never does (`LostForGood`).
- Semaphore units are conserved and the mutex excludes, over all interleavings (`UnitsAreConserved`, `AtMostOneInside`), and
  a core gets in exactly while nobody is inside (`GainsExactlyWhenFree`);
  with the callers' loop as written, who is inside is known exactly (`InsideAsWrittenExactly`).
- Terminating a task releases exactly what it owns, after any run (`TerminateReleasesExactlyTheTasks`, `NothingLeaksAfterAnyRun`),
  and the packed word refines the sequence of tags it replays (`InsertAppends`, `CloseGapRemoves`, `NibbleReads`).
- The dump log holds the newest entries for any capacity (`LogKeepsTheNewest`).
- Through every growth of its frame each page of a task is reached by the table walk (`AddPreservesMeaning`, `EveryPageIsAlwaysReached`).
- Live extents of kernel memory never overlap nor leave the reserved block (`NoOverlapAfterAnyRun`), and a free undoes an
  allocation (`FreeUndoesAlloc`).
- A reader gets the newest message for it (`LatestMessageIsDelivered`, `ScanIsRightExactly`); the wait tests hold exactly when a transfer is complete
  (`WriteDoneExactlyWhenSent`, `ReadDoneExactlyWhenComplete`).

## Code and comments

The code is unfinished and many of its lines contradict their own comments. Where a property holds of the code as it is,
the code is modelled as it is. Where it does not, the project has both: a member whose name contains `AsWritten` models the
code and comes with the exact condition under which it does what is meant, or with what it does instead; and a member
that follows the comments carries the main theorem. The departures are described beside the members; the main ones:

- Lists: `fw_rm` unlinks only the two ends, the loop of `fw_len` is inverted.
- Scheduler: passes remove by a count that no longer names the task under the cursor; the running task is looked for on a
  queue it has left; lanes are not shifted down; demotion takes a maximum where a cap is meant; the first dispatch clears the
  "accessed before" bit instead of setting it; `wakeup_service` returns, with the queue lock held, at the first task that waits for something else.
  Nothing puts a task on the waiting, the terminated or the created queue: here waiting, faults, failed wait tests and
  spawning do.  No waking routine writes the woken task's status: here it becomes "ready" (`WokenAsWrittenExactly`,
  `SpawnAsWrittenExactly`).  The services of `kernel()` are pushed with status "created", one onto the wrong level, and an
  admitted task onto the queue with the core's number (`AdmittedAsWrittenExactly`).  No line clears a core's running slot:
  here a task runs on a core when the slot names it and its own fields agree; read by the slot alone, placement survives
  exactly under the condition of `SlotAsWrittenExactly`.  The wake-up service also ends after the first task it has
  woken, because it looks at the `next` of the node it has just moved (`WakeUpAsWrittenExactly`).
- Timer requests: their queue is given to `fw_rm`, the routine for task queues; `svc_tsleep_ms` dereferences the running
  slot twice, and stores a time in microseconds that the wake-up service compares with a tick counter; a dead task's
  requests stay, since the release routines do not run.  The model drops a request from its own queue, takes the id of
  the running task, and has one clock.
- Ownership: `free_flag_preiph` matches no tag; `terminate_context` wipes count and page list before it uses them, would
  read the padding nibble, which is the mini-UART's tag, and never moves on in the page list; gains of GPIO pins do not count
  their tag, locks insert a mailbox's, mailboxes and timers none (`GainAsWrittenUnbalances`); lock releases release nothing;
  `__free_gpio` clears two fields that the entry does not have, where here it clears the pin number.
- Logs: the second loop of the dump bank forgets its minimum in every turn.
- Page tables: three different offsets for the page area, tables copied with the old frame's addresses, translation base
  not updated, a page count that is one short and does not go up, an attempt count that is never one or two.
- Frame allocator: addresses that do not count from the reserved block, a layout index without a branch, loops without
  `break`, sizes in bytes compared with classes, frames of joins and frees not marked.
- Locks: `gain_mutex` returns 0 on success and its callers loop while it does; `release_mutex` releases nothing.
- Mailboxes and mini-UART: a status that never becomes "full", a `continue` that skips the decrement, a free that only
  takes the segment out of use; a count raised before the byte is read, `<=` for `<`, counts that a new transfer keeps.

Conventions: task ids that own something are 1 to 127, because 0 also means "free"; the wait reasons have the numbers of the
`switch`, 0 to 8; descriptors are opaque values; the clock, FIFO readiness, the words that wait tests read and the
order in which cores act are inputs.

## Model

| member | source | states |
|---|---|---|
| `FwList.Queue.PushBack` | lib/fwlist.c:3-14 | appends to the sequence the list stands for, keeping head, tail, links and distinctness |
| `FwList.Queue.PushFront` | lib/fwlist.c:16-26 | prepends likewise |
| `FwList.Queue.Walk` | lib/fwlist.c:30-46 | the wrapping 64-bit cursor loop names element `idx`, or the last one when `idx` is the length; codes 1 and 2 otherwise |
| `FwList.Queue.AtAsWritten` | lib/fwlist.c:72-91 | exact result and return codes for every 64-bit index |
| `FwList.Queue.RmAsWritten` | lib/fwlist.c:28-70 | exact return code and new contents: only an end is ever unlinked |
| `FwList.UnlinksOnlyEnds` | lib/fwlist.c:56-67 | `fw_rm` removes the named element exactly at the two ends |
| `FwList.Queue.Remove` | lib/fwlist.c:28-70 | with the middle branch: removes exactly the named element, same codes |
| `FwList.Queue.LenAsWritten` | lib/fwlist.c:93-107 | 0, a null read, or 1, by length |
| `FwList.Queue.Len` | lib/fwlist.c:93-107 | the length, with the loop test turned round |
| `FwList.Queue.Find` | lib/fwlist.c:122-140 | the first request of the id, or which of the two failures |
| `QueuePass.Detach` | lib/schaduler.c:172-173 | unlinking a waiting node leaves all other queues valid and the node free |
| `QueuePass.Attach` | lib/schaduler.c:174 | linking it behind another queue changes no other queue |
| `QueuePass.WakePass` | lib/schaduler.c:164-178 | the heap pass is a filter: kept nodes in order, the nodes sent to each ready queue and to the terminated queue in order at its back, within the bound |
| `LinkedPass.PassLinked` | lib/schaduler.c:164-178 | for the waiting and the admission pass, with nodes sent where their tasks go, walking and unlinking leaves every list standing for the queue the scheduler's pass computes |
| `LinkedPass.SourceAfter` | lib/schaduler.c:164-178 | the source list after the walk is the pass's source queue |
| `LinkedPass.TargetAfter` | lib/schaduler.c:174 | so are the lists the nodes were sent to |
| `QueuePass.PassAsWrittenRemovesOnlyFirst` | lib/schaduler.c:166-178 | removing by the count of examined tasks takes the right node exactly at the first one |
| `QueuePass.WakeUpAsWrittenRemoves` | lib/schaduler.c:276-296 | the same for the wake-up service, whose cursor may be at the last node |
| `QueuePass.ScanTurnAsWrittenExactly` | lib/schaduler.c:142-146 | a task of status 2 is taken off the scanned ready queue exactly as the first of the core's own queue; otherwise it stays and all behind it are cut off |
| `Flags.FirstDispatchFields` | lib/schaduler.c:245-247 | the first dispatch sets core and accessed-before, and disturbs no other field |
| `Flags.MigrateFields` | lib/schaduler.c:210-214 | a migration records the core left and the new core, and disturbs no other field |
| `Flags.ChoiceRespectsAffinity` | lib/schaduler.c:197-260 | a task is passed over exactly when it has run, may not migrate and is another core's |
| `Flags.ChoiceAsWrittenExactly` | lib/schaduler.c:201-258 | as written the choice is the one meant exactly for core 3's accessed tasks on core 3, and for another core's without the migration bit, but for core 1's on core 3 |
| `Flags.AsWrittenForgetsTheTaskRan` | lib/schaduler.c:243-248 | as written every core takes the task again; affinity then holds only by coincidence of cores |
| `Flags.MigrationAsWrittenWipesFields` | lib/schaduler.c:204-214 | as written a migration clears every field but the core |
| `Flags.TaskMigratedFields` | exception/irq/irq.c:72-76 | only the previous core is cleared, for tasks that left this core |
| `Flags.TaskMigratedAsWritten` | exception/irq/irq.c:74-76 | as written the test never holds; the mask is right exactly when bits 5 and 7 are clear |
| `Rotation.RotateLanes` | lib/schaduler.c:106-121 | one call counts its own core's lanes on, modulo 6 and 8, and no other lane |
| `Rotation.LanesCountOwnCalls` | lib/schaduler.c:76-121 | in any interleaving of cores, ticks are a core's own calls modulo 6, its level their sixths modulo 8 |
| `Rotation.EveryLevelServedSixTimes` | lib/schaduler.c:106-121 | every level is current on exactly 6 of any 48 consecutive counts |
| `Rotation.FairInAnyInterleaving` | lib/schaduler.c:106-121 | inside any sequence of calls of all cores, of any 48 calls of one core every level gets exactly 6 |
| `Words.SetLaneSets` | lib/schaduler.c:109-120 | clearing a lane with a mask and merging a shifted byte in changes that byte of the 32-bit word and no other |
| `Words.WordsRefine` | lib/schaduler.c:106-121 | the masks and shifts on the two packed words do to their lanes what the rotation says |
| `Words.WordsCountOwnCalls` | kernel.c:73-74 | in any interleaving the bytes of the packed words count each core's own calls |
| `Words.RotateAsWrittenLanes` | lib/schaduler.c:119-120 | what the masks as written leave in every lane |
| `Words.AsWrittenLevelsStarve` | lib/schaduler.c:77-121 | as written only levels 0, 1, 3 and 7 are ever current, and on cores 1 to 3 only level 0 |
| `Words.AsWrittenClobbersOtherLanes` | lib/schaduler.c:119-120 | as written a call keeps another core's byte exactly when it was zero |
| `Tasks.MoveKeepsPlaced` | lib/schaduler.c:98-100 | taking a task from its place and putting it where its new fields say keeps every task in exactly one place |
| `Scheduler.RewardUndoesPunishment` | exception/synchronous/svc/svc.c:602 | reward and punishment are inverse except at the ends and stay within the eight levels |
| `Scheduler.DemotionAsWritten` | lib/schaduler.c:96 | as written the demotion leaves the levels exactly from 7 and is the cap exactly at 6 |
| `Scheduler.VerdictExactly` | lib/schaduler.c:3-72 | for each numbered wait reason, exactly when the wait is over, and which fault is found when |
| `Scheduler.VisitKeeps` | lib/schaduler.c:131-178 | one task of any pass keeps placement, rotation and request bank, given the status write of `WokenAsWrittenExactly` |
| `Scheduler.RunPassKeeps` | lib/schaduler.c:123-178 | every pass keeps the scheduler's invariant |
| `Scheduler.SweepIsFilter` | lib/schaduler.c:166-178 | from any point of a pass: stayers in order before the rest, movers in order behind their queues |
| `Scheduler.RunPassIsFilter` | lib/schaduler.c:151-178 | each queue after admission, reaping, polling or wake-up is the filter of what it was, within the pass's bound |
| `Scheduler.LoneTaskStays` | lib/schaduler.c:131-166 | a task alone on its queue is never looked at |
| `Scheduler.WokenAsWrittenExactly` | lib/schaduler.c:170-175 | whatever status a woken task is left with, it is in its place exactly if that is "ready", a write neither waking routine makes |
| `Scheduler.VisitPushes` | lib/schaduler.c:137-174 | the unlinking and pushing calls of admission, reaping, polling and waking, queue by queue |
| `Scheduler.AdmittedAsWrittenExactly` | lib/schaduler.c:139 | as written an admitted task goes to the queue with the core's number, its place exactly when that is its priority |
| `Interleavings.PickIsFirst` | lib/schaduler.c:197-260 | the dispatcher takes the first eligible task looked at, and none only when none is |
| `Interleavings.LoneReadyTaskIsNotDispatched` | lib/schaduler.c:197 | a task alone on its level is not dispatched |
| `Interleavings.LeaveKeeps` | lib/schaduler.c:89-102 | with the task its slot names read by its fields, preemption, waiting and faults keep the invariant |
| `Interleavings.LeaveExactly` | lib/schaduler.c:95-100 | what an exit does, in full: fields, level and fault code in numbers, the queue pushed onto, nothing else changed |
| `Interleavings.ApplyKeeps` | exception/synchronous/svc/svc.c:183-202 | so does every step, a timer request among them, after which its caller runs on |
| `Interleavings.SpawnKeeps` | exception/synchronous/svc/svc.c:609-664 | spawning into the first invalid PCB, and onto the created queue, keeps it |
| `Interleavings.SpawnExactly` | exception/synchronous/svc/svc.c:615-637 | what spawning does, in full: the first invalid PCB, priority 3, program counter, ready flag, dependency and migration as asked |
| `Interleavings.SpawnAsWrittenExactly` | exception/synchronous/svc/svc.c:615-661 | without that push, as written, a spawned task is out of place exactly when there was a PCB for it; the push is all that is missing |
| `Sleepers.SpawnedAsWrittenIsNeverAdmitted` | exception/synchronous/svc/svc.c:633 | with the flags as written a spawned task is core 1's, lacks the ready flag, and stays on the created queue in every run |
| `Interleavings.ScheduleKeeps` | lib/schaduler.c:74-181 | the scheduler keeps it |
| `Interleavings.ScheduleIdles` | lib/schaduler.c:89-102 | after the scheduler no task's fields say that it runs on the core |
| `Effects.ScheduleTask` | lib/schaduler.c:89-178 | what a scheduler call makes of every task, from the state before it: one demoted, the created ones with the ready flag, the first three terminated, the first three waiting by their wait tests, never the last of a queue; all others as they were |
| `Effects.ScheduleQueues` | lib/schaduler.c:89-178 | and of every queue, in order: who leaves it, who joins it, and behind whom |
| `Interleavings.DispatchKeeps` | lib/schaduler.c:183-262 | the dispatcher keeps it |
| `Interleavings.DispatchExactly` | lib/schaduler.c:197-260 | what a dispatch does, in full: the first eligible task of the level runs here, its flags say on which core and which it left, nothing else changes; nothing happens exactly when none is eligible |
| `Interleavings.SlotAsWrittenExactly` | lib/schaduler.c:217-250 | read by the slot alone, which no line clears, a step that schedules keeps every task in one place exactly when the core ran nothing or the dispatcher finds a task |
| `Interleavings.BootIsGood` | kernel.c:199-224 | the state at boot, before the services, satisfies the invariant |
| `Interleavings.BootAsWrittenIsMisplaced` | kernel.c:266-325 | with the services pushed as written it does not, nor would it with status "ready" |
| `Interleavings.BootWithServices` | kernel.c:261-325 | with both services ready and in the queues of their priorities it does |
| `Interleavings.RunKeepsPlacement` | lib/schaduler.c:74-298 | no interleaving of ticks, waits, timer requests, faults, wake-ups and spawns on four cores breaks the invariant |
| `Interleavings.OnePlace` | structure/task.h:43-44 | the invariant means: a valid task is on exactly one queue or core, once, a ready one in the queue of its priority, an invalid one nowhere |
| `Interleavings.RunRotor` | lib/schaduler.c:76-121 | in any run the lane words are those after the scheduler calls in it, in their order |
| `Interleavings.EveryRunIsFair` | lib/schaduler.c:106-121 | in any run from boot, of any 48 scheduler calls of a core every level is opened by exactly 6 |
| `Waits.StepWaiting` | lib/schaduler.c:164-178 | any step of any core leaves a waiting task alone unless it looks at it and the wait test says done or faulty, and then does what that asks for |
| `Waits.RestsUntilAnswered` | lib/schaduler.c:164-178 | over any run a waiting task rests exactly as long as no call that looks at it finds its wait over, or faulty |
| `Waits.CallerWaits` | exception/synchronous/svc/svc.c:594-607 | after the whole wait step the caller waits with the reason and instruction asked for, one level up; the same call does not go on to it |
| `Waits.CallerDies` | exception/synchronous/synchronous.c:215-223 | after the whole step of a fault its task is terminated with the code given, and not yet reaped |
| `Waits.WaitForAWord` | lib/schaduler.c:31-36 | from the call over any run: a task waiting for a word to be nonzero, or zero, rests exactly until the first call that looks at it and sees that, which makes it ready |
| `Affinity.ApplyKeepsCore` | lib/schaduler.c:197-260 | no step moves a bound task to another core or unbinds it |
| `Affinity.NeverOnAnotherCore` | lib/schaduler.c:197-260 | over any run, a task without the migration bit that has run on a core runs on no other for life |
| `Affinity.StepCarries` | lib/schaduler.c:210-247 | any step leaves the flags of a task off the cores, and of a running one records the core it ran on before |
| `Affinity.PreviousCoreOverRuns` | lib/schaduler.c:210-214 | from first dispatch to death: a task's flags name the last core it was seen running on, and as previous core the last other one before |
| `Sleepers.NeverWokenEarly` | lib/schaduler.c:264-298 | whatever runs, a sleeper stays asleep with all its requests until a wake-up call at or after the time of its first |
| `Sleepers.WakeUpWakesTheDue` | lib/schaduler.c:284-292 | a wake-up call makes a task ready and drops its first request exactly when it sleeps and that request is due; all else stays |
| `Sleepers.WakeUpAsWrittenExactly` | lib/schaduler.c:276-296 | with its three ways to end and `fw_rm` at the ends only, the call does what is meant exactly when every due sleeper is at an end of the queue, behind undue sleepers only |
| `Sleepers.SweepTasks` | lib/schaduler.c:166-178 | a pass gives each task looked at the fields and requests it decided on, and leaves every other task alone |
| `Sleepers.RequestSurplus` | exception/synchronous/svc/svc.c:189-201 | an accepted request goes behind the caller's others with its time; no other task's are touched |
| `Sleepers.SleepersAreTheRequesters` | exception/synchronous/svc/svc.c:183-202 | after any run a task's requests and sleep correspond one to one exactly when it has asked as often as it has waited for the timer |
| `Sleepers.RunSurplus` | exception/synchronous/svc/svc.c:183-202 | the law behind it: requests less sleep changes by accepted requests less timer waits, over any run |
| `Sleepers.UnreadyIsNeverAdmitted` | lib/schaduler.c:123-140 | a created task without the ready flag is touched by no run |
| `Sleepers.OrphanedExactlyByBareWaits` | lib/schaduler.c:29-30 | over any run a task ends asleep without a request exactly when at some step it waited for the timer without one |
| `Sleepers.BareTimerWaitIsForever` | lib/schaduler.c:281-285 | such a task is woken by no run |
| `Sleepers.BareTimerWaitOrphans` | exception/synchronous/svc/svc.c:594-607 | `svc_wait` with the timer reason and no request makes one |
| `Sleepers.BankIsUsedUp` | exception/synchronous/svc/svc.c:189-201 | as no release ever runs, at most 64 requests are accepted in all; the bank answers as one with cleared slots exactly while a slot is left or none is idle |
| `Kernel.Machine.constructor` | kernel.c:199-224 | boots into the state before the services |
| `Kernel.Machine.BoundedPass` | lib/schaduler.c:131-178 | the in-place loops compute the passes |
| `Kernel.Machine.WakeupService` | lib/schaduler.c:264-298 | the wake-up loop computes the wake-up pass |
| `Kernel.Machine.RotateLanes` | lib/schaduler.c:106-121 | the masks and shifts on the two packed words compute the rotation |
| `Kernel.Machine.TaskSchaduler` | lib/schaduler.c:74-181 | the whole scheduler call is the step proved about above |
| `Kernel.Machine.FindEligible` | lib/schaduler.c:197-260 | the dispatcher's loop finds the first eligible task |
| `Kernel.Machine.TaskDispatcher` | lib/schaduler.c:183-262 | the dispatcher is the dispatch step, whatever task that has left the slot still names |
| `Kernel.Machine.SvcWait` | exception/synchronous/svc/svc.c:594-607 | waiting, then scheduling and dispatching, is the wait step; the slot is not cleared |
| `Kernel.Machine.SvcTsleep` | exception/synchronous/svc/svc.c:183-202 | queues the request, the caller running on; refused exactly when every slot has been used |
| `Kernel.Machine.SvcSpawnTask` | exception/synchronous/svc/svc.c:615-624 | takes the first invalid PCB, 128 when there is none |
| `Kernel.PassTurn` | lib/schaduler.c:131-178 | each turn of a loop extends the filtered prefix by one task |
| `Shutdown.StepKeepsSafe` | lib/core.c:216-217 | every single load or store of a core keeps every lane that reads 2 honest, in memory and in registers |
| `Shutdown.PowerOffOnlyAfterAll` | exception/synchronous/svc/svc.c:549-564 | in every interleaving power-off comes only after all four announcements were stored |
| `Shutdown.StaleStore` | lib/core.c:216-217 | a store disturbs another lane exactly when it has changed since the load |
| `Shutdown.AnnouncesAlone` | lib/core.c:209-221 | left alone, a core shows its announcement, touches no other lane, and may poll |
| `Shutdown.FreshRunShowsAll` | lib/core.c:216-217 | without stale stores the lanes that read 2 are exactly those announced |
| `Shutdown.PollerPowersOff` | exception/synchronous/svc/svc.c:552-564 | once all lanes show, ten polls of a polling core turn the power off, whatever the others do |
| `Shutdown.FreshRunPowersOff` | exception/synchronous/svc/svc.c:540-565 | so with fresh stores four announcements are enough for power-off |
| `Shutdown.LostForGood` | exception/synchronous/svc/svc.c:552-562 | once an announcement is overwritten no run turns the power off |
| `Shutdown.AnnouncementCanBeLost` | lib/core.c:216-217 | and an interleaving that overwrites one exists |
| `Shutdown.AsWrittenNeverPowersOff` | exception/synchronous/svc/svc.c:555-561 | as written the unshifted lanes are never all counted |
| `Semaphores.StepKeepsCoherent` | lib/softwarelock.s:64-90 | an armed core between its exclusives holds the current value |
| `Semaphores.UnitsAreConserved` | lib/softwarelock.s:64-90 | in every interleaving the value is initial minus gains plus releases, so gains never exceed what was there |
| `Semaphores.ReleaseWrapsAtTheTop` | lib/softwarelock.s:83-85 | a release adds a unit except at the top of the word |
| `Semaphores.ResultsTellTheTruth` | lib/softwarelock.s:60-90 | a gain answers 1 at once exactly without a unit; a store answers 0 exactly when armed and not spurious, and then takes or gives one unit; 1 changes no count |
| `Semaphores.UndisturbedCalls` | lib/softwarelock.s:60-90 | left alone a gain succeeds exactly when a unit is there, and a release always |
| `Mutexes.StepKeepsExclusive` | lib/softwarelock.s:4-45 | the word is 1 exactly while one core is inside, and is the gains less the releases |
| `Mutexes.StepExactly` | lib/softwarelock.s:4-45 | one step in full: an attempt gets a core in exactly when nobody is inside, an armed release store lets it out; nothing else changes who is inside, the word or a count |
| `Mutexes.AtMostOneInside` | lib/softwarelock.s:4-45 | at most one core is inside, in every interleaving |
| `Mutexes.GainsExactlyWhenFree` | lib/softwarelock.s:4-45 | in every interleaving the word is entries less exits, the next attempt of a core outside succeeds exactly while they are equal, and any attempt succeeds right after a release |
| `Mutexes.AsWrittenGainedOnce` | lib/softwarelock.s:25-45 | as written a mutex can be gained once, ever |
| `Callers.InsideAsWrittenExactly` | lib/schaduler.c:84-87 | in every interleaving of the callers' loops and releases as written, a core is inside exactly when its last move is a turn other than the very first |
| `Callers.CallersExcludeNobody` | lib/schaduler.c:84-87 | while nobody leaves, the cores inside are all those with a turn after the first, however many |
| `Tags.InsertAppends` | exception/synchronous/svc/svc.c:495-496 | or-ing a tag in at the count appends it |
| `Tags.CloseGapRemoves` | exception/synchronous/svc/svc.c:13-26 | cutting a nibble and closing the gap removes that element, all others in order |
| `Tags.NibbleReads` | lib/core.c:141 | nibble `i` reads element `i`, zero beyond the count |
| `Tags.PackFits` | structure/task.h:48 | sixteen tags fit the 64-bit word |
| `Tags.RemoveFirstCounts` | exception/synchronous/svc/svc.c:4-29 | removal takes one occurrence and nothing else |
| `Tags.FreeFlag` | exception/synchronous/svc/svc.c:4-29 | removes the first matching tag from the packed word |
| `Tags.Insert` | exception/synchronous/svc/svc.c:489-497 | appends, refused exactly at sixteen |
| `Tags.FreeFlagAsWrittenFreesNothing` | exception/synchronous/svc/svc.c:11 | as written no defined tag is ever matched |
| `Tags.GpallocAsWrittenSpoilsTheNextTag` | exception/synchronous/svc/svc.c:230 | as written any next tag is merged into the same nibble, which then names it exactly for the tags 7 and 15 |
| `Tags.ReplayAsWrittenReadsPadding` | lib/core.c:141 | as written every turn reads the padding behind the last tag |
| `Ledger.AcquireKeeps` | exception/synchronous/svc/svc.c:219-236 | a first-fit gain that counts its tag keeps tags and bank entries in agreement |
| `Ledger.AcquireExactly` | exception/synchronous/svc/svc.c:219-236 | what a gain does, in full: codes 0, 1 and 2, the first free entry, one tag behind the others, nothing else |
| `Ledger.ReleaseKeeps` | exception/synchronous/svc/svc.c:238-262 | so does giving the first owned entry and its tag back |
| `Ledger.ReleaseExactly` | exception/synchronous/svc/svc.c:238-262 | what a release does, in full: the first owned entry, the first tag of the kind, 2 exactly without an entry |
| `Ledger.PinCallsKeep` | exception/synchronous/svc/svc.c:219-262 | so do GPIO gains and frees; a free succeeds exactly when the task's first entry has that pin |
| `Ledger.AcquirePinExactly` | exception/synchronous/svc/svc.c:219-236 | a GPIO gain is that gain, and records the pin in the entry it takes |
| `Ledger.ReleasePinExactly` | exception/synchronous/svc/svc.c:238-262 | a GPIO free gives back the first entry, its pin and tag exactly when that entry has the pin; else 1 or 2 and no change |
| `Ledger.AcquireLockKeeps` | exception/synchronous/svc/svc.c:483-500 | so does gaining a chosen lock |
| `Ledger.LockCallsExactly` | exception/synchronous/svc/svc.c:483-508 | what gaining and releasing a chosen lock do, in full, and their codes |
| `Ledger.ReleaseLockKeeps` | exception/synchronous/svc/svc.c:501-508 | so does releasing it, tag included |
| `Ledger.AllocPageKeeps` | lib/memory.c:3-17 | a page allocation keeps the task's page list equal to the frames it owns |
| `Ledger.AllocPageExactly` | lib/memory.c:3-17 | the first free frame goes to the back of the task's list; nothing happens exactly when none is free |
| `Ledger.FreePageKeeps` | lib/memory.c:19-25 | so does a free |
| `Ledger.FreePageExactly` | lib/memory.c:19-25 | the frame becomes free and leaves its owner's list, all other frames keep their order |
| `Ledger.GainAsWrittenUnbalances` | exception/synchronous/svc/svc.c:219-236 | as written a gain of a pin, mutex, semaphore, mailbox or timer unbalances the books exactly when an entry is free, or there is room for a tag and the lock can be had; a unit goes missing exactly at sixteen tags |
| `Ledger.GainAsWrittenExactly` | exception/synchronous/svc/svc.c:483-528 | what each gain as written does, in full: its code, the entry or the tag it takes |
| `Ledger.ReplayClears` | lib/core.c:139-143 | replaying the tags clears every entry of the task, whatever their order |
| `Ledger.ReplayClearsPins` | lib/core.c:15-29 | and the pin number of every GPIO entry of the task |
| `Ledger.FreeAllClears` | lib/core.c:148-164 | walking a page list clears the listed frames and no other |
| `Ledger.TerminateReleasesExactlyTheTasks` | lib/core.c:120-164 | replaying the tags and walking the page list clears every bank entry and frame of the task, and changes nothing of any other |
| `Ledger.TerminateKeeps` | lib/core.c:120-164 | and keeps all other books and page lists in order |
| `Ledger.NothingLeaksAfterAnyRun` | lib/core.c:120-164 | after any run of gains, releases, page calls and terminations, a termination leaves nothing in the task's name |
| `Ledger.TerminateAsWrittenLeaks` | lib/core.c:129-164 | as written the books stay in order exactly for a task with no tag and no frame |
| `Ledger.WalkAsWrittenExactly` | lib/core.c:148-164 | the page loop as written ends, and frees the list, exactly for a list of one page |
| `Ledger.ReleaseLockAsWrittenExactly` | exception/synchronous/svc/svc.c:501-508 | as written a release does what is meant exactly for a lock the task does not hold; a held one stays held |
| `Ledger.Ownership.Free` | lib/core.c:57-79 | the release loop clears the first owned entry of its bank only |
| `Ledger.Ownership.Gain` | exception/synchronous/svc/svc.c:219-236 | the gain loop, its code, and the tag word |
| `Ledger.Ownership.ClaimFrame` | lib/memory.c:3-17 | the first free frame becomes the task's and goes onto its list |
| `Ledger.Ownership.constructor` | kernel.c:199-224 | everything free, as at boot, and the arrays valid |
| `Ledger.Ownership.TerminateContext` | lib/core.c:120-164 | the loops over packed word, banks and page list compute the termination |
| `DumpLog.LogKeepsTheNewest` | lib/core.c:166-206 | for any capacity, the bank holds exactly the newest dumps, dump `j` in slot `j` modulo the capacity |
| `DumpLog.SlotsOfTheLog` | lib/core.c:166-206 | seen from a slot: the newest dump of its residue, or empty |
| `DumpLog.DumpSurvivesIffNonzeroId` | lib/core.c:168-171 | a dump survives the next one exactly when its id is not 0 |
| `DumpLog.LogAsWrittenExactly` | lib/core.c:180-206 | as written it agrees exactly until the bank is full |
| `DumpLog.LogAsWrittenKeepsTheFirst` | lib/core.c:180-206 | from then on it keeps the first dumps for ever |
| `DumpLog.BreakpointLogIsCapacityTwo` | exception/synchronous/synchronous.c:404-412 | the two-slot breakpoint rule is the dump rule at capacity 2 |
| `DumpLog.SaveDump` | lib/core.c:166-206 | the two loops find the slot: first empty, else first of the oldest |
| `DumpLog.SaveBreakpoint` | exception/synchronous/synchronous.c:404-412 | a core's breakpoint touches its own pair only |
| `PageTable.HeldPagesAreReached` | exception/synchronous/synchronous.c:225-311 | in the layout of the capacity test the walk through the three levels ends at the page's own word |
| `PageTable.AddPreservesMeaning` | exception/synchronous/synchronous.c:225-311 | with or without growth every old page is read as before and the new one is next, whatever the larger frame held |
| `PageTable.AddExactly` | exception/synchronous/synchronous.c:226-312 | adding fails exactly at a full frame with no larger one to be had, moves exactly from a full frame, and otherwise writes the page's word and a new span's only |
| `PageTable.EveryPageIsAlwaysReached` | exception/synchronous/synchronous.c:196-312 | from a task's creation on, in a first frame of any size and through every growth, the walk finds every page |
| `PageTable.SpawnedAsWrittenExactly` | exception/synchronous/svc/svc.c:651-654 | the first page's fixed word 3 is right exactly in frames up to 32 KB |
| `PageTable.WriteAsWrittenExactly` | exception/synchronous/synchronous.c:311 | for any count, the write without growth adds a page exactly when its slot is the next one and no new level-2 word is needed |
| `PageTable.WriteAsWrittenReplacesAPage` | exception/synchronous/synchronous.c:311 | with the count the code has it adds none: it replaces the last page up to 32 KB, the one before at 128 KB, the eighth from the end at 512 KB; and the next page of an attempt replaces this one |
| `PageTable.GrowthAsWrittenComesTooLate` | exception/synchronous/synchronous.c:226-230 | with that count the capacity test fires only for a frame that already lacks a page |
| `PageTable.GrownAsWrittenReachesNothing` | exception/synchronous/synchronous.c:253-255 | the copied tables lead back to the old frame |
| `PageTable.GrownAsWrittenKeepsDescriptors` | exception/synchronous/synchronous.c:257-271 | the words of the pages the frame holds, as many as the code's count, are copied into place exactly from 32 KB to 128 KB |
| `PageTable.GrowthHappensAt` | exception/synchronous/synchronous.c:281-303 | the page counts at which frames grow, and so which guarded level-2 writes are reached |
| `PageTable.CountAsWrittenMissesOne` | exception/synchronous/synchronous.c:164-181 | the counting loop misses the last page |
| `PageTable.AttemptAsWrittenAddsNothing` | exception/synchronous/synchronous.c:183-196 | as written no attempt is ever for one or two pages |
| `PageTable.Translation.constructor` | exception/synchronous/svc/svc.c:641-659 | a new task's three tables and first page, in a frame of any size |
| `PageTable.Translation.AddPage` | exception/synchronous/synchronous.c:225-311 | the in-place code computes the addition, and fails without a trace |
| `PageTable.Translation.Grow` | exception/synchronous/synchronous.c:241-277 | tables and pages moved into the larger frame, which becomes the task's |
| `PageTable.Translation.WritePage` | exception/synchronous/synchronous.c:279-311 | the word of the page and of a new span |
| `PageTable.Move` | exception/synchronous/synchronous.c:251-294 | the copy loops compute the move, inside both frames |
| `Kmem.ChooseClass` | lib/kmem.c:104-114 | the selection loop by wrapping subtraction, as written, for every 32-bit size |
| `Kmem.ChoiceIsBest` | lib/kmem.c:104-114 | its choice is the smallest fitting class above 2 KB exactly for sizes up to 512 KB, and 8 KB beyond |
| `Kmem.Layout` | kernel.c:226-259 | the layout loop from any base, index 1 included |
| `Kmem.FramesFit` | linker.ld:222-226 | wherever the reserved block is, every frame is inside it |
| `Kmem.Apart` | kernel.c:226-259 | frames do not overlap |
| `Kmem.LayoutAsWritten` | kernel.c:249-258 | as written frames 1 and 2 start at the same place and the rest 512 KB lower |
| `Kmem.FramesAsWrittenInside` | kernel.c:227-232 | as written, from address 0, a frame is inside the reserved block exactly when the block starts at or below it |
| `Kmem.JoinIsContiguous` | lib/kmem.c:146-211 | four joined frames are contiguous and exactly one class larger |
| `Kmem.LiveExtentsAreDisjoint` | lib/kmem.c:3-98 | wherever the block is, live handles are inside it and share no byte |
| `Kmem.JoinScanFinds` | lib/kmem.c:151-164 | the join scan finds a run exactly when there is one that does not include the last frame |
| `Kmem.PickIsSound` | lib/kmem.c:136-222 | what is picked is free, large enough, and exact unless a larger single frame had to do |
| `Kmem.PickFailsIff` | lib/kmem.c:136-222 | nothing is picked exactly when no frame and no run would do |
| `Kmem.PickExactly` | lib/kmem.c:136-222 | which frames are picked: the last free one of the class, else the last long enough row a class below, else the last larger one |
| `Kmem.AllocIsSound` | lib/kmem.c:100-226 | every claimed frame belongs to exactly one handle, the new one; other handles are as before |
| `Kmem.AllocExactly` | lib/kmem.c:100-226 | an allocation fails exactly when all handles are in use or no frames are to be had; else the first unused handle gets the frames picked |
| `Kmem.FreeIsExact` | lib/kmem.c:228-242 | a release gives back precisely the handle's frames |
| `Kmem.FreeUndoesAlloc` | lib/kmem.c:100-242 | freeing what was just allocated restores the allocator |
| `Kmem.KframeIsLargeEnough` | lib/kmem.c:100-226 | a size in bytes up to 512 KB gets at least that many bytes |
| `Kmem.NoOverlapAfterAnyRun` | lib/kmem.c:3-242 | so after any sequence of requests from boot |
| `Kmem.SameClassAsWrittenExactly` | lib/kmem.c:31-38 | the loop without `break` keeps the invariant exactly when the class has one free frame |
| `Kmem.KframeAsWrittenExactly` | lib/kmem.c:136-222 | with sizes above 4 compared as classes only joins are ever given out, which is right exactly when no frame of the class is free, and there is a run or no larger frame |
| `Kmem.TinyKframeAsWrittenExactly` | lib/kmem.c:136-222 | the same for sizes 0 to 4, which do match class numbers |
| `Kmem.JoinAsWrittenGivesTheSameRunAgain` | lib/kmem.c:152-164 | an unmarked join is given out again |
| `Kmem.FreeAsWrittenLeaks` | lib/kmem.c:228-242 | as written the frames of a freed handle stay taken |
| `Kmem.UnusedTestAsWritten` | lib/kmem.c:125 | as written no handle is ever found unused |
| `Kmem.Allocator.FindLast` | lib/kmem.c:136-143 | the scan loop keeps the last fitting frame |
| `Kmem.Allocator.FindRun` | lib/kmem.c:151-164 | the join loop |
| `Kmem.Allocator.Allocate` | lib/kmem.c:3-51 | the in-place allocation computes the specified one, handle and all |
| `Kmem.Allocator.Release` | lib/kmem.c:79-98 | so does the release |
| `Mailbox.WriteAppends` | lib/ipcmailbox.c:56-80 | lowest-free writing appends to the history until 511 segments are used |
| `Mailbox.HighestIsNewest` | lib/ipcmailbox.c:82-126 | the scan from the top returns the most recent message for the reader |
| `Mailbox.NewestIsTheLastMatch` | lib/ipcmailbox.c:82-126 | which is the last one written that matches mailbox and receiver |
| `Mailbox.LatestMessageIsDelivered` | lib/ipcmailbox.c:18-126 | after any run of writes every reader gets the most recent message kept for it, and none exactly when there is none |
| `Mailbox.ScanIsRightExactly` | lib/ipcmailbox.c:45-54 | over runs of writes and frees, the scan is right after every step exactly when every write goes above the messages for that reader still there |
| `Mailbox.FreedAsWrittenIsNeverTaken` | lib/ipcmailbox.c:24 | a segment freed as written is taken again by no run |
| `Mailbox.AsWrittenFreesKeepTheOrder` | lib/ipcmailbox.c:45-54 | so with frees as written every reader always gets its newest message |
| `Mailbox.HostMessagesAreMissed` | lib/ipcmailbox.c:87-95 | a message for receiver 0 is found by the host's read only if the owner's id is 0 |
| `Mailbox.AsWrittenNothingIsDelivered` | lib/ipcmailbox.c:68-75 | as written no message is ever delivered |
| `Mailbox.AsWrittenFillsThePool` | lib/ipcmailbox.c:56-80 | though every message takes a segment, in order, until 511 are gone |
| `Mailbox.ReadAsWrittenExactly` | lib/ipcmailbox.c:90-118 | the stuck scan is right exactly when the mailbox's newest message is for this reader or none is |
| `Mailbox.Pool.WriteMessage` | lib/ipcmailbox.c:56-80 | the pool's segments and history after a write, and its code |
| `Mailbox.Pool.ReadMessage` | lib/ipcmailbox.c:82-127 | the loop returns the newest message and leaves the pool unchanged |
| `Mailbox.Pool.ReadAsWritten` | lib/ipcmailbox.c:90-126 | the loop with its stuck turns |
| `Uart.SentKeeps` | exception/irq/irq.c:25-35 | the bytes out are always the first ones of the submitted buffer, as many as counted |
| `Uart.SentFills` | exception/irq/irq.c:25-34 | an interrupt sends as many bytes as there is room for, or all that are left |
| `Uart.WriteDoneExactlyWhenSent` | lib/schaduler.c:15 | over all runs of submissions and interrupts, the wait test holds exactly when the whole buffer is out |
| `Uart.NullBufferIsNeverDone` | exception/irq/irq.c:19-23 | a length without a buffer is rejected for ever |
| `Uart.EmittedAsWrittenExactly` | exception/irq/irq.c:25-29 | as written a transfer is right exactly when all its bytes and the next one are equal |
| `Uart.SubmitAsWrittenExactly` | exception/synchronous/svc/svc.c:42-43 | as written, however the interrupts come, the submitted bytes go out, all and no other, exactly from count 0; the test ever holds exactly up to the new length, and at once exactly for a count equal to it |
| `Uart.TakenKeeps` | exception/irq/irq.c:49-59 | the receive loop stores the stream in order, with no delimiter before its end and never past the limit |
| `Uart.ReadDoneExactlyWhenComplete` | lib/schaduler.c:24 | over all interrupts reception is the stream cut at the delimiter or the limit, and the wait test holds exactly when it is complete |
| `Uart.UnaskedBytesAreDropped` | exception/irq/irq.c:41-47 | without a buffer or a limit every interrupt with bytes throws one away and stores none |
| `Uart.ReadAsWrittenExactly` | exception/irq/irq.c:49-59 | over any interrupts the `<=` loop's wait test holds, and agrees with completion, exactly under conditions on when the delimiter and the bytes after it arrive |
| `Uart.ReadSubmitAsWrittenGets` | exception/synchronous/svc/svc.c:60-61 | a read submitted over a stale count is a shorter one, stored behind it |
| `Uart.ReadSubmitAsWrittenExactly` | exception/synchronous/svc/svc.c:60-61 | which is the read asked for exactly when nothing is counted or the delimiter comes early enough |
| `Uart.OwnerIsWokenExactlyWhenComplete` | lib/schaduler.c:7-24 | the scheduler's verdict on the waiting owner is "done" exactly when its write is out, or its read complete; a task that is not the owner is faulted |
| `Uart.MiniUart.TransmitEmpty` | exception/irq/irq.c:13-36 | the interrupt handler computes the transmission step and counts rejections |
| `Uart.MiniUart.Read` | exception/synchronous/svc/svc.c:48-62 | a submission starts a read of the bytes queued and to come |
| `Uart.MiniUart.ValidByte` | exception/irq/irq.c:38-60 | the handler computes the reception step |

## Left out

- Boot, vector tables, register save and restore, address translation by hardware, caches and PSCI calls; power-off is an event.
- Drivers, user library, services and sample tasks; GPIO pin arithmetic, UART settings, statistics other than the two rejection counts, ASIDs, `memoryvisor`'s victim.
- Kernel.Machine.BoundedPass: queues are sequences held in fields; linked nodes are in `FwList.dfy` and `QueuePass.dfy`, for the waiting and admission passes (`LinkedPass.PassLinked`).
- Kernel.Machine.WakeupService: sequences too, the status write of `WokenAsWrittenExactly` added, and going on to the end of the queue; the call as written is `Sleepers.WakeUpAsWritten`.
- Kernel.Machine.TaskSchaduler: inherits these.
- Kernel.Machine.SvcWait: likewise.
- Kernel.Machine.SvcTsleep: one clock, and the running task's own id.
- Kernel.Machine.constructor: stops before the two services; `Interleavings.BootWithServices` is the state with them.
- Interleavings.BootWithServices: with status "ready" and the second service on its own level, which the code has neither of; `BootAsWrittenIsMisplaced` is the code.
- Scheduler.VisitKeeps: with the status write of `WokenAsWrittenExactly`, without which placement is false.
- Scheduler.RunPassKeeps: likewise.
- Interleavings.LeaveKeeps: with the slot read together with the task's fields; by the slot alone see `SlotAsWrittenExactly`.
- Interleavings.ScheduleKeeps: with both.
- Interleavings.RunKeepsPlacement: with both, and with the push of `SpawnAsWrittenExactly`; these are exactly what is missing.
- Sleepers.WakeUpWakesTheDue: with the status write, and going on to the end of the queue; exactly when the code does the same is `WakeUpAsWrittenExactly`.
- Sleepers.WakeUpAsWrittenExactly: the status write is granted, and what hangs on the `next` of a task pushed without being unlinked is not followed.
- Interleavings.BootAsWrittenIsMisplaced: as written `create_ktask` also returns a null pointer for the second service, which the model does not follow.
- `mh_*` lists: they take head and tail by value, so their updates are lost; the tasks' page lists are sequences of frames in `Ledger.dfy`.
- The dedicated-core part of `create_ktask` and its early return; tasks come to life through `svc_spawn_task` only.
- The loop of lines 131-149 of the scheduler as a whole, which scans a ready queue for created and running tasks: the admission pass takes created tasks from their own queue, as the comment there says. What one of its turns does to a task of status 2 is `QueuePass.ScanTurnAsWrittenExactly`.
- The queue lock: every scheduler routine is one step. What the lock itself guarantees, and what the callers' loop makes of it, is in `Locks.dfy`.
- `spinwait_mutex` compares an address instead of a value and, as it stands, never returns; waiting is modelled by the interleaving alone.
- The stack handling of the lock routines, and the branch of `release_mutex` that returns into itself.
- Ledger.AcquireLockKeeps: with tag 8 and one task recorded per lock, the one that gained it; the code inserts tag 9 and records nobody (`GainAsWrittenUnbalances`). A semaphore gained by several tasks is not one entry of the bank, so only its tag and count are modelled.
- Ledger.Replay: the mini-UART's release does not look at the owner in the code; in a balanced ledger the tag implies it. Timer requests are entries of a bank of 64, not the queue that `Sleepers.dfy` models.
- PageTable.Add: descriptors' attribute bits and the value `(address & mask) << 11` are not modelled; a table word is a frame and a slot.
- PageTable.Walk: nothing is stated about pages beyond the last one, because neither code clears a new frame.
- Kmem.Alloc: the handle's id bits 27-31 are represented by the handle's own form; the lock `kmem_lock` (which `free_organized_frame` keeps on success) is not modelled.
- Mailbox.Pool.WriteMessage: access lists and maximum length are checked by callers and not modelled; runs with freed segments are in `ScanIsRightExactly` and `AsWrittenFreesKeepTheOrder`, on the pool's contents.
- Shutdown.PowerOffOnlyAfterAll: termination of the cores' tasks, the interrupt that asks the others, and the return of `psci_system_off` are not modelled.
- Interleavings.SpawnKeeps: with the push of `SpawnAsWrittenExactly`; parent, page, frame, permission and the codes 129 and 130 of the new task are not modelled.
