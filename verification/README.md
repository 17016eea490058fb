# A verified model of go-capataz's supervision engine

go-capataz supervises goroutines the way Erlang/OTP supervises processes: a supervisor starts its children in
order, watches for their exits, restarts them by policy, gives up when they fail too often, and stops
them in reverse order.  This project models that engine in Dafny and proves what it guarantees, over
every interleaving and over whole runs and whole trees.  `dafny verify dfyconfig.toml` checks everything.

## How the model works

**The environment is an oracle.**  `Engine` describes the supervisor goroutine as functions over an
oracle, a function from ticks to choices.  Before each operation on a child, each turn of the monitor
loop and each backoff wait the supervisor consumes one tick, in which any goroutines may end by
themselves and the context may be cancelled; the oracle also settles start results, exit errors, whether a
shutdown timer fires first, the clock, the result of the resource cleanup, and which ready case a `select`
takes.  A theorem about every oracle is a theorem about every interleaving and every behaviour of user
code.  User callbacks (worker bodies, cleanup, node builders) appear only as such outcomes.

**Two views of the same code.**  `Monitor.Supervisor` is the supervisor goroutine as imperative code:
fields for the children map, the spec list and the event trace, the loops of the source as loops.  Each
of its methods is proved to do exactly what the function of the same name in `Engine` says, up to the whole of
`runMonitorLoop`.  The theorems are lemmas about those functions.  Likewise `Lifecycle` is the small-step
protocol of one child (channels, captured panics, the two-way `select`), and `StepsRefinePhases` shows
that the phases which `Engine` keeps per goroutine are a faithful summary of it.

**Goroutines have incarnation numbers.**  `World.procs` lists every goroutine ever spawned.  Two marks record
accidents: `timedOut` (a shutdown timer fired on it) and `misread` (its notification was taken for
somebody else's).  The hypotheses of the safety theorems are about states, not about the oracle:

* *A1, distinct names*: the spec names are distinct in every state (`NamesStayDistinct`).  For a static
  supervisor distinctness in its specification is enough (`StaticNames`).  The code does not check it.
* *A2 and A3, no accident*: no goroutine is marked (`FaultFree`).  An environment in which no timer fires and
  no start fails has no accident (`Environment`), but the hypothesis is weaker: failing starts are
  allowed as long as their leftover notification is not taken for another child's.

Each hypothesis is needed.  `Counterexamples` gives concrete behaviours that break the conclusions without it.
For a static supervisor `NoOrphansExactly` shows that A2 and A3 together are the exact condition under which the children
map accounts for every live child (`NoOrphansOfRunsExactly` extends this to control messages), and
`StartRecordsAllExactly` that A1 is the exact condition at the start.
The theorems on the counting law, the spec list, the shutdown report, single turns, what a supervisor reports of itself
and a temporary child's single start do without A2 and A3.

**A nil map is not an empty map.**  When all children fail to start, the source hands out a nil map.  It reads as empty,
and writing into it panics.  `Sys.mapNil` keeps track of it, and `NilMap` says exactly when it matters.

**Fixed-width arithmetic** is explicit: the 32-bit restart counter, `time.Since` saturating at int64, and the
shift and product of the backoff modulo 2^64.

## What the proofs found

* A dynamic one-for-all supervisor with a backoff can crash on a spawn although nothing else is wrong: its restart
  fails and leaves a nil children map, its context is done during the next backoff wait, and a spawn that is already
  waiting is taken before the shutdown (`NilMapCrashes`).  `PanicsExactly` shows that in a run without accidents this
  is the only panic, and `NilAtLoopHead` when the map is nil at the loop.
* A spawn that fails reads one notification, whosever it is.  If it is the exit of a live child, that child stays in
  the map dead, and under one-for-one no policy brings it back (`DrainLosesChild`, `DrainedChildNeverReturns`).  While it
  waits for that notification the supervisor ignores that its context is done (`DoneIsIgnoredWhileDraining`).
* A start that fails during a restart leaves a goroutine blocked on its notification.  Once the
  monitor loop reads it, the failure is charged to the new incarnation, which is then replaced while still
  alive; a later exit of the lost one panics the supervisor (`FailedRestartCrashes`).
* Spawning a name again on a dynamic supervisor after a temporary child of that name has ended makes the next
  termination of it panic, because the loop deletes from the slice it ranges over
  (`ReusedNameCrashes`, `DeletePanicsExactly`, `DeleteFiltersExactly`).
* The comment on `Child.Terminate` (internal/c/core.go:10-13) says that a true first result comes with a nil
  error.  The code returns the child's error or the timeout error with it; the model follows the code
  (`FirstTerminationMayFail`).  The error is nil exactly when no timer ended the call and the child delivered a nil error
  to it (`FirstTerminationFailsExactly`).
* The documentation of the child constructor (internal/c/new.go:14-15) says that a name holding a slash
  panics.  The code accepts it, and two processes of a tree may then share a runtime name
  (`SlashMakesNamesCollide`): exactly those whose names have the same pieces between slashes (`SameNameExactly`).
* A start function that returns without ever reporting its start blocks both itself and its
  supervisor for ever (`HangsExactly`).
* A restart loop is sure to end, whatever happens, exactly when max is below the top of uint32 and the window is zero
  (`RestartLoopsEndExactly`).  With max 0 and a positive window one would expect the first failure to end it, but the
  tolerance manager reads the clock when it opens its window and again when it checks it: a window that closes between
  the two readings is reset and the failure tolerated, as is every later one that falls out of its window
  (`ZeroMaxTolerates`).  Where no window is that short the first failure does end it (`ZeroToleranceLeaves`).
* The sliding-window bound 2 * max - 1 is attained unless the window is one nanosecond and max exceeds 1; the
  backoff turns to no wait at all from the 65th failure of a window on.

## Files

| file | source |
|---|---|
| Types, Ordering | vocabulary; internal/s/spec.go |
| Tolerance, Backoff | internal/s/supervisor.go, internal/s/restart_tolerance.go |
| Lifecycle | internal/c/start.go, internal/c/core.go |
| DynSlice, Dynamic, Draining | internal/s/dyn_supervisor.go |
| Stepping | runs of an arbitrary step function |
| Engine, Monitor | internal/s/monitor.go, one_for_one.go, one_for_all.go, dyn_supervisor.go |
| Outcomes, Turns | what single operations and single turns come to, internal/c/start.go, internal/s/monitor.go |
| Ledger, Operations, Runs | the bookkeeping invariant, groups of children, whole runs |
| NilMap | the nil children map, internal/s/monitor.go, one_for_all.go, dyn_supervisor.go |
| Conservation | a counting law that holds without A2 and A3, and the exact conditions |
| Retirement, Closing | restart policies, shutdown |
| RestartLoop, LoopEnds, Waits | the restart loop, exactly when it ends, and its backoff waits |
| Environment, Counterexamples | when the hypotheses hold, and why they are needed |
| Trees, RuntimeNames | internal/s/root.go, subtree.go, monitor.go |
| Siblings | the trees refined by the engine, supervisor by supervisor |
| Hierarchy | trees of running supervisors, internal/s/subtree.go |
| Notifier | internal/n/reliable_notifier.go |
| Matcher | smtest/asserters.go, smtest/event_manager.go |

## Model

| member | source | states |
|---|---|---|
| Ordering.ReverseInPlace | internal/s/spec.go:34-36 | the two-index swap loop leaves exactly the reverse of the array it was given |
| Ordering.SortStartCopy | internal/s/spec.go:28-41 | children start in spec order or in its reverse; the caller's list is untouched |
| Ordering.SortTerminationCopy | internal/s/spec.go:44-57 | children stop in the opposite order, on a copy |
| Ordering.StopReversesStart | internal/s/spec.go:27-57 | for both orders, stopping visits the same children in exactly the reverse of the start order |
| Tolerance.RestartToleranceManager.CheckToleranceExceeded | internal/s/supervisor.go:71-95 | the mutating manager, which reads the clock when it opens, checks and resets a window, does what its transition function says, fields and verdict |
| Tolerance.OneReadingSuffices | internal/s/supervisor.go:71-95 | verdict, counter and source of a call are those of a single reading if and only if it is not the first call under max 0 with a positive window that closes within the call; the window begins between the first and the last reading |
| Tolerance.AdmitMeans | internal/s/restart_tolerance.go:38-56 | below the top of uint32 one call, with its three readings, resets, counts or refuses exactly by the age of the window at the check and the counter, with no wrap-around |
| Tolerance.ManagerTracksWindows | internal/s/supervisor.go:71-95 | with every reading of the clock in its place, a run is tolerated if and only if no failure is beyond the max-th of its window in the greedy partition, but for those that reset it; the counter is then the exact number in the open window, and the source error is the one that opened it |
| Tolerance.SlidingWindowBound | internal/s/restart_tolerance.go:38-56 | in a tolerated run any half-open interval as long as the window holds at most 2 * max - 1 failures, each from the first reading of its call to its check, and one if max is 0 |
| Tolerance.BoundIsAttained | internal/s/restart_tolerance.go:38-56 | for every window of two nanoseconds or more some tolerated run puts that many failures in such an interval |
| Tolerance.BoundIsTightExactly | internal/s/restart_tolerance.go:38-56 | the bound is attained by some run if and only if the window is at least two nanoseconds or max is 1 |
| Tolerance.SingleInstantBound | internal/s/restart_tolerance.go:38-56 | with a window of one nanosecond the bound is max, or one if max is 0 |
| Tolerance.ZeroWindowCountsForEver | internal/s/restart_tolerance.go:38-41 | with a zero window a run is tolerated if and only if it has at most max failures, whatever their times |
| Tolerance.ZeroMaxTolerates | internal/s/restart_tolerance.go:38-56 | with max 0 and a positive window a run is tolerated if and only if every failure finds its window closed at the check and resets it, the first one included |
| Tolerance.NegativeWindowTolerates | internal/s/restart_tolerance.go:38-41 | a negative window never refuses a failure |
| Tolerance.WidestCounterTolerates | internal/s/restart_tolerance.go:43-45 | with max at the top of uint32 the wrapped comparison never refuses a failure |
| Tolerance.CanGiveUp | internal/s/restart_tolerance.go:48-56 | exactly which policies can refuse some run at all |
| Tolerance.GivingUpIsJustified | internal/s/supervisor.go:71-95 | at the first refusal the failures since the reported source lie within less than the window: max + 1 of them, or at most two if max is 0; the counter is the number of those tolerated, and the source is the failure that opened the window |
| Backoff.MachineProduct | internal/s/restart_tolerance.go:67-68 | the wrapped shift times the base equals the exact product modulo 2^64 for every counter from 1 up |
| Backoff.DurationIsIntendedExactly | internal/s/restart_tolerance.go:63-73 | for every base and cap, negative ones included, the wait is min(base * 2^(count-1), max) if and only if the product fits in int64, or both it and its wrapped value reach the cap; with a zero base, if and only if the cap is not negative |
| Backoff.DurationIsMonotone | internal/s/restart_tolerance.go:63-73 | while products fit, the wait never shrinks as the counter grows |
| Backoff.NoWaitAtCountZero | internal/s/restart_tolerance.go:67-72 | at count 0 the wrapped shift makes the wait zero |
| Backoff.NoWaitBeyondSixtyFour | internal/s/restart_tolerance.go:67-72 | from the 65th failure of a window on there is no wait, for every base and cap |
| Backoff.NegativeWaitAtSixtyFour | internal/s/restart_tolerance.go:67-72 | a one-nanosecond base gives a negative wait at count 64 |
| Backoff.WaitAfterFailure | internal/s/monitor.go:57-81 | over a run of tolerated failures the wait is base doubled once per failure since the window opened, capped at max, and starts again from base in each new window |
| Lifecycle.ExactlyOneDelivery | internal/c/start.go:66-101 | in every interleaving the exit notification is taken exactly once when the goroutine is past its send and not before, by one channel, and the supervisor emits one exit event for it plus one per fired timer |
| Lifecycle.OneExitEventWithoutTimer | internal/c/start.go:34-46 | without a shutdown timer an incarnation yields exactly one exit event once over, and none before |
| Lifecycle.LaterTerminateIsNotFirst | internal/c/start.go:41-57 | after the delivery nothing is delivered again and every Terminate not cut short by its timer answers (false, nil) |
| Lifecycle.EarlyTerminateIsFirst | internal/c/start.go:41-57 | a Terminate that begins before the delivery answers true, whatever happens in between |
| Lifecycle.TerminateIsNeverStuck | internal/c/core.go:14-17 | a waiting Terminate can finish, or the goroutine can move on by itself, or it is in user code that has been told to stop; with a timer it can always finish at once |
| Lifecycle.HangsExactly | internal/c/start.go:181-202 | the protocol halts before the goroutine ended if and only if user code returned without ever reporting its start |
| Lifecycle.SilentStartHangs | internal/c/start.go:181-202 | such a halt is reachable |
| Lifecycle.FirstTerminationMayFail | internal/c/start.go:46-57 | Terminate can answer true together with an error |
| Lifecycle.FirstTerminationFailsExactly | internal/c/start.go:46-57 | in every interleaving a true first result comes with a nil error if and only if no timer ended that call and the one delivery, to Terminate, carried a nil error |
| Lifecycle.DeliversItsEnd | internal/c/start.go:139-202 | in every interleaving the error on offer, the one error delivered, and the error of every first answer without a timer are the error that user code returned, or the value of its panic; nothing is delivered before user code has ended |
| Lifecycle.StartReturnsFirstReport | internal/c/start.go:139-214 | in every interleaving DoStart returns the first start that user code announced, or its panic if that came first |
| Lifecycle.CallsAreAnswered | internal/c/start.go:34-64 | in every interleaving the context is cancelled if and only if Terminate was called, and all calls but one that waits have been answered, once each |
| Lifecycle.StopCompletes | internal/c/start.go:34-101 | wherever an incarnation that could start is, Terminate can be called, again too, and the child alone, by returning, ends it without a timer: with (false, nil) if its exit had been delivered, otherwise with true and the error with which user code ended |
| Lifecycle.PanicIsDelivered | internal/c/start.go:139-175 | whenever user code panics after its start, that panic alone brings its value to the supervisor, on the channel that it reads |
| Lifecycle.RepeatedStartIsIgnored | internal/c/start.go:181-202 | once DoStart has returned user code can report its start again without any effect |
| Lifecycle.FailedStartNeedsTheMonitor | internal/c/start.go:191-205 | a goroutine whose start failed can only be released through supNotifyChan |
| Lifecycle.StepsRefinePhases | internal/c/start.go:34-101 | every protocol step is a legal change of the engine's phases: user code ends with the error that it returned or the value of its panic on offer, one channel takes that error, and the first answer of Terminate is true exactly when it took it |
| DynSlice.DeleteWhileRanging | internal/s/dyn_supervisor.go:139-144 | the loop over the old slice header, on a real backing array, ends with exactly the slice, or the panic, of its specification |
| DynSlice.LoopIsScan | internal/s/dyn_supervisor.go:139-144 | with the in-place shifts and the stale tail the loop is a scan that skips the element after each deletion |
| DynSlice.DeleteFiltersExactly | internal/s/dyn_supervisor.go:139-144 | the loop is an order-preserving filter if and only if no two specs of that name are neighbours and, if the last spec has the name, no other does |
| DynSlice.DeleteWithDistinctNames | internal/s/dyn_supervisor.go:139-144 | with distinct names it is the filter, and names stay distinct |
| DynSlice.DeletePanicsExactly | internal/s/dyn_supervisor.go:139-144 | the loop goes out of bounds if and only if the last spec has the name and so does an earlier one |
| Monitor.Supervisor.DoStart | internal/c/start.go:113-214 | one more incarnation after the environment moved; a failed start leaves its goroutine behind and hands out no child |
| Monitor.Supervisor.Terminate | internal/c/start.go:34-64 | takes the notification, or finds it taken, or the timer fires: new state and both results |
| Monitor.Supervisor.StartChildNode | internal/s/monitor.go:255-283 | the start with the event it reports, for workers only when it succeeds |
| Monitor.Supervisor.TerminateChildNode | internal/s/monitor.go:343-368 | the stop with its event, silent when the exit was reported before |
| Monitor.Supervisor.TerminateChildNodes | internal/s/monitor.go:372-408 | the loop over the sorted specs: trace, goroutines and error map |
| Monitor.Supervisor.StartChildNodes | internal/s/monitor.go:292-339 | the loop with its rollback: trace, goroutines, children map and start error; on failure the map it returns is empty and its caller marks it nil |
| Monitor.Supervisor.OneForOneRestart | internal/s/one_for_one.go:10-44 | replaces one entry, or keeps the map when the start fails |
| Monitor.Supervisor.OneForAllRestart | internal/s/one_for_all.go:8-32 | stops all siblings but the source, starts all, takes over the resulting map, which is nil after a failure |
| Monitor.Supervisor.ExecRestartLoop | internal/s/monitor.go:38-96 | the loop does k steps of the state machine, k at most its bound, and says how it was left |
| Monitor.Supervisor.TerminateAll | internal/s/monitor.go:412-474 | stops everybody, runs the cleanup, combines the errors |
| Monitor.Supervisor.HandleNotificationOf | internal/s/monitor.go:98-206 | lookup by name, event, and the choice by policy between forgetting and restarting |
| Monitor.Supervisor.StartChildMsg | internal/s/dyn_supervisor.go:41-93 | a spawn appends the spec and the entry, or goes on to drain one notification, or panics when it started and the map is nil |
| Monitor.Supervisor.TerminateChildMsg | internal/s/dyn_supervisor.go:104-147 | a termination by name stops the child and removes what the deleting loop removes |
| Monitor.Supervisor.RunMonitorLoop | internal/s/monitor.go:490-595 | whatever the imperative loop does from a fresh supervisor is a run of the state machine, so all theorems about runs apply to it |
| Ledger.LedgerDoStart | internal/s/monitor.go:255-283 | a start keeps the invariant that ties goroutines, children map and trace together, provided nobody of that name is live |
| Ledger.LedgerDeliver | internal/s/monitor.go:343-368 | so does delivering and reporting an exit, after which the name is free |
| Operations.StopFailsExactly | internal/c/start.go:47-58 | stopping a live child leaves it live if and only if it has a timer and the timer fired first |
| Outcomes.TickOutcome | internal/c/start.go:139-202 | in a tick goroutines only end, each by the first exit that is about it, and the context is done from the tick on in which it is cancelled |
| Outcomes.StopOutcome | internal/c/start.go:34-64 | stopping a child whose exit nobody has taken: if the timer fires first the error is the timeout and the child stays as it is; otherwise the goroutine is gone by this call, and the error is the one that it already offered, or of its first exit in that tick, or of its reaction to the stop |
| Outcomes.StopAgainOutcome | internal/c/start.go:41-57 | stopping a child whose exit has been taken answers (false, nil), or the timeout if the timer fires first, and changes nothing of it |
| Outcomes.StartOutcome | internal/c/start.go:113-214 | a start spawns one goroutine more, and its error is the one that user code reports |
| Operations.StopAll | internal/s/monitor.go:372-408 | without accidents a group stop delivers exactly the live children it visits, reports each once in visiting order, and collects exactly the errors reported |
| Operations.StopReports | internal/s/monitor.go:372-408 | for every oracle, timers included, a group stop reports one exit for each visited child whose exit had not been taken or whose timer fired, once and in visiting order, each with the error with which that goroutine ended or the timeout, and leaves the others alone; its error map is made of exactly the errors reported |
| Operations.StopEverybody | internal/s/monitor.go:372-408 | a full stop leaves nobody live and nothing unaccounted for |
| Operations.StartAll | internal/s/monitor.go:301-338 | a group start gives every spec a fresh incarnation reported in start order, or has stopped everything it started when it returns its empty map |
| Runs.OneForAllStops | internal/s/one_for_all.go:21-23 | before a one-for-all restart starts anything, every live sibling has been stopped in reverse start order and nobody is live |
| Runs.OneForAllOutcome | internal/s/one_for_all.go:17-32 | on success the map holds exactly the spec names, all with incarnations newer than the restart, reported in start order; on failure the empty map loses nobody |
| Runs.StepIsGood | internal/s/monitor.go:533-594 | every step of the supervisor keeps the ledger invariant, for both strategies and all control messages; a child that started but whose entry a nil map refused is still accounted for |
| Runs.ReachableIsGood | internal/s/monitor.go:490-595 | it holds in every state of every run with A1 and no accident |
| Runs.LiveMeansRecorded | internal/s/monitor.go:533-594 | each live started goroutine is the one recorded under its name, or the one whose spawn crashed on the nil map; at most one is live per name |
| Runs.PanicsExactly | internal/s/dyn_supervisor.go:80 | in a run with A1 and no accident the supervisor has panicked if and only if it took a spawn whose child started while its map was nil; the unknown-name panic and the slice panic are unreachable |
| Runs.NeverPanics | internal/s/monitor.go:548-560 | so it never panics if nobody spawns, or it restarts one for one, or it has no backoff |
| NilMap.NilWriteExactly | internal/s/dyn_supervisor.go:80 | a step panics on the nil map if and only if the loop takes a spawn, its child starts and the map is nil |
| NilMap.NilAtLoopHead | internal/s/monitor.go:57-81 | at the loop of any run the map is nil if and only if, under one-for-all, an iteration of the restart loop that came after a failed attempt was cut short in its backoff wait by the done context |
| NilMap.NeverNilUnderOneForOne | internal/s/one_for_one.go:38-43 | a one-for-one supervisor that could start never has a nil map, so its restarts may write into it |
| NilMap.RunCrashesOnNilExactly | internal/s/dyn_supervisor.go:80 | a run, accidents and repeated names included, has crashed on a nil map if and only if it took a spawn that started while the map was nil |
| Runs.NobodyOutlivesTheSupervisor | internal/s/monitor.go:412-474 | once the supervisor has returned, for whatever reason, no child is live and every worker's last event is an exit |
| Hierarchy.DeliveredExactly | internal/s/monitor.go:412-474 | a supervisor that is over, in a run with A1 and no accident, has no live child if and only if it has not panicked |
| Hierarchy.NobodyOutlivesTheRoot | internal/s/subtree.go:21-81 | in a whole tree of running supervisors, each over its own run with its own restarts, once the root is over no child of any supervisor and any incarnation is live if and only if no supervisor of the tree has panicked |
| Runs.WorkerEventsAlternate | internal/s/monitor.go:98-170 | in every run the events of each worker name alternate between one start and one exit, and each incarnation starts once and exits once |
| Runs.StoriesAreTold | internal/s/monitor.go:98-206 | in every run with A1 and no accident the trace tells the whole story of each incarnation, workers and subtrees: a worker's start, then one exit once it is gone, Failed with the error it ended with, else Terminated if a stop took it and Completed if the loop did (nothing for a subtree); a failed start is reported at most as such |
| Conservation.LawAlways | internal/s/monitor.go:533-594 | in every run of a static supervisor, accidents included and under both strategies, before its context is done the live goroutines are exactly as many as map entries plus misread notifications plus goroutines whose shutdown timer fired |
| Conservation.LawOfRuns | internal/s/monitor.go:533-594 | the same equation for every supervisor that takes control messages, at its loops and while it drains, in every run with distinct names in which no failed spawn drained the exit of a started child |
| Conservation.NoOrphansExactly | internal/s/one_for_one.go:26-34 | at any loop head before its context is done the map of a static supervisor accounts for every live child if and only if no shutdown timer has fired and no notification of a failed start was ever read |
| Conservation.NoOrphansOfRunsExactly | internal/s/dyn_supervisor.go:41-147 | and for such a run the map accounts for every live child if and only if no shutdown timer has fired and no notification of a failed start was read by the loop |
| Conservation.StartRecordsAllExactly | internal/s/monitor.go:301-338 | a successful start records every child it started if and only if the names are distinct |
| Conservation.StaticNames | internal/s/monitor.go:582-593 | without control messages names stay distinct for ever |
| Retirement.MapIsSpecsMinusRetired | internal/s/monitor.go:114-130 | under one-for-one, static or dynamic, a listed spec has an entry in the map if and only if no incarnation of it ended for good in front of the loop, and every entry is of a listed spec |
| Retirement.RetiredNeverReturns | internal/s/monitor.go:152-157 | a retired child stays in the spec list and never has an entry again |
| Retirement.TemporaryStartsOnce | internal/s/monitor.go:126-129 | a temporary child of a static one-for-one supervisor starts at most once in the supervisor's whole life, to its end, whatever accidents happen |
| Closing.ErrorsExactly | internal/s/monitor.go:397-405 | the keys of the error map are exactly the children that failed to stop |
| Closing.ShutdownReport | internal/s/monitor.go:412-474 | for every oracle, timers included, a shutdown reports the exits of the children that answer in the exact reverse of the spec start order, each with the error with which its goroutine ended or the timeout, and runs the cleanup once and last; the error map that it returns holds exactly the children whose goroutine ended with an error or whose timer fired, with those errors, beside the cleanup error; it returns nil if and only if there is none of them and no restart error |
| Closing.RunShutsDownInOrder | internal/s/monitor.go:533-581 | the same for every reachable state of every run with distinct names that finishes, by its context or by giving up; the restart error names the child, the tolerance and the failure not tolerated; without accidents those that answer are exactly the survivors |
| Closing.DoneContextFinishes | internal/s/monitor.go:533-545 | in every run a supervisor at its loop is finished at the next step if and only if its select takes the shutdown case and its context is done by then, whatever children it has, and with no restart error |
| RestartLoop.IterationSpends | internal/s/monitor.go:57-72 | with a zero window an iteration entered with an error spends one unit of tolerance, or gives up when none is left |
| RestartLoop.LoopEndsAfterError | internal/s/monitor.go:57-95 | with a zero window the loop is left after at most max - count restart attempts, and giving up means the counter is at max |
| RestartLoop.LoopEndsAfterCompletion | internal/s/monitor.go:159-168 | entered without an error it may try once more |
| LoopEnds.BoundedLeaves | internal/s/monitor.go:57-95 | with max below the top of uint32 and a zero window every run in its restart loop leaves it at a later step, whatever the environment |
| LoopEnds.LoopMayNeverEnd | internal/s/monitor.go:57-95 | for every other tolerance, both strategies and every backoff, some environment with a clock that never goes back keeps a supervisor in its restart loop for ever |
| LoopEnds.RestartLoopsEndExactly | internal/s/monitor.go:57-95 | every restart loop of every run ends if and only if max is below the top of uint32 and the window is zero |
| LoopEnds.ZeroToleranceLeaves | internal/s/monitor.go:57-72 | with max 0 and a positive window every run in its restart loop leaves it, in an environment where no window closes between two readings of one call |
| RestartLoop.ManagerFollows | internal/s/monitor.go:58-72 | in every run the supervisor's manager is the manager of the tolerance theory fed with the failures reported so far, each with the readings of its call, in the order of the clock |
| RestartLoop.GivingUpIsJustified | internal/s/monitor.go:58-72 | a supervisor with a positive window that gives up in any run does so because its last max + 1 failures lie within less than the window, and it reports the first of them as the source; with max 0 that is the last failure, or the one before it that reset the window |
| Waits.WaitsFollowWindows | internal/s/monitor.go:57-81 | in every run whose products fit, each iteration of the restart loop either gives up or waits exactly base doubled once per failure since the window of the last one opened, over all failures of the run so far, capped at max, and not at all before the first |
| Environment.CalmAlways | internal/c/start.go:47-58 | where no timer fires and no start fails no accident ever happens |
| Environment.CalmRunsAreGood | internal/s/monitor.go:490-595 | in such an environment the ledger balances in every state of every run |
| Counterexamples.FailedRestartCrashes | internal/s/one_for_one.go:24-34 | a run in which one failed start during a restart makes a static supervisor lose a live child and later panic |
| Counterexamples.TimeoutLosesChild | internal/c/start.go:56-57 | a run in which one shutdown timeout during a one-for-all restart leaves an old incarnation alive beside the new one |
| Counterexamples.ReusedNameCrashes | internal/s/dyn_supervisor.go:79-80 | a run in which spawning the name of an ended temporary child again makes its termination panic the supervisor |
| Counterexamples.NilMapCrashes | internal/s/dyn_supervisor.go:79-80 | a run without accidents and with distinct names in which a dynamic one-for-all supervisor panics by writing into its nil map |
| Counterexamples.DrainLosesChild | internal/s/dyn_supervisor.go:61 | a run in which a failed spawn drains the exit of a live permanent child, which stays in the map dead, and the leftover notification of the failed start then panics the supervisor |
| Draining.DrainIsGoodExactly | internal/s/dyn_supervisor.go:61 | the drain keeps the ledger invariant if and only if what it reads is the notification of a failed start, or of a subtree that completed without an error, whose exit is never reported |
| Draining.DrainedChildNeverReturns | internal/s/dyn_supervisor.go:61 | a started child whose exit a failed spawn has drained, while no failed start of its name has left a goroutine behind, keeps its entry, and no one-for-one supervisor starts its name again in any later state unless a control message names it, whatever its restart policy |
| Draining.DrainsForEverExactly | internal/s/dyn_supervisor.go:61 | a draining supervisor takes a notification as soon as any goroutine offers one, so it waits for ever if and only if none is on offer and no goroutine of its that still runs ever ends; the context plays no part |
| Draining.DoneIsIgnoredWhileDraining | internal/s/dyn_supervisor.go:61 | a supervisor whose spawn failed and whose goroutine lingers never stops after its context is done |
| Dynamic.StopEdits | internal/s/dyn_supervisor.go:104-147 | terminating a child by name removes exactly its spec, and an unknown name removes none |
| Dynamic.StepEdits | internal/s/dyn_supervisor.go:41-147 | every step edits the spec list only by appending one spec or filtering out one name, in order |
| Dynamic.SpecsKeepSpawnOrder | internal/s/dyn_supervisor.go:76-79 | in every run with distinct names, under both strategies and whatever accidents happen, the spec list is in spawn order |
| Dynamic.SpecsAndChildrenAgreeExactly | internal/s/dyn_supervisor.go:41-147 | in every run of a one-for-one supervisor that takes control messages the map keys are the listed spec names if and only if no listed child has retired |
| Dynamic.SpecsAndChildrenAgree | internal/s/dyn_supervisor.go:41-147 | in particular when every listed child is permanent |
| Turns.LaunchSucceedsExactly | internal/s/monitor.go:292-339 | a group of children starts if and only if no start of it fails; then each has its own incarnation, in start order, and its entry, and only their starts are reported |
| Turns.LaunchBreaksOff | internal/s/monitor.go:301-338 | otherwise it breaks off at the first child whose start fails: the error names that child, carries its cause and the errors of the rollback, and the rollback stops those that had started as any group stop does, in the stopping order |
| Turns.EntriesExactly | internal/s/monitor.go:335 | with distinct names each started child has one entry, with its own incarnation number |
| Turns.StartsExactly | internal/s/monitor.go:505-530 | a supervisor reaches its loop if and only if no child fails to start; its trace is then the starts of its children in start order, and after them its own |
| Turns.OwnEventsOnce | internal/s/monitor.go:412-474 | in every run, accidents included, a supervisor that has started has reported its own start exactly once and one whose start was rolled back never does; the cleanup runs exactly once, when the supervisor finishes, as its last act |
| Turns.NotificationsAreHandled | internal/s/monitor.go:98-206 | a notification that the loop takes carries the error of the goroutine that offers it; the child recorded under its name is reported with it and restarted, or forgotten, by its policy; an unknown name panics |
| Turns.SpawnsAreHandled | internal/s/dyn_supervisor.go:41-93 | a spawn that the loop takes starts one goroutine; the spec list and the map gain the child, or nothing if the start fails, in which case the loop drains |
| Turns.StopsAreHandled | internal/s/dyn_supervisor.go:104-147 | a termination that the loop takes stops that child alone and removes its spec and its entry; an unknown name changes nothing |
| Turns.OneForOneAttempt | internal/s/one_for_one.go:10-44 | an iteration of the restart loop gives up, or is cut short in its wait by a done context with nobody restarted, or starts one incarnation of that child; if that fails the next iteration is about its error |
| Turns.OneForAllAttempt | internal/s/one_for_all.go:8-32 | under one-for-all it stops the live siblings, as any group stop does, and starts all children; that succeeds if and only if no start fails, and otherwise the next iteration is about an error that names the failing child and its cause |
| Trees.StartIsPostOrder | internal/s/monitor.go:292-339 | a start that succeeds reports every process of the tree as started, in post-order of the start orders, and nothing else |
| Trees.StopIsMirrorPostOrder | internal/s/monitor.go:372-408 | stopping a whole tree reports one exit per process, in post-order of the mirror image, whatever fails on the way |
| Trees.ExitsFailExactly | internal/s/monitor.go:343-474 | every process of a tree that exits, when the tree stops or a failed start is rolled back, is reported as failed if and only if it or one of its descendants fails by itself, a supervisor by its cleanup included |
| Trees.EachProcessOnce | internal/s/subtree.go:21-81 | with distinct sibling names each process appears once |
| Trees.CleanLife | internal/s/root.go:60-190 | both traces of a clean life, over any finite tree and any mix of orders: post-order, mirror post-order, the same processes, each once |
| Trees.StartKidsRollback | internal/s/monitor.go:301-338 | at the first failing sibling the rollback stops exactly the earlier ones, in reverse |
| Trees.WholeTreeStart | internal/s/subtree.go:21-81 | what the parent of any subtree sees, whatever fails in it: all started, or rolled back with the culprit's chain blamed |
| Trees.FailedStartRollsBack | internal/s/root.go:109-190 | the start of a tree fails if and only if some process on the way fails by itself; then a prefix of the post-order had started, nothing starts afterwards, exactly those processes exit, and StartFailed is reported by exactly the culprit and its ancestors up to the root, in that order |
| Siblings.StopRefines | internal/s/monitor.go:372-408 | for every oracle, stopping siblings whose exits nobody has taken reports what the tree model says, event by event, and the error map names exactly those that fail |
| Siblings.StartRefines | internal/s/monitor.go:292-339 | for every oracle, starting siblings with distinct names, and rolling back, reports what the tree model says of the outcomes that came up, and fails if and only if the tree model does |
| Siblings.EngineReportsItsPart | internal/s/monitor.go:292-339 | for every oracle and all subtrees whose outcomes it plays, what a supervisor reports while its children start is exactly its own part of the trace of the whole tree |
| RuntimeNames.SplitTellsPathExactly | internal/s/root.go:28-37 | splitting a runtime name at its slashes returns the path of its process if and only if no name on the path holds a slash |
| RuntimeNames.SameNameExactly | internal/c/start.go:119 | two processes share a runtime name if and only if the names on their paths have the same pieces between slashes, in order |
| RuntimeNames.NamesAreInjective | internal/c/start.go:119 | without slashes two processes have the same runtime name if and only if they are the same |
| RuntimeNames.SlashMakesNamesCollide | internal/c/new.go:80-83 | only the empty name is refused, so two different processes can share a name |
| RuntimeNames.EventNamesIdentifyProcesses | internal/s/monitor.go:269-280 | in a clean start of a whole tree every runtime name occurs once |
| Notifier.ReliableNotifier.Broadcast | internal/n/reliable_notifier.go:93-106 | one round of the listener, with everybody else moving in between: up to the first timeout callback that panics every notifier takes the event once, or misses it, and misses it only if its timer fires first or its buffer was full when the round began; if nobody else moves, it takes the event if and only if its timer does not fire and there is room or a worker waiting; a panic breaks the listener, and the notifiers after it in the range are skipped |
| Notifier.ReliableNotifier.OthersMove | internal/n/reliable_notifier.go:44-58 | what callers and notifiers do meanwhile never touches the listener nor what became of earlier events |
| Notifier.ConservationAlways | internal/n/reliable_notifier.go:39-109 | in every interleaving, for every notifier, taken followed by buffered is exactly the accepted part of the events read, and the buffer is within its capacity |
| Notifier.EntrypointKeepsOrder | internal/n/reliable_notifier.go:218-220 | events are read in the order in which they were emitted |
| Notifier.FanOutConserves | internal/n/reliable_notifier.go:39-109 | between rounds every event read was offered once to every notifier; taken followed by buffered is an in-order subsequence of the events read, at exactly the accepted positions; accepted and missed ones add up |
| Notifier.LosslessExactly | internal/n/reliable_notifier.go:94-106 | a notifier has lost nothing if and only if its timer never fired first and the listener never broke down in its turn |
| Notifier.ListenerAlwaysFinishes | internal/n/reliable_notifier.go:94-106 | even with all channels full and all workers down the listener can end its round by itself |
| Notifier.NotifierAlwaysDrains | internal/n/reliable_notifier.go:39-58 | from every state a notifier that is served empties its channel by its own moves alone, and takes exactly what the buffer held, in that order |
| Notifier.OneCallAtATime | internal/n/reliable_notifier.go:39-58 | in every interleaving a notifier is called once for each event that it took, one call at a time; its worker is down from the start, a panic or a stop until it is started again, once, and so is the listener after a timeout callback that panics |
| Notifier.NotifiersAreIsolated | internal/n/reliable_notifier.go:39-109 | for every run and every notifier there is a run in which that notifier is dead from the start and everything else comes out the same: the events read, the listener, and what every other notifier took, holds and missed |
| Matcher.VerifyPartialMatch | smtest/asserters.go:68-89 | the loop returns what the greedy scan leaves unmatched |
| Matcher.UnmatchedIsSuffix | smtest/asserters.go:65-67 | that is a suffix of the predicates |
| Matcher.GreedyMatches | smtest/asserters.go:68-89 | the matched prefix has a strictly increasing choice of event positions |
| Matcher.NoChoiceDoesBetter | smtest/asserters.go:68-89 | no increasing choice matches a longer prefix |
| Matcher.GreedyIsOptimal | smtest/asserters.go:68-89 | the result is empty if and only if some increasing choice satisfies all predicates in order; otherwise it is the shortest suffix that any choice could leave |
| Matcher.MatchingResumes | smtest/asserters.go:68-89 | matching a history in two parts gives the same result as matching it at once |
| Matcher.VerifyExactMatch | smtest/asserters.go:20-41 | accepts if and only if the lengths agree and each predicate accepts the event at its own position |
| Matcher.EventManager.StoreEvent | smtest/event_manager.go:56-61 | the buffer only grows, at its end |
| Matcher.EventManager.GetEventIx | smtest/event_manager.go:175-202 | however many events arrive before or during the wait, the answer is the event at that index of the whole history, and it waits for ever exactly when there is none |
| Matcher.EventIterator.Foldl | smtest/event_manager.go:112-137 | the blocking fold computes the fold of the history from its index, independently of when events arrive |
| Matcher.EventIterator.WaitTill | smtest/event_manager.go:141-148 | stops just after the first match at or after the index and waits exactly when there is none |
| Matcher.EventIterator.TakeTill | smtest/event_manager.go:152-162 | returns exactly the events from the index up to the first match, which it consumes |
| Matcher.EventIterator.WaitTillEach | internal/s/permanent_one_for_all_test.go:39-51 | one wait after the other on one iterator gets through if and only if the partial matcher leaves nothing over the same events, and then stands just after the last match |
| Matcher.ChainAgreesWithMatcher | smtest/event_manager.go:141-148 | the chain of waits over a finished history gets through if and only if the partial matcher leaves nothing |
| Matcher.ChainStopsAtOnce | smtest/event_manager.go:141-148 | and it has then read the shortest history over which the matcher leaves nothing |

## Left out

- Trees.FailedStartRollsBack: trees are modelled on values, one outcome per process, so children that end by
  themselves during the start of their siblings, and restarts inside a tree, are left to the single-supervisor
  theorems; `Siblings` ties the two.
- Monitor.Supervisor.DoStart: the goroutine it spawns, its start channel and its derived context are one choice of the
  oracle; `Lifecycle` models them step by step.
- Monitor.Supervisor.ExecRestartLoop: takes a bound on its iterations, because the loop of the source may run for
  ever (`LoopMayNeverEnd`); the state machine has no bound.
- Monitor.Supervisor.RunMonitorLoop: takes a bound on its turns, because the loop of the source ends only with its
  context or by giving up.
- Runs.StepIsGood: assumes distinct names and no accident; `Counterexamples` shows that it needs both.
- Operations.StopAll: assumes that no shutdown timer fires; `StopReports` and `StopFailsExactly` say what happens then.
- Lifecycle.FirstTerminationMayFail: one witness; `FirstTerminationFailsExactly` gives the exact condition.
- Draining.DrainedChildNeverReturns: under one-for-all the next failure of a sibling restarts the lost child as well, and
  the leftover notification of a failed start of its name, once read by the loop, does so under one-for-one.
- Conservation.LawOfRuns: a drained exit leaves a dead entry in the map, which the equation does not count.
- Hierarchy.NobodyOutlivesTheRoot: the runs of a tree are tied together by the ends of their goroutines (`Matches`), not
  by a common clock.
- Notifier.FanOutConserves: channels and `select` are atomic steps; two callers that block at the same time on the
  entrypoint are served in the order of their sends.
- Panics with capture disabled: they end the whole program.
- Resource cleanup after a failed start: the source does not call it, and nothing is claimed for it.
- Concurrent Wait and Terminate on one root supervisor, and its cached final error: callers are sequential, and the
  sequential case only adds easy members.
- Client-side timeouts of the dynamic supervisor's API: only the messages that the supervisor goroutine
  processes are modelled.
- The wiring of dynamic subtrees: its behaviour follows from one-for-all and the control messages.
- The health monitor: a summary of the latest event per name, which would only add easy members.
- The done flag of the event manager: it is set on a copy of the struct and never observed.
- Error texts, event formatting, option setters, criteria combinators and re-exports.
