# rbox: models and proofs

rbox is a multi-call binary whose largest applets are an init (PID 1) and a shell. This project
models the parts of it that are algorithms rather than system calls, in Dafny, and proves what
they promise. `dafny verify dfyconfig.toml` checks everything. Paths below are relative to the
root of the repository.

## What is modelled

**Booting.** `Units` (start order by a depth-first search over the unit table), `Depths` (start
layers by repetition until nothing changes), `Boot` and `BootSafety` (the layered start with failure
propagation and late crash detection), `StartUnit` (the commands that start one unit and the
deadlines by which its thread can die), `DeadThread` (a boot in which that happens), `LateCrash`
(what late crashes do to a boot), `InitRun` (the whole of it, the rescue path and shutdown).
`Graphs` holds the graph notions they share. Iterating over a `HashMap` is an arbitrary choice
everywhere, and what `start_unit` returns and which services crash are arbitrary functions, so every
result holds for all of them. A start thread that panics is an outcome of its own: its result is
merged under an empty name and the unit gets no entry.

**Running.** `Services` is the state of one service instance and its transitions, with time as a
natural number in nanoseconds; `Lifecycle` and `RestartRate` are about whole runs of events and
`RestartPolicy` about which exit is followed by a restart; `Isolate` and `Control` are the control
requests on the vector of instances, `Afterwards` what they leave for later and `StopOrder` what
they do to the order of a shutdown; `PollTimeout` is how long the main loop sleeps. One iteration of
the main loop reads the clock and the shutdown flag once per instance, the poll timeout reads the
clock once, and a control request is one atomic step, as the lock makes it.

**Shell.** `ShellLines` and `Normalize` turn text into lines, `Readings` connects the tests that the
executor makes on a line with the reading that the other modules use, `Compound` has the tree of
nested commands, its meaning and the search for the end of a block, `Branches` the cutting of an
`if`, `CompoundExec` the executor on lines, `ShellRun` the way from text to execution, `BreakLevels`
and `ContinueLevels` the reach of `break N` and `continue N`, `FlowLevels` the number that such a
text stands for, `Quoting` what quotes hide and headers hold, `ShellLaws` loops and branches in
which nothing runs, and `Locals` functions and `local`. Running a simple command and expanding the
words of a `for` are arbitrary functions of everything that happened before. A while or until loop
may run for ever; both the executor and the tree interpreter take the number of rounds they may
still start, and agree at every such number.

**Codecs and parsers.** `TarHeader`, `TarArchive` and `TarFields` (ustar), `TestExpr` (the `test`
evaluator), `Glob`, `ProcessTree`.

Imperative code is modelled as methods and classes proved against functions on values, and the
main results are lemmas about those functions: `CompoundExec.Shell.ExecLines`, for example, is
shown to do what `Compound.RunCmds` says, which is defined on trees and knows nothing about exit
codes 200 and 201, loop levels or line numbers.

## Findings

- `compute_depths` takes `Requisite=` into account, `compute_start_order` does not. Two units that
  are each other's Requisite pass the cycle check, and then the layering loop never ends
  (`Depths.AcceptedOrderMayLoop`).
- Stopping a service leaves its restart time and daemonize deadline in place. Nothing is restarted
  (`Lifecycle.StopIsFinal`), but once such a deadline has passed the main loop polls with timeout 0
  until the next start or reset of that service (`PollTimeout.StoppedInstanceSpins`).
- `do_isolate` follows WantedBy back to any unit, the start order only to targets; a unit WantedBy a
  service is started by an isolate but not by a boot (`Isolate.WantedByServiceDiffers`). Exactly when
  the two agree is `Isolate.ClosureOrderedIff`.
- A start thread that panics leaves no entry, because its result is merged under an empty name. What
  requires the unit is started all the same, and the root can be reached
  (`DeadThread.DeadThreadGoesUnnoticed`). Adding a huge TimeoutStartSec to the current time is such a
  panic (src/applets/core/init/services.rs:642-644 and 782), and so is adding a huge TimeoutStopSec when
  an ExecStartPost has failed and the instance is stopped again (src/applets/core/init/mod.rs:625-626,
  src/applets/core/init/services.rs:941; `StartUnit.FailedPostKillsThread`). A start thread dies of its
  deadlines exactly if a command is reached and spawned whose deadline lies beyond the last instant, or
  one after the main command fails and a deadline of the stop lies there (`StartUnit.DiesIffLate`); then,
  and only then, a started unit gets no entry (`StartUnit.NoEntryIffLate`, `StartUnit.ReachedUnlessLate`).
  A process that such a start has spawned is not in the vector, so no shutdown stops it
  (`StartUnit.ListedUnlessLate`).
- Restarting a service whose name begins with "unknown" only stops it: the code looks for that word at
  the beginning of the stop's answer, where the name stands (`Control.UnknownIsNotRestarted`). A restart
  starts the instance again exactly if its name does not begin that way (`Control.RestartReplaces`).
- A service in its restart delay has no process, so a stop of what it is PartOf, a start that conflicts
  with it and an isolate all pass it by, and the main loop brings it back afterwards
  (`Afterwards.StopLeavesDelayed`, `Afterwards.StartLeavesDelayed`, `Afterwards.IsolateLeavesDelayed`).
  What these requests take down stays down over every later run without a start exactly if none of it
  was in its restart delay (`Afterwards.StopStaysDown`, `Afterwards.StartKeepsRivalsDown`,
  `Afterwards.IsolateKeepsOthersDown`).
- A start appends its unit to the vector that a shutdown stops in reverse. A dependency started after
  its dependent is stopped first (`StopOrder.LateDependencyStopsFirst`); the order of the boot is kept
  exactly as long as no request does that (`StopOrder.RequestsKeepOrder`).
- An instance started for a socket gets its child without waiting for it to daemonize, even if the
  service forks. It can become active by the exit of that child and have a tracked daemon after a
  later start, and then it still counts as running after its stop, exactly for forking services with
  a pid file, RemainAfterExit and KillMode=none (`Lifecycle.SocketSurvives`). Instances started in any
  other way never do (`Lifecycle.TypedNeverSurvives`).
- Starting a unit that has an instance looks neither at Conflicts nor at Requisite
  (`Control.StartAgainIgnoresConflicts`, `Control.StartAgainIgnoresRequisite`). Exactly when the conflicting
  units are down afterwards says `Control.StartClearsConflicts`, and exactly when inactive Requisites keep
  a process from being spawned `Control.StartAndRequisite`.
- `continue N` acts like `continue`: the sentinel carries no level and no loop consumes one, although
  the code stores N. `ContinueLevels.ContinueAgrees` says for which programs this is what POSIX asks
  for, and `ContinueLevels.TwoLoopsAgreeIff` exactly when it is for two nested loops.
- A child that exits between the checks of the main loop and the orphan reaper is collected by the reaper,
  which looks at no policy: even with Restart=always the service stays down until the next start
  (`RestartPolicy.ReapedStaysDown`, `RestartPolicy.ReaperDiffers`). A daemon's code in SuccessExitStatus
  is a failure to the reaper (`RestartPolicy.ReaperKnowsOnlyZero` says exactly when that matters). A child
  whose status is gone is said not to be restarted (src/applets/core/init/mod.rs:824), but it is, exactly
  with Restart=always or on-success (`RestartPolicy.LostRestartsIff`).
- A `for` header takes any text after the name that begins with "in" for the word `in`: `for x index` loops
  over `dex` (`Quoting.IndexLoops`). Exactly the longer words that begin that way are misread
  (`Quoting.InIsPrefix`).
- tar cuts names and links at 100 bytes and numbers at their field without an error
  (`TarHeader.BuiltHeaderReads` says exactly what is read back).
- An open bracket in a glob pattern is a set of all the characters up to the end of the pattern, for the
  last character of the text (`Glob.OpenBracketIsSet`); it does not stand for itself
  (`Glob.OpenBracketWitness`). The literal reading agrees with the matcher on all texts only if neither
  can match any, and exactly which patterns these are says `Glob.ReadingsAgreeIff`.

## Model

| member | source | states |
|---|---|---|
| Units.SortDeps | src/applets/core/init/units.rs:748-766 | The vector holds exactly the Requires, After and Wants of the unit and the loaded units whose Before or WantedBy names it, in whatever order the two passes meet the unit table |
| Units.Search.Visit | src/applets/core/init/units.rs:777-812 | One call of the three-colour visit keeps the colours, the caller path and the order list consistent, adds the name last if it is loaded, and fails only with a name that lies on a reachable cycle |
| Units.Search.Expand | src/applets/core/init/units.rs:777-812 | A name met for the first time: the dependencies are all done before the name itself is appended |
| Units.Search.VisitAll | src/applets/core/init/units.rs:777-812 | The loop over the dependencies finishes them all or reports a reachable cycle; the recursion ends because the set of unseen names shrinks |
| Units.ComputeStartOrder | src/applets/core/init/units.rs:770-819 | An error exactly if a cycle is reachable from the root; otherwise a list without duplicates of exactly the loaded units reachable from the root, each after all its loaded dependencies |
| Units.StartOrderAcyclic | src/applets/core/init/units.rs:770-819 | A start order exists only if no cycle is reachable, so the two outcomes exclude each other |
| Units.OrderFollowsKeys | src/applets/core/init/units.rs:748-766 | In a start order every unit stands after the loaded ones in its Requires, After and Wants and after those that name it in Before; a target also after those that are WantedBy it |
| Units.OnlyKeysOrder | src/applets/core/init/units.rs:748-766 | Between loaded units nothing else is a sorting dependency |
| Depths.DepthAbove | src/applets/core/init/mod.rs:477-482 | One more than the largest recorded depth among the dependencies, 0 if none is recorded |
| Depths.Pass | src/applets/core/init/mod.rs:469-487 | A pass settles every unit whose chains are one longer than before; a pass without change proves a fixpoint; a settled map is not changed |
| Depths.ComputeDepths | src/applets/core/init/mod.rs:466-493 | The loop is left only if the sorting dependencies plus Requisite are acyclic on the order, then with the longest chain length of every unit; if they are acyclic it is left after at most one pass more than there are units, however the order is sorted |
| Depths.StableIsLongest | src/applets/core/init/mod.rs:466-493 | Any fixpoint is the map of longest chains and the graph has no cycle: on a cycle no map is a fixpoint |
| Depths.AcceptedOrderMayLoop | src/applets/core/init/mod.rs:466-493 | A concrete table with two mutual Requisites is accepted by `compute_start_order`, and every start order of it makes `compute_depths` loop for ever |
| Depths.EarlierRequisitesTerminate | src/applets/core/init/mod.rs:466-493 | The loop does end when every Requisite in the order stands before the unit that names it |
| Boot.FailedRequiredDep | src/applets/core/init/mod.rs:450-458 | A result exactly if some Requires is recorded false, and then such a one |
| Boot.FailedRequisiteDep | src/applets/core/init/mod.rs:693-701 | A result exactly if some Requisite is not recorded true, and then such a one |
| Boot.CheckLayer | src/applets/core/init/mod.rs:139-184 | The units of the layer to start and the verdicts recorded for the others depend only on the entries of earlier layers |
| Boot.MergeResults | src/applets/core/init/mod.rs:204-215 | Entries and instances of the started units are merged in layer order; a start thread that died leaves no entry |
| Boot.DetectImmediateFailures | src/applets/core/init/mod.rs:638-687 | Exactly the watched children seen to exit are taken away and exactly the units of those that failed turn false; sweeping ends early only if no watched child is running |
| Boot.StartLayer | src/applets/core/init/mod.rs:135-225 | One round of the start loop is a step of the layer relation: verdicts, starts and merge, and late crashes exactly as the sweeps see them |
| Boot.StartAll | src/applets/core/init/mod.rs:134-225 | The whole loop is a complete run over all layers, each with its sweeps |
| Boot.LayeredIsRanked | src/applets/core/init/mod.rs:133-136 | A start order with longest-chain depths puts every dependency in an earlier layer |
| BootSafety.FalseIsFinal | src/applets/core/init/mod.rs:129-225 | Over every run `started_ok` never goes from false back to true |
| BootSafety.FailurePropagates | src/applets/core/init/mod.rs:139-183 | A unit that is false at the end of its layer forces false on everything that transitively requires it, from the end of that unit's layer on |
| BootSafety.RootIsDeepest | src/applets/core/init/mod.rs:133-136 | The root is strictly deeper than every other unit of the order, so it is alone in the last layer |
| BootSafety.RootReached | src/applets/core/init/mod.rs:144-160 | At the end of a complete run a loaded root target is recorded true exactly if none of its loaded Requires is finally false |
| BootSafety.FinishedUnitsAccounted | src/applets/core/init/mod.rs:135-225 | Every unit of a finished layer has an entry, or its start thread died |
| BootSafety.StartsOnce | src/applets/core/init/mod.rs:188-203 | No service is handed to `start_unit` twice |
| BootSafety.StartedExactly | src/applets/core/init/mod.rs:139-184 | A service has been handed to `start_unit` exactly if none of its Requires was recorded false and each Requisite was recorded true when its layer began |
| BootSafety.StartSafety | src/applets/core/init/mod.rs:139-203 | When a service is started, all its dependencies lie in earlier layers, every Requisite is recorded true, no loaded Requires is recorded false, and each of them is recorded true exactly if its start thread did not die |
| BootSafety.NoEntryIffDied | src/applets/core/init/mod.rs:199-215 | A unit of a finished layer has no entry exactly if it was started and its thread died |
| BootSafety.ReachedUnlessDied | src/applets/core/init/mod.rs:144-215 | Of the loaded Requires of a root target that is reached, exactly those are not recorded true whose start thread died |
| StartUnit.StartUnit | src/applets/core/init/mod.rs:543-632 | Conditions, ExecStartPre, the main command of a oneshot, forking or other service and ExecStartPost in turn, and the stop after a failed ExecStartPost: the outcome, a panic over any deadline included |
| StartUnit.StopInstance | src/applets/core/init/services.rs:912-1012 | Stopping an instance with a child panics exactly if the deadline of ExecStop, of the exit of the child or of some ExecStopPost lies beyond the last instant |
| StartUnit.RunCommandSync | src/applets/core/init/services.rs:775-798 | A command that cannot be spawned fails; a spawned one panics exactly if its deadline, at least a second away, lies beyond the last instant |
| StartUnit.DiesIffLate | src/applets/core/init/services.rs:642-644 | A start thread dies exactly if the conditions hold and some command is reached and spawned whose deadline lies beyond the last instant, or a command after the main one of a service that is no oneshot is reached and fails and a deadline of the stop lies there |
| StartUnit.DeadlinesInSeconds | src/applets/core/init/services.rs:782 | The deadlines of the commands of a start and of a stop lie TimeoutStartSec, TimeoutStopSec, at least one second, or five seconds ahead, on a clock of 2^63 seconds |
| StartUnit.SafeTimeoutNeverDies | src/applets/core/init/services.rs:782 | It never dies if TimeoutStartSec and, where an ExecStartPost can fail, TimeoutStopSec and the five seconds of ExecStop, counted from the latest reading of the clock, still end at a representable instant |
| StartUnit.FailedPostKillsThread | src/applets/core/init/mod.rs:623-628 | A plain service with TimeoutStartSec 10 and a failing ExecStartPost: no command has a late deadline, and the thread dies in the stop over TimeoutStopSec |
| StartUnit.OutcomeOfCommands | src/applets/core/init/mod.rs:543-632 | Of a start that comes to no late deadline: an instance exactly if all commands go well, nothing exactly if there is nothing to start, and a failure otherwise |
| StartUnit.NoEntryIffLate | src/applets/core/init/mod.rs:188-215 | A unit of a finished layer has no entry exactly if it was started and came to a deadline beyond the last instant, of a command or of the stop |
| StartUnit.ReachedUnlessLate | src/applets/core/init/mod.rs:144-215 | Of the loaded Requires of a root target that is reached, exactly those are not recorded true that were started and came to such a deadline |
| StartUnit.ListedUnlessLate | src/applets/core/init/mod.rs:204-215 | A supervised process spawned at boot is in the vector, or was stopped by `start_unit` itself, exactly if its start came to no such deadline |
| DeadThread.DeadThreadGoesUnnoticed | src/applets/core/init/mod.rs:188-215 | A concrete boot with a forking service whose TimeoutStartSec is too large: its thread dies, what requires it is started and the root target is reached; its process has been spawned and is not in the vector |
| LateCrash.LateCrashCounts | src/applets/core/init/mod.rs:216-224 | A plain service that a later layer requires and that the sweeps see running until they see it exit is recorded by how it exited: false from the end of its layer to the end of the run after a failure, true after a success |
| LateCrash.RunningKeepsEntry | src/applets/core/init/mod.rs:638-687 | One that no sweep sees to exit stays recorded true |
| LateCrash.OthersKeepEntry | src/applets/core/init/mod.rs:651-660 | A unit that forks, is restarted on failure or always, has no process, or is not required later keeps the entry that its checks and its start gave it, whatever the sweeps see |
| LateCrash.CrashMeansRescue | src/applets/core/init/mod.rs:216-239 | Such a crash of a service that the root target requires keeps the boot from its target |
| BootSafety.ServicesAfterDependencies | src/applets/core/init/mod.rs:204-215 | The vector that start-up leaves lists every service after all services it depends on, also through units that are not services |
| BootSafety.ListedIffSpawned | src/applets/core/init/mod.rs:204-215 | After any number of layers the vector holds exactly the units whose start was tried and brought an instance |
| BootSafety.ServicesAfterSortDeps | src/applets/core/init/mod.rs:204-215 | The order of the vector holds for the sorting dependencies of the whole table as well, on paths through units outside the boot's order too |
| InitRun.StopInReverse | src/applets/core/init/shutdown.rs:19-28 | The services stopped are a suffix of the vector in reverse, cut at the first stop for which the deadline has passed |
| InitRun.DependentsStoppedFirst | src/applets/core/init/shutdown.rs:19-28 | In a vector with dependents later, no service is stopped while one that depends on it is still to be stopped, wherever the deadline cuts |
| InitRun.StartOrRescue | src/applets/core/init/mod.rs:129-239 | After the run the main loop is entered exactly if the root is recorded true; otherwise all services are stopped in reverse |
| InitRun.Run | src/applets/core/init/mod.rs:115-239 | Start order, layers, start loop and rescue path composed: a dependency error exactly on a reachable cycle, otherwise a complete run on a correct layering |
| InitRun.MainLoopIffRequiresHold | src/applets/core/init/mod.rs:129-239 | A loaded root target gets to the main loop exactly if none of its loaded Requires is finally false; an unloaded root never does |
| InitRun.ShutdownIsSafe | src/applets/core/init/shutdown.rs:19-28 | For the vector of any run, stopping in reverse, even in part, never stops a service before one that depends on it |
| StopOrder.RequestNames | src/applets/core/init/server.rs:291-297 | Stops, restarts and refused or repeated starts keep the names in the vector; a start of a unit without an instance appends its name |
| StopOrder.RequestsKeepOrder | src/applets/core/init/server.rs:291-297 | Over every run of requests: each service stands after all it depends on at the end, exactly if it did at the beginning and no request appended a dependency of a unit listed before |
| StopOrder.ShutdownStaysSafe | src/applets/core/init/shutdown.rs:19-28 | After a boot and any requests that append no such dependency, stopping in reverse, even in part, never stops a service before one that depends on it: by the sorting dependencies of the whole table, units outside the boot's order included, and likewise by the layering dependencies of that order |
| StopOrder.LateDependencyStopsFirst | src/applets/core/init/server.rs:291-297 | Two services started by hand in the wrong order: the dependency is stopped first |
| Services.ServiceInstance.ScheduleRestart | src/applets/core/init/services.rs:803-843 | The whole new state after an exit: counter, window, restart time |
| Services.ServiceInstance.FinishDaemonize | src/applets/core/init/services.rs:651-673 | The child is given up for the pid in the pid file, the wait ends |
| Services.ServiceInstance.Respawn | src/applets/core/init/services.rs:847-872 | A new child replaces the tracked pid; a forking service waits again |
| Services.ServiceInstance.StopServiceInstance | src/applets/core/init/services.rs:912-1012 | No child and no tracked pid are left; `active` survives only for KillMode=none with a tracked daemon |
| Services.ServiceInstance.MainLoopStep | src/applets/core/init/mod.rs:776-862 | Reaping the child, the daemonize wait and the due restart in one iteration of the main loop |
| Services.ServiceInstance.Reap | src/applets/core/init/mod.rs:1190-1224 | A collected orphan ends the tracked daemon or the child it belongs to; whether one was hit |
| Services.ServiceInstance.StopRequest | src/applets/core/init/server.rs:439-444 | The instance is marked stopped and stopped if it runs; whether it did |
| Services.ServiceInstance.StartRequest | src/applets/core/init/server.rs:238-252 | A live instance is left alone, another is respawned with its counters reset |
| Services.ServiceInstance.ResetFailed | src/applets/core/init/server.rs:179-193 | Counter, window and pending restart are cleared, nothing else |
| Lifecycle.StepCoherent | src/applets/core/init/services.rs:803-872 | Every event keeps: at most one process known, a pending restart only without one, a daemonize wait only for forking services, and a zero counter exactly if no window is open |
| Lifecycle.OneProcessAtATime | src/applets/core/init/mod.rs:776-862 | From any coherent state a respawn happens only when the last process known is gone, over every run |
| Lifecycle.OneProcessFromStart | src/applets/core/init/mod.rs:776-862 | The same over every run from the start of an instance, however it was started: never two processes at a time |
| Lifecycle.StartedIsTyped | src/applets/core/init/services.rs:620-647 | A new instance of a forking service is not active and its child is awaited; of any other it has no tracked daemon |
| Lifecycle.TypedNeverSurvives | src/applets/core/init/services.rs:912-1012 | Such an instance keeps that form over every run and so stops counting as running when it is stopped |
| Lifecycle.SocketSurvives | src/applets/core/init/services.rs:507-512 | An instance started for a socket can come to outlive its stop exactly if its service forks with a pid file, RemainAfterExit and KillMode=none |
| Lifecycle.StopIsFinal | src/applets/core/init/server.rs:434-445 | After a stop request no scheduling, daemonize, reap or main-loop step brings a process back until an explicit start, whatever was pending |
| Lifecycle.StopKeepsDeadlines | src/applets/core/init/services.rs:912-1012 | Stopping does not clear a pending restart time or daemonize deadline: over every run without start or reset the wake-up times stay exactly those from before the stop |
| RestartPolicy.ExitIsFollowed | src/applets/core/init/services.rs:825-842 | The iteration that sees a child exit schedules a restart, RestartSec later, exactly if the policy asks for it after such an exit (always, on-failure with neither 0 nor a SuccessExitStatus, on-success with one of these), the failures of the window are within the burst, and the instance is neither stopped, shutting down nor active afterwards; with RestartSec 0 it is spawned at once |
| RestartPolicy.LostIsSuccess | src/applets/core/init/mod.rs:824-825 | A child whose status the orphan reaper has taken counts as a success |
| RestartPolicy.LostRestartsIff | src/applets/core/init/mod.rs:824-841 | So it is followed by a restart exactly if the policy is always or on-success, although the comment there says that none follows |
| RestartPolicy.DaemonExitIsFollowed | src/applets/core/init/mod.rs:1190-1224 | The exit of a tracked daemon is followed by the same rule |
| RestartPolicy.ReaperKnowsOnlyZero | src/applets/core/init/mod.rs:1200-1209 | The reaper counts the codes of SuccessExitStatus as failures; exactly when the restart of a daemon still is what the unit file asks for |
| RestartPolicy.ReapedChild | src/applets/core/init/mod.rs:1210-1221 | A child that the reaper collects is forgotten without a look at the policy, that of a daemonizing service is treated as the main loop treats it |
| RestartPolicy.ReapedStaysDown | src/applets/core/init/mod.rs:1210-1221 | The service of a collected child has no process in any later run without a start, exactly if it has no daemon to track |
| RestartPolicy.ReaperDiffers | src/applets/core/init/mod.rs:811-842 | The same exit seen by the main loop instead lets the service come back, exactly if the unit file asks for it |
| RestartPolicy.DaemonizeTimeoutIsFollowed | src/applets/core/init/mod.rs:781-806 | A parent still running at its daemonize deadline is given up as a failure, not before |
| RestartPolicy.DaemonizedIsTracked | src/applets/core/init/services.rs:651-673 | One that exits before leaves the daemon of its pid file tracked |
| RestartPolicy.DueIsSpawned | src/applets/core/init/mod.rs:846-862 | A restart that is due spawns the command and keeps the counter; one that is not due changes nothing |
| RestartPolicy.BurstIsExact | src/applets/core/init/services.rs:803-843 | Each of the first StartLimitBurst failures of a window is followed by a restart, and the next one in the window by none |
| RestartPolicy.ResetForgets | src/applets/core/init/server.rs:179-193 | A reset forgets the failures and a pending restart and nothing else, so the next failure is the first |
| RestartPolicy.StartSpawnsAnew | src/applets/core/init/server.rs:238-252 | A start leaves an instance with a process alone; any other gets a new one, its whole allowance and, if it forks, its daemonize deadline |
| RestartPolicy.Beginnings | src/applets/core/init/services.rs:620-647 | How a new instance begins: a forking one waits for its daemon, a oneshot has no process and is active by RemainAfterExit |
| RestartRate.ScheduledIsComplete | src/applets/core/init/services.rs:826-842 | A restart time appears only through the events that the rate counts, RestartSec after the exit |
| RestartRate.CounterStep | src/applets/core/init/services.rs:803-825 | The exits seen determine the counter and its window; respawns and waits do not touch them |
| RestartRate.AllowancePays | src/applets/core/init/services.rs:803-843 | Each scheduled restart is paid for by the open window or by one of the windows that still fit in the span |
| RestartRate.RestartRateBound | src/applets/core/init/services.rs:803-843 | With failing exits only, a span shorter than n + 1 intervals schedules at most StartLimitBurst times n + 2 restarts |
| RestartRate.RestartRateQuotient | src/applets/core/init/services.rs:803-843 | At most StartLimitBurst times (span / interval + 2) restarts are scheduled in any span, over every run of failing exits without start or reset |
| RestartRate.RestartRateFromStart | src/applets/core/init/services.rs:803-843 | The same for an instance however it was started and whatever happened to it before |
| Isolate.PulledIn | src/applets/core/init/server.rs:370-381 | The names pushed for one popped name are exactly its Requires and Wants and the units WantedBy it |
| Isolate.Closure | src/applets/core/init/server.rs:363-382 | The worklist ends with exactly the names reachable from the target, the least set that contains it and is closed |
| Isolate.ClosureKeys | src/applets/core/init/server.rs:370-381 | The closure follows Requires and Wants of loaded units and WantedBy back to any, and nothing else |
| Isolate.ClosureOrderedIff | src/applets/core/init/server.rs:363-382 | The loaded units of the closure lie within the start order of the same target exactly if the order contains, for other reasons, every loaded unit that is WantedBy a member of the closure which is no loaded target |
| Isolate.IsolatedAreOrdered | src/applets/core/init/server.rs:363-382 | Corollary: if WantedBy names loaded targets only, every loaded unit of the closure is in the start order of the same target |
| Isolate.WantedByServiceDiffers | src/applets/core/init/server.rs:375-381 | A concrete table in which a service is WantedBy another service: isolating pulls it in, booting does not order it |
| Control.Manager.DoStopOne | src/applets/core/init/server.rs:434-445 | The first instance with the name, and no other, becomes the stopped one; the answer |
| Control.Manager.DoStop | src/applets/core/init/server.rs:417-432 | The instance and then the running instances that are PartOf it are stopped; the answer |
| Control.Manager.DoStart | src/applets/core/init/server.rs:233-306 | The refusals in order, the conflicts stopped first, the instance added or respawned: the new vector and the answer |
| Control.Manager.DoRestart | src/applets/core/init/server.rs:194-201 | A stop, then a start unless the text of the stop's answer begins with "unknown": the new vector and the answer |
| Control.LooksUnknownIff | src/applets/core/init/server.rs:194-201 | That text begins so exactly if there is no instance of the name or the name itself begins with "unknown", whatever further lines follow |
| Control.StopLinkedExact | src/applets/core/init/server.rs:417-432 | With unique names a stop stops exactly the named instance and the running ones that are PartOf it |
| Control.StartClearsConflicts | src/applets/core/init/server.rs:238-290 | After a start no conflicting unit has a process, exactly if the unit had no instance yet or no conflicting unit had one before |
| Control.StartAgainIgnoresConflicts | src/applets/core/init/server.rs:238-252 | A concrete vector in which starting an existing instance leaves it running beside a conflicting one |
| Control.StartAndRequisite | src/applets/core/init/server.rs:238-272 | A start that nothing else prevents spawns a process exactly if the unit has an instance already or all its Requisites run; otherwise nothing changes |
| Control.StartSpawnsIff | src/applets/core/init/server.rs:238-306 | A start gives a unit without a process one exactly if the spawn succeeds and it has an instance or is a loaded service with an ExecStart whose conditions hold and whose Requisites run |
| Control.AnswersOfStart | src/applets/core/init/server.rs:238-306 | Which answer names which obstacle |
| Control.AnswersOfStop | src/applets/core/init/server.rs:434-445 | The answer to a stop says whether there is such an instance and whether it ran |
| Control.StartAgainIgnoresRequisite | src/applets/core/init/server.rs:238-252 | A concrete vector in which starting an existing instance spawns it while its Requisite does not run; without the instance the same start is refused |
| Control.RestartReplaces | src/applets/core/init/server.rs:194-201 | A restart starts an existing instance again exactly if its name does not begin with "unknown", and then it knows exactly the new process with its counters reset; otherwise it has none; every other instance was at most stopped |
| Control.UnknownIsNotRestarted | src/applets/core/init/server.rs:194-201 | Restarting a running service whose name begins with "unknown" ends its process and starts none |
| Control.Manager.DoIsolate | src/applets/core/init/server.rs:352-413 | The answers of the error paths; otherwise the stops and then one start for each unit of the closure to start, in an arbitrary order |
| Control.IsolateStarts | src/applets/core/init/server.rs:396-410 | Isolating starts, once each, exactly the loaded services of the closure with an ExecStart that do not run after the stops |
| Control.IsolateBringsUp | src/applets/core/init/server.rs:396-410 | When its turn comes such a unit has no process, and its start gives it one exactly if the spawn succeeds and it has an instance or its conditions hold and its Requisites run |
| Control.StopsExact | src/applets/core/init/server.rs:384-394 | With unique names exactly the running instances outside the closure are stopped, and none of them keeps a process |
| Control.IsolateQuiets | src/applets/core/init/server.rs:383-410 | At every point of an isolate nothing outside the closure has become running, through conflicts and PartOf links as well |
| Control.RequestsKeepTyped | src/applets/core/init/server.rs:233-445 | Stop and start requests keep every instance in the form that start-up, triggers and requests give it |
| Control.IsolateSurvivors | src/applets/core/init/server.rs:352-413 | Whatever the instances, what still counts as running after an isolate is pulled in by the target or outlived its stop without a process |
| Control.IsolateIsolates | src/applets/core/init/server.rs:352-413 | After an isolate every running instance is pulled in by the target, given unique names and instances as start-up, triggers and requests create them |
| Afterwards.StaysDownIff | src/applets/core/init/mod.rs:846-861 | Over every run without a start an instance has no process exactly if it has none now and no restart is pending that a stop has not forbidden |
| Afterwards.StopStaysDown | src/applets/core/init/server.rs:417-432 | A stop takes the instance and all that is PartOf it down for good exactly if none of the latter was in its restart delay |
| Afterwards.RunSettled | src/applets/core/init/services.rs:803-872 | Over every run an instance keeps the form of its service type, and while it is active no restart is pending |
| Afterwards.SettledFromStart | src/applets/core/init/services.rs:620-647 | So does every instance from its start on |
| Afterwards.StartKeepsRivalsDown | src/applets/core/init/server.rs:238-290 | After a start no conflicting unit has a process or ever gets one without being started, exactly if the conflicts were looked at or none had one, and none was in its restart delay |
| Afterwards.IsolateKeepsOthersDown | src/applets/core/init/server.rs:383-410 | After an isolate nothing outside the closure has a process or ever gets one without being started, exactly if nothing outside was in its restart delay |
| Afterwards.StopLeavesDelayed | src/applets/core/init/server.rs:417-432 | A failed service waiting for its restart, PartOf what is stopped, is left as it is and comes back |
| Afterwards.StartLeavesDelayed | src/applets/core/init/server.rs:278-290 | Starting its rival leaves it as it is, and then both run |
| Afterwards.IsolateLeavesDelayed | src/applets/core/init/server.rs:383-394 | Isolating to a target that does not pull it in leaves it as it is, and it comes back |
| PollTimeout.ComputeNextTimeout | src/applets/core/init/mod.rs:704-729 | Exactly the milliseconds to the earliest restart or daemonize deadline, clamped, -1 exactly if there is none |
| PollTimeout.LimitByTimers | src/applets/core/init/mod.rs:1004-1014 | Taking in the timers keeps the timeout exact |
| PollTimeout.WatchdogIsExact | src/applets/core/init/watchdog.rs:32-52 | Taking in the watchdog keeps the timeout exact |
| PollTimeout.NextPollTimeout | src/applets/core/init/mod.rs:1003-1027 | The composed timeout is exact for restart, daemonize, timer, path-poll and watchdog deadlines together |
| PollTimeout.NothingOverslept | src/applets/core/init/mod.rs:1003-1027 | Sleeping for an exact timeout never passes a deadline by a whole millisecond, and a deadline that is due makes it 0 |
| PollTimeout.NotWokenEarly | src/applets/core/init/mod.rs:1003-1027 | Up to the limit of the argument of `poll` the sleep ends within the millisecond before the earliest deadline |
| PollTimeout.PathsEverySecond | src/applets/core/init/mod.rs:1003-1027 | While paths are watched the sleep is never longer than a second |
| PollTimeout.StoppedInstanceSpins | src/applets/core/init/mod.rs:704-729 | An instance stopped with a pending deadline makes every later poll return at once after that deadline, over every run without start or reset |
| PollTimeout.SpinsFromStart | src/applets/core/init/mod.rs:704-729 | The same for every instance from its start on, whatever happened before the stop |
| PollTimeout.FailThenStopSpins | src/applets/core/init/mod.rs:704-729 | It happens: a service with Restart=always fails, is stopped before its restart is due, and the poll timeout is 0 from then on |
| ShellLines.SplitSemicolons | src/applets/core/shell/compound.rs:83-149 | The loop computes the specification of the split |
| ShellLines.JoinUndoesSplit | src/applets/core/shell/compound.rs:83-149 | Putting the semicolons back gives the line again |
| Quoting.SemicolonsSeparate | src/applets/core/shell/compound.rs:83-149 | A semicolon within single or double quotes separates nothing, one outside ends the part before it, and `;;` is a part of its own |
| Quoting.ForHeader | src/applets/core/shell/compound.rs:455-480 | `for NAME in WORDS` is read as a block with that name and all those words |
| Quoting.ForHeaderAlone | src/applets/core/shell/compound.rs:455-480 | Without `in` the header has no words |
| Quoting.InIsPrefix | src/applets/core/shell/compound.rs:458-461 | A word after the name that only begins with `in` is taken for it; this agrees with asking for the word `in` exactly if it is not a longer word that begins that way |
| Quoting.IndexLoops | src/applets/core/shell/compound.rs:458-461 | `for x index` loops over `dex` |
| Quoting.BlocksByWord | src/applets/core/shell/compound.rs:61-66 | `if`, `case`, `while` and `until` open each its own block with the rest of the line |
| Normalize.NormalizeText | src/applets/core/shell/compound.rs:204-236 | The nested loops compute the specification of `normalize` |
| Normalize.NormalizedTrimmed | src/applets/core/shell/compound.rs:204-236 | Every line that comes out is trimmed and not empty |
| Normalize.CaseHeadSplits | src/applets/core/shell/compound.rs:180-201 | `case WORD in REST` becomes the line `case WORD in` and the line REST |
| Normalize.StripIff | src/applets/core/shell/compound.rs:165-176 | A keyword can be stripped off a trimmed line exactly if it is its first word |
| Normalize.OneLineSplits | src/applets/core/shell/compound.rs:204-236 | Canonical lines printed on one line with semicolons are found again |
| Normalize.NormalizeUndoesPrinting | src/applets/core/shell/compound.rs:204-236 | However canonical lines are spread over lines of text, `normalize` yields the same list |
| Readings.FlowTests | src/applets/core/shell/compound.rs:276-311 | The tests for return, break and continue on a line agree with its reading |
| FlowLevels.LevelOfNumeral | src/applets/core/shell/compound.rs:285-306 | In `break W` and `continue W` a numeral W, signs and leading zeros and blanks aside, is the level; a zero or a number of more than 64 bits means 1, and further words do not count |
| FlowLevels.LevelOfDecimal | src/applets/core/shell/compound.rs:285-306 | In particular for a number printed in decimal |
| FlowLevels.NumeralForm | src/applets/core/shell/compound.rs:285-306 | Every numeral is a sign, zeros and such a decimal, so no other case is left |
| FlowLevels.LevelOfOtherWord | src/applets/core/shell/compound.rs:285-306 | A second word that is no numeral means level 1 |
| FlowLevels.LevelOfNothing | src/applets/core/shell/compound.rs:285-306 | So does a line without a second word |
| Readings.StartTests | src/applets/core/shell/compound.rs:61-66 | A line opens a block exactly if its first word is a block keyword, with that block and the rest of the line |
| Readings.CloserTests | src/applets/core/shell/compound.rs:251-258 | The comparisons with fi, done and esac agree with the reading |
| Readings.KeywordTests | src/applets/core/shell/compound.rs:356-406 | The comparisons with then, do and else agree with the reading |
| Readings.ElifTest | src/applets/core/shell/compound.rs:384 | On trimmed lines the elif test agrees with the reading |
| Readings.CmdsLinesFaithful | src/applets/core/shell/compound.rs:204-236 | If the commands, headers and conditions of a tree read as their texts do, so do all its lines, the keywords included |
| Readings.PrintedIsTree | src/applets/core/shell/compound.rs:204-236 | The text of any tree of nested if, for, while and until whose commands are canonical, printed with its lines grouped in any way, normalized and read, is the list of its lines |
| Readings.OneLineIsTree | src/applets/core/shell/compound.rs:204-236 | In particular if it is printed on one line with semicolons |
| Compound.FindBlockEnd | src/applets/core/shell/compound.rs:240-263 | The loop with its stack computes the specification of the scan and returns a line that closes the block |
| Compound.OwnEnd | src/applets/core/shell/compound.rs:240-263 | Started at the first line of any command, whatever follows it, the scan returns exactly that command's own last line |
| Branches.TakeCondition | src/applets/core/shell/compound.rs:354-360 | The condition is joined from the lines up to the first `then` or `do` |
| Branches.CutIf | src/applets/core/shell/compound.rs:369-431 | The cutting loop computes the specification of the cut, a syntax error included |
| Branches.CutIsTree | src/applets/core/shell/compound.rs:369-431 | Cutting the lines of an `if` tree by the depth counter gives exactly its branches, nested blocks kept whole |
| Branches.ArmListIsIf | src/applets/core/shell/compound.rs:433-452 | Trying the branches in turn is what the `if` tree means |
| CompoundExec.Shell.ConsumeLoopLevel | src/applets/core/shell/compound.rs:49-58 | Whether the break goes on outwards, and the level that is left |
| CompoundExec.Shell.AfterRound | src/applets/core/shell/compound.rs:503-517 | What a loop does with the code of its body is what the tree semantics does with the way the body ended |
| CompoundExec.Shell.ExecLines | src/applets/core/shell/compound.rs:266-348 | On the lines of any valid tree, at every fuel: the trace, the last exit code and the reported code are those of the tree interpreter, code 200 with level k exactly for a break out of k loops |
| CompoundExec.Shell.ExecOne | src/applets/core/shell/compound.rs:273-345 | One line or block of the loop; an unclosed block is error 2 with nothing run |
| CompoundExec.Shell.ExecIf | src/applets/core/shell/compound.rs:352-452 | An `if` block means its tree; each syntax error is code 2 with nothing run |
| CompoundExec.Shell.ExecFor | src/applets/core/shell/compound.rs:455-519 | A `for` block means its tree; a missing name or `do` is code 2 with nothing run |
| CompoundExec.Shell.ExecWhile | src/applets/core/shell/compound.rs:536-639 | A while or until block means its tree; a missing `do` or condition is code 2 with nothing run |
| CompoundExec.Shell.ExecuteBlock | src/applets/core/shell/compound.rs:722-746 | At the top level break and continue end the block with code 0 |
| ShellRun.ExecuteText | src/applets/core/shell/compound.rs:722-746 | From the text on: for any printing of any tree, normalizing, reading and executing it does what the tree means |
| ShellRun.BreakTextLeaves | src/applets/core/shell/compound.rs:285-306 | A run that comes to the text `break N` inside at least N loops leaves exactly N of them |
| ShellLaws.NothingTaken | src/applets/core/shell/compound.rs:433-639 | A loop without a round and an `if` without a branch to take have run their condition and nothing else, and end with code 0 |
| ShellLaws.OneBranchTaken | src/applets/core/shell/compound.rs:433-452 | The first branch is run after a condition with code 0, the `else` after any other |
| ShellLaws.ForSplits | src/applets/core/shell/compound.rs:496-519 | A `for` over two lists of words together goes through the first and then through the second |
| ShellLaws.ForOneWord | src/applets/core/shell/compound.rs:496-519 | Over one word it sets the variable and runs the body |
| BreakLevels.BreakPasses | src/applets/core/shell/compound.rs:49-58 | Wherever in a tree a run comes to `break N`, behind other commands, in any branch of an `if`, in any round of any loop: with fewer than N loops around it nothing that follows on the way runs, and the levels left over are passed on |
| BreakLevels.BreakLeavesExactly | src/applets/core/shell/compound.rs:49-58 | With N or more loops around it exactly N are left: what runs next is what follows the N-th loop in its list |
| BreakLevels.BreakHasRoute | src/applets/core/shell/compound.rs:49-58 | Conversely, whenever a run ends on its way out of loops it has come to a `break` with as many loops around it as are missing from its level |
| ContinueLevels.ContinueAgrees | src/applets/core/shell/compound.rs:297-306 | If every `continue` has level 1 or at most one loop around it, the executor means what POSIX means, for every program, state and fuel |
| ContinueLevels.TwoLoopsAgreeIff | src/applets/core/shell/compound.rs:297-306 | Two nested loops around `continue N` leave the trace that POSIX asks for exactly if N is at most 1, the inner loop has no second word or the outer one has none |
| Locals.Globals.PushLocal | src/applets/core/shell/functions.rs:63-68 | The name with its current value is recorded on top |
| Locals.Globals.PopLocalsTo | src/applets/core/shell/functions.rs:71-86 | The loop takes records back from the top down to the mark |
| Locals.Globals.LocalBuiltin | src/applets/core/shell/builtin.rs:1058-1073 | `local` records the old value and then sets the new one, if given |
| Locals.Globals.CallFunction | src/applets/core/shell/functions.rs:90-106 | Parameters and mark saved, body run, locals popped, parameters set back |
| Locals.CommandsMean | src/applets/core/shell/builtin.rs:1058-1073 | `local NAME=VALUE` gives the name that value for what follows, `local NAME` changes nothing, and other names stay |
| Locals.PopRestores | src/applets/core/shell/functions.rs:71-86 | Popping takes off exactly the records above the mark and gives every name in them the value kept by the first |
| Locals.CallKeepsStack | src/applets/core/shell/functions.rs:90-106 | After any call, nested calls included, stack and parameters are as before: no record below the mark is popped |
| Locals.CallRestores | src/applets/core/shell/functions.rs:90-106 | For any body a name made local in the frame gets the value it had at the frame's first `local`, every other name keeps what the body left |
| Locals.LocalFirstIsPrivate | src/applets/core/shell/functions.rs:90-106 | A name made local at the start of a function is not changed by calling it |
| TarHeader.WriteOctal | src/applets/file/tar.rs:106-115 | The field holds the last octal digits of the value and a NUL, the bytes around it stay |
| TarHeader.ReadOctalField | src/applets/file/tar.rs:118-128 | The loop computes the specification of reading a field |
| TarHeader.OctalRoundTrip | src/applets/file/tar.rs:106-128 | Reading a written field gives the value modulo the range of the field |
| TarHeader.BlanksSkipped | src/applets/file/tar.rs:118-128 | Blanks and NULs before, between and after the digits of a field are skipped |
| TarHeader.OthersEnd | src/applets/file/tar.rs:118-128 | Any other byte ends the number |
| TarHeader.PrefixedName | src/applets/file/tar.rs:189-200 | The name of a header with a prefix is the prefix, a slash and the name field |
| TarHeader.ChecksumFits | src/applets/file/tar.rs:157-161 | The sum of any header lies between 256 and six octal digits |
| TarHeader.BuildHeader | src/applets/file/tar.rs:132-163 | Every field of the block, the checksum over blanks included |
| TarHeader.BuiltHeaderReads | src/applets/file/tar.rs:132-213 | What is read back from any built header: numbers modulo their field, names cut at 100 bytes or at a NUL |
| TarHeader.HeaderRoundTrip | src/applets/file/tar.rs:132-213 | A header is read back unchanged exactly if names and links have at most 100 bytes and no NUL, ids are below 8^7 and the size is below 8^11 |
| TarHeader.SingleByteChangeIsNoticed | src/applets/file/tar.rs:183-190 | Changing any single byte outside the checksum field of any accepted header makes it a checksum error |
| TarArchive.ReadHeader | src/applets/file/tar.rs:166-213 | Whatever the reads return, the header read is that of the next 512 bytes; a clean end, a truncated and a bad header are told apart |
| TarArchive.SkipData | src/applets/file/tar.rs:326-338 | Exactly the padded size is skipped, or what is left of the input |
| TarArchive.ListArchive | src/applets/file/tar.rs:362-377 | The listing depends only on the bytes, not on how reads split them |
| TarArchive.ExtractArchive | src/applets/file/tar.rs:380-454 | What is extracted, and the error if any, depends only on the bytes, not on how reads split them |
| TarArchive.WriteEntry | src/applets/file/tar.rs:228-295 | One header, the data and NULs up to a whole block are appended |
| TarArchive.CreateArchive | src/applets/file/tar.rs:312-323 | The entries in order, then two blocks of NULs |
| TarArchive.ListRoundTrip | src/applets/file/tar.rs:312-377 | Listing an archive of entries within the limits gives the header of every entry in order |
| TarFields.ListedAsTheyWere | src/applets/file/tar.rs:228-295 | Listing an archive of entries that fit gives each with its path (a directory's ending in a slash), user, group, length, permission bits, link target and the type byte 5, 2 or 0 of its kind |
| TarFields.WrittenAtOffset | src/applets/file/tar.rs:239-295 | At the place of each entry, whole blocks after the ones before it, stand its mode, user, group, length, time, type byte and the magic, each in its own field, and behind the header its data |
| TarFields.TypeByteDecides | src/applets/file/tar.rs:397-452 | What extraction makes of a header by its type byte; a file needs its data, other types are an error |
| TarFields.SlashesDropped | src/applets/file/tar.rs:385 | All slashes at the end of a name, and nothing else, are dropped before it is placed |
| TarArchive.ExtractRoundTrip | src/applets/file/tar.rs:312-454 | Extracting an archive of entries within the limits makes every entry again with its data, link target and permission bits |
| TarArchive.ArchiveAligned | src/applets/file/tar.rs:283-292 | Every entry starts at a multiple of 512 |
| TestExpr.Parser.DoOr | src/applets/sys/test.rs:192-201 | The method with its position field computes the parser function at the `-o` level |
| TestExpr.Parser.DoAnd | src/applets/sys/test.rs:203-212 | The same at the `-a` level |
| TestExpr.Parser.DoNot | src/applets/sys/test.rs:214-221 | The same for negation |
| TestExpr.Parser.DoPrimary | src/applets/sys/test.rs:223-254 | The same for groups, unary and binary operators and single words |
| TestExpr.EvalArgs | src/applets/sys/test.rs:258-268 | `eval` computes the evaluation function, the no-argument case and the trailing-argument error included |
| TestExpr.EvalComplete | src/applets/sys/test.rs:192-268 | The tokens of any tree of the grammar evaluate to the value of the tree |
| TestExpr.EvalSound | src/applets/sys/test.rs:192-268 | A value is only ever given to a token list that a tree derives completely, and it is that tree's value |
| TestExpr.EvalOkIffDerivable | src/applets/sys/test.rs:192-268 | So a value comes out exactly for the derivable token lists whose tree has it |
| TestExpr.PrintedEvaluates | src/applets/sys/test.rs:192-268 | Any expression printed with the parentheses that precedence asks for evaluates to its value, the first error from the left winning |
| TestExpr.StringsTested | src/applets/sys/test.rs:126-268 | A word alone is true unless empty, `-n` and `-z` ask for that, and no arguments are false |
| TestExpr.StringsCompared | src/applets/sys/test.rs:102-103 | `=`, `==` and `!=` compare the texts |
| TestExpr.NumbersCompared | src/applets/sys/test.rs:104-115 | The six integer operators compare as their names say |
| TestExpr.NoNumberIsError | src/applets/sys/test.rs:105-107 | On what is no number they are an error |
| TestExpr.FilesTested | src/applets/sys/test.rs:117-140 | `-nt`, `-ot` and `-ef` and the file tests ask the system about their operands in this order |
| TestExpr.ErrorsTold | src/applets/sys/test.rs:192-268 | An operator without its operand, a negation of nothing, a group without its end and an argument too many each have their own error |
| TestExpr.OperatorsAreKnown | src/applets/sys/test.rs:100-176 | Every operator that the parser recognizes is known to the evaluation |
| ProcessTree.SortPermutes | src/applets/sys/processes.rs:60-76 | Sorting by pid keeps every process as often as it was there |
| ProcessTree.ChainIsUnique | src/applets/sys/processes.rs:54-87 | A process is at the end of at most one chain of parents from a root |
| ProcessTree.ChainIsShort | src/applets/sys/processes.rs:74-87 | No chain is longer than the list of processes, which is why the recursion ends |
| ProcessTree.NodeMembers | src/applets/sys/processes.rs:74-87 | The subtree of a process shows exactly the processes whose chain goes through it |
| ProcessTree.TreeIsForest | src/applets/sys/processes.rs:54-87 | Below the virtual root stand exactly the processes whose chain of parents ends at 0 or at an unlisted pid, each once |
| ProcessTree.AllShown | src/applets/sys/processes.rs:54-87 | Without a cycle of parents every process is shown |
| ProcessTree.TreeIsOrdered | src/applets/sys/processes.rs:60-87 | Everywhere in the tree siblings stand in strictly ascending order of their pids |
| ProcessTree.SiblingLines | src/applets/sys/processes.rs:125-139 | The last sibling has the corner and the others the branch, with a bar beside what stands below them |
| ProcessTree.Output.RenderChildren | src/applets/sys/processes.rs:125-139 | The method appends the specified lines to the shared output |
| ProcessTree.Output.RenderProcessTree | src/applets/sys/processes.rs:116-122 | The name of the root, then the lines of its children |
| ProcessTree.OneLineEach | src/applets/sys/processes.rs:125-139 | One line for every node in order, ending in the fields of that node |
| Glob.ScanBracket | src/applets/glob.rs:50-73 | Membership, negation and the rest of the pattern after a bracket |
| Glob.BracketMeans | src/applets/glob.rs:50-75 | A bracket of single characters and ranges takes one character that is among them, or after `!` one that is not |
| Glob.ItemsMean | src/applets/glob.rs:15-50 | A star takes any stretch of the text, a question mark any one character, a protected character and any other one itself |
| Glob.GlobMatchInner | src/applets/glob.rs:15-86 | The matcher computes the specification of matching |
| Glob.ConcatenationSplits | src/applets/glob.rs:15-86 | A pattern of whole items followed by any pattern matches exactly the texts that split into a part for each |
| Glob.OpenBracketDoesNotSplit | src/applets/glob.rs:55-72 | The split law needs whole items: a concrete open bracket takes in the `]` of the second part and the law fails |
| Glob.PatternShape | src/applets/glob.rs:15-86 | Every pattern is a sequence of whole items, followed by nothing, an open bracket or a lone protection mark |
| Glob.OpenBracketIsSet | src/applets/glob.rs:50-75 | After whole items an open bracket is a set that goes on to the end of the pattern: a text matches exactly if its last character is in the set and the rest matches the items before |
| Glob.OpenBracketWitness | src/applets/glob.rs:50-75 | The pattern `[a` matches `a` and not `[a` |
| Glob.ReadingsAgreeIff | src/applets/glob.rs:50-75 | Reading an open bracket literally gives the same on all texts exactly if one of the brackets before it accepts no character, or it accepts none itself and a lone protection mark stands last, so that neither reading matches any text |
| Glob.SatisfiableIff | src/applets/glob.rs:15-86 | Whole items match some text exactly if each of their brackets accepts some character |
| Glob.ProtectedMatchesItself | src/applets/glob.rs:24-30 | Text with every special character protected matches exactly itself |
| Glob.ProtectedPrefix | src/applets/glob.rs:24-30 | Protected text followed by a pattern matches exactly the texts that start with it and go on matching the pattern |

## Left out

- Depths.ComputeDepths: takes the number of passes it may make; running for ever is the absence of a
  result at every number of passes.
- CompoundExec.Shell.ExecLines: takes the number of loop rounds it may start, for the same reason; for
  lines that are not those of a tree it claims no more than that it ends, apart from the syntax errors,
  which `ExecOne`, `ExecIf`, `ExecFor` and `ExecWhile` state.
- CompoundExec.Shell.ExecBlock: a `case` block is one opaque line, and what `return` sets is arbitrary;
  pending traps at loop rounds and the error messages are not modelled.
- CompoundExec.Shell.ExecWhile: one method for `exec_while` and `exec_until`, which differ only in the
  outcome of the condition that goes on.
- Compound.FindBlockEnd: works on lines with their readings; `Readings` proves that a reading is what the
  tests on the text yield. `break` inside a list such as `cmd && break` (the FLOW flag) is not modelled.
- ShellLines.SplitSemicolons: text is ASCII; white space is the ASCII white space.
- Normalize.NormalizeText: takes the lines of the source, not its line ends.
- RestartRate.RestartRateQuotient: the 32-bit wrap-around of the failure counter is not modelled, because
  it would need four billion failures in one window.
- Services.ServiceInstance.ScheduleRestart: the panic of adding a RestartSec that leads beyond the last
  instant (src/applets/core/init/services.rs:842) is not modelled; it would end the main loop, and so would
  a TimeoutStartSec in `respawn_service` (src/applets/core/init/services.rs:868).
- InitRun.StopInReverse: every stop is taken to return. A TimeoutStopSec that leads beyond the last instant
  is a panic in any stop of a process (src/applets/core/init/services.rs:941 and 975), in stop requests, in
  `do_shutdown` and in the rescue path; it is modelled only where `start_unit` stops an instance.
- StartUnit.StartUnit: deadlines are the only cause of a panic considered.
- Services.ServiceInstance.StopServiceInstance: ExecStop, signals and waiting for the exit are outside;
  so are spawning, pid files and log files, whose results are parameters.
- Control.Manager.DoStart: the texts of the answers are represented by constructors; `status`, `reload`,
  `enable` and `is-enabled` are not modelled.
- Afterwards.StartKeepsRivalsDown: instances are taken to be in the form that start-up, timer and path
  triggers and requests give them, which `RunSettled` shows to be kept; one started for a socket of a
  forking service need not be.
- Control.IsolateIsolates: unique instance names are a hypothesis; OnFailure, timer, path and socket
  triggers, which can add a second instance of a name, are not modelled. For instances started for a
  socket, which can outlive their stop, `IsolateSurvivors` is what holds.
- ContinueLevels.ContinueAgrees: sufficient for all programs; it is stated as exact only for two nested
  loops, since a `continue` that is never reached, or in the last round of a loop with nothing behind
  it, makes no difference.
- InitRun.Run: loading unit files, drop-ins, masks, templates and the emergency shell are not modelled;
  a unit's key in the table is taken to be its name.
- Boot.DetectImmediateFailures: the deadline is a number of sweeps, and what each sweep sees is a parameter.
- PollTimeout.NextPollTimeout: one reading of the clock stands for the several that the code makes;
  Type=notify readiness and service watchdogs do not enter the timeout.
- TarArchive.WriteEntry: a file that changes its length while it is archived, device nodes and read or
  write errors are not modelled; names are bytes, so the replacement of invalid UTF-8 is not either.
- TarArchive.ExtractArchive: `safe_relative` is a parameter; creating files and setting modes is a list of
  items.
- TestExpr.EvalArgs: file tests and number parsing are parameters.
- Locals.Globals.CallFunction: a body is what its run does, nested calls included; the function table and
  recursion without end are not modelled.
- ProcessTree.TreeIsForest: pids are distinct and not zero, as /proc lists them; with a duplicate pid the
  original's recursion need not end.
- ProcessTree.Output.RenderChildren: the text of a node's fields is a parameter.
- `parse_cmdline`, the remaining applets, status formatting, line editing, job control, redirection,
  expansion and cryptography are not modelled.
