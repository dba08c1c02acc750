/** What holds over whole runs of one service instance under the main loop, the orphan reaper
    and the control requests. */
module Lifecycle {
  import opened Prelude
  import opened Units
  import opened Services

  datatype Event =
    | MainLoop(now: nat, wait: Wait, pidInFile: Option<Pid>, spawned: Option<Pid>, shuttingDown: bool)
    | Reap(now: nat, pid: Pid, failed: bool, pidInFile: Option<Pid>, shuttingDown: bool)
    | ResetFailed(now: nat)
    | Stop(now: nat)
    | Start(now: nat, spawned: Option<Pid>)

  function Step(s: Svc, e: Event): Svc {
    match e
    case MainLoop(now, wait, pidInFile, spawned, down) => AfterMainLoop(s, now, wait, pidInFile, spawned, down)
    case Reap(now, pid, failed, pidInFile, down) => AfterReap(s, now, pid, failed, pidInFile, down)
    case ResetFailed(_) => AfterResetFailed(s)
    case Stop(_) => AfterStopRequest(s)
    case Start(now, spawned) => AfterStartRequest(s, now, spawned)
  }

  function Run(s: Svc, events: seq<Event>): Svc
    decreases |events|
  {
    if events == [] then s else Run(Step(s, events[0]), events[1..])
  }

  // ----- one process at a time

  /** At most one process is known; a restart is only pending while there is none, and the
      daemonize wait is a forking service's. */
  ghost predicate Coherent(s: Svc) {
    && !(s.child.Some? && s.trackedPid.Some?)
    && (s.nextRestartAt.Some? ==> !s.Live())
    && (s.waitingDaemonize ==> s.service.forking && s.trackedPid.None?)
    && (s.failCount == 0 <==> s.firstFailureAt.None?)
  }

  lemma NewIsCoherent(name: string, u: Unit, child: Option<Pid>, now: nat)
    ensures Coherent(NewSvc(name, u, child, now)) && Coherent(OneshotSvc(name, u))
    ensures child.Some? ==> Coherent(SocketSvc(name, u, child.value))
  {
  }

  /** The event makes the instance spawn its command again. */
  ghost predicate Respawns(s: Svc, e: Event) {
    match e
    case MainLoop(now, wait, _, _, down) =>
      !s.waitingDaemonize && RestartDue(AfterWait(s, now, wait, down), now, down)
    case Start(_, _) => !s.Live()
    case _ => false
  }

  lemma StepCoherent(s: Svc, e: Event)
    requires Coherent(s)
    ensures Coherent(Step(s, e)) && Step(s, e).service == s.service
  {
    match e
    case MainLoop(now, wait, pidInFile, spawned, down) => MainLoopCoherent(s, now, wait, pidInFile, spawned, down);
    case Reap(now, pid, failed, pidInFile, down) => ReapCoherent(s, now, pid, failed, pidInFile, down);
    case _ =>
  }

  lemma ExitCoherent(s: Svc, now: nat, failed: bool, down: bool)
    requires Coherent(s) && !s.Live() && !s.waitingDaemonize
    ensures Coherent(AfterExit(s, now, failed, down)) && AfterExit(s, now, failed, down).service == s.service
  {
  }

  lemma WaitCoherent(s: Svc, now: nat, wait: Wait, down: bool)
    requires Coherent(s) && !s.waitingDaemonize
    ensures Coherent(AfterWait(s, now, wait, down)) && AfterWait(s, now, wait, down).service == s.service
    ensures AfterWait(s, now, wait, down).waitingDaemonize == false
  {
    if s.child.Some? && !wait.StillRunning? {
      var failed := wait.Exited? && !ExitIsSuccess(s.service, wait.code);
      var gone := s.(child := None, active := s.active || (!failed && s.service.remainAfterExit));
      if !gone.active {
        ExitCoherent(gone, now, failed, down);
      }
    }
  }

  lemma DaemonizeWaitCoherent(s: Svc, now: nat, wait: Wait, pidInFile: Option<Pid>, down: bool)
    requires Coherent(s) && s.waitingDaemonize
    ensures var after := AfterDaemonizeWait(s, now, wait, pidInFile, down);
            Coherent(after) && after.service == s.service
  {
    if s.child.Some? && wait.StillRunning? {
      var gone := s.(child := None, waitingDaemonize := false, daemonizeDeadline := None);
      if gone.active == false {
        ExitCoherent(gone, now, true, down);
      }
    }
  }

  lemma MainLoopCoherent(s: Svc, now: nat, wait: Wait, pidInFile: Option<Pid>, spawned: Option<Pid>, down: bool)
    requires Coherent(s)
    ensures var after := AfterMainLoop(s, now, wait, pidInFile, spawned, down);
            Coherent(after) && after.service == s.service
  {
    if s.waitingDaemonize {
      DaemonizeWaitCoherent(s, now, wait, pidInFile, down);
    } else {
      WaitCoherent(s, now, wait, down);
    }
  }

  lemma ReapCoherent(s: Svc, now: nat, pid: Pid, failed: bool, pidInFile: Option<Pid>, down: bool)
    requires Coherent(s)
    ensures var after := AfterReap(s, now, pid, failed, pidInFile, down); Coherent(after) && after.service == s.service
  {
  }

  /** Over every run: the instance never knows two processes, and it spawns again only after
      the last one it knew is gone, so no handle is ever overwritten. */
  lemma {:induction false} OneProcessAtATime(s: Svc, events: seq<Event>, i: nat)
    requires Coherent(s) && i < |events|
    ensures var before := Run(s, events[..i]);
      && Coherent(before)
      && (Respawns(before, events[i]) ==>
            before.trackedPid.None?
            && (before.child.Some? ==> events[i].MainLoop? && !events[i].wait.StillRunning?))
    decreases |events|
  {
    if i > 0 {
      StepCoherent(s, events[0]);
      OneProcessAtATime(Step(s, events[0]), events[1..], i - 1);
      assert events[..i][1..] == events[1..][..i - 1];
    } else {
      assert events[..0] == [];
    }
  }

  /** Every state that a run from a new instance passes through is coherent. */
  lemma {:induction false} RunCoherent(s: Svc, events: seq<Event>)
    requires Coherent(s)
    ensures Coherent(Run(s, events)) && Run(s, events).service == s.service
    decreases |events|
  {
    if events != [] {
      StepCoherent(s, events[0]);
      RunCoherent(Step(s, events[0]), events[1..]);
    }
  }

  /** A new instance, however it was started. */
  ghost predicate Begins(s: Svc, name: string, u: Unit) {
    || (exists child, now :: s == NewSvc(name, u, child, now))
    || s == OneshotSvc(name, u)
    || (exists child :: s == SocketSvc(name, u, child))
  }

  /** Over every run from the start of the instance there is one process at a time. */
  lemma OneProcessFromStart(s: Svc, name: string, u: Unit, events: seq<Event>, i: nat)
    requires Begins(s, name, u) && i < |events|
    ensures var before := Run(s, events[..i]);
      && !(before.child.Some? && before.trackedPid.Some?)
      && (Respawns(before, events[i]) ==>
            before.trackedPid.None?
            && (before.child.Some? ==> events[i].MainLoop? && !events[i].wait.StillRunning?))
  {
    BeginsCoherent(s, name, u);
    OneProcessAtATime(s, events, i);
  }

  lemma BeginsCoherent(s: Svc, name: string, u: Unit)
    requires Begins(s, name, u)
    ensures Coherent(s)
  {
    NewIsCoherent(name, u, s.child, 0);
  }

  // ----- active instances and tracked daemons

  /** The type of the service shows: a forking one is never active and its child is always awaited;
      any other has no tracked daemon. */
  predicate Typed(s: Svc) {
    && (s.service.forking ==> !s.active && (s.child.Some? ==> s.waitingDaemonize))
    && (!s.service.forking ==> s.trackedPid.None? && !s.waitingDaemonize)
  }

  /** So it is with everything that start-up, a trigger or a start request creates. */
  lemma StartedIsTyped(name: string, u: Unit, child: Option<Pid>, now: nat)
    ensures Typed(NewSvc(name, u, child, now))
    ensures !u.service.forking ==> Typed(OneshotSvc(name, u))
  {
  }

  lemma StepTyped(s: Svc, e: Event)
    requires Typed(s)
    ensures Typed(Step(s, e)) && Step(s, e).service == s.service
  {
    match e
    case MainLoop(now, wait, pidInFile, spawned, down) => MainLoopTyped(s, now, wait, pidInFile, spawned, down);
    case _ =>
  }

  lemma MainLoopTyped(s: Svc, now: nat, wait: Wait, pidInFile: Option<Pid>, spawned: Option<Pid>, down: bool)
    requires Typed(s)
    ensures var after := AfterMainLoop(s, now, wait, pidInFile, spawned, down);
            Typed(after) && after.service == s.service
  {
    if s.waitingDaemonize {
      DaemonizeWaitTyped(s, now, wait, pidInFile, down);
    } else {
      WaitTyped(s, now, wait, down);
    }
  }

  lemma DaemonizeWaitTyped(s: Svc, now: nat, wait: Wait, pidInFile: Option<Pid>, down: bool)
    requires Typed(s) && s.waitingDaemonize
    ensures var after := AfterDaemonizeWait(s, now, wait, pidInFile, down);
            Typed(after) && after.service == s.service
  {
  }

  lemma WaitTyped(s: Svc, now: nat, wait: Wait, down: bool)
    requires Typed(s) && !s.waitingDaemonize
    ensures var after := AfterWait(s, now, wait, down);
            Typed(after) && after.service == s.service && !after.waitingDaemonize
  {
  }

  /** Over every run such an instance stops running when it is stopped. */
  lemma {:induction false} TypedNeverSurvives(s: Svc, events: seq<Event>)
    requires Typed(s)
    ensures Typed(Run(s, events)) && !SurvivesStop(Run(s, events))
    decreases |events|
  {
    if events != [] {
      StepTyped(s, events[0]);
      TypedNeverSurvives(Step(s, events[0]), events[1..]);
    }
  }

  /** Where an active state and a tracked daemon can come from at all. */
  predicate Grounded(s: Svc) {
    && (s.active ==> s.service.remainAfterExit)
    && (s.trackedPid.Some? ==> s.service.forking && s.service.pidFile)
    && (s.waitingDaemonize ==> s.service.forking)
  }

  lemma {:induction false} RunGrounded(s: Svc, events: seq<Event>)
    requires Grounded(s)
    ensures Grounded(Run(s, events)) && Run(s, events).service == s.service
    decreases |events|
  {
    if events != [] {
      StepGrounded(s, events[0]);
      RunGrounded(Step(s, events[0]), events[1..]);
    }
  }

  lemma StepGrounded(s: Svc, e: Event)
    requires Grounded(s)
    ensures Grounded(Step(s, e)) && Step(s, e).service == s.service
  {
    match e
    case MainLoop(now, wait, pidInFile, spawned, down) => MainLoopGrounded(s, now, wait, pidInFile, spawned, down);
    case _ =>
  }

  lemma MainLoopGrounded(s: Svc, now: nat, wait: Wait, pidInFile: Option<Pid>, spawned: Option<Pid>, down: bool)
    requires Grounded(s)
    ensures var after := AfterMainLoop(s, now, wait, pidInFile, spawned, down);
            Grounded(after) && after.service == s.service
  {
    if !s.waitingDaemonize {
      WaitGrounded(s, now, wait, down);
    }
  }

  lemma WaitGrounded(s: Svc, now: nat, wait: Wait, down: bool)
    requires Grounded(s) && !s.waitingDaemonize
    ensures var after := AfterWait(s, now, wait, down);
            Grounded(after) && after.service == s.service && !after.waitingDaemonize
  {
  }

  /** The first exit makes a socket instance active; a start then awaits the new child, and its
      daemon is tracked besides. */
  function SurvivingEvents(pid: Pid): seq<Event> {
    [MainLoop(0, Exited(Some(0)), None, None, false), Start(0, Some(pid)),
     MainLoop(0, Exited(Some(0)), Some(pid), None, false)]
  }

  predicate MaySurvive(service: Service) {
    service.forking && service.pidFile && service.remainAfterExit && service.killModeNone
  }

  lemma SurvivingRun(s: Svc, pid: Pid)
    requires MaySurvive(s.service) && s.child.Some? && !s.waitingDaemonize && s.trackedPid.None?
    ensures SurvivesStop(Run(s, SurvivingEvents(pid)))
    ensures AfterStopRequest(Run(s, SurvivingEvents(pid))).Running()
  {
    var events := SurvivingEvents(pid);
    var one := Step(s, events[0]);
    assert one.active && one.child.None? && one.service == s.service;
    var two := Step(one, events[1]);
    assert two.active && two.waitingDaemonize && two.child.Some?;
    var three := Step(two, events[2]);
    assert SurvivesStop(three);
    assert events[1..] == [events[1], events[2]] && events[1..][1..] == [events[2]];
    assert Run(three, []) == three;
    assert Run(two, [events[2]]) == three;
    assert Run(one, events[1..]) == three;
  }

  /** An instance started for a socket can come to a state in which it outlives its stop, exactly
      if its service forks with a pid file, remains active after exit and has KillMode=none. */
  lemma SocketSurvives(name: string, u: Unit, child: Pid)
    ensures (exists events :: SurvivesStop(Run(SocketSvc(name, u, child), events))) <==> MaySurvive(u.service)
  {
    var s := SocketSvc(name, u, child);
    assert s.service == u.service && Grounded(s);
    if MaySurvive(u.service) {
      SurvivingRun(s, child);
    }
    if events :| SurvivesStop(Run(s, events)) {
      RunGrounded(s, events);
    }
  }

  // ----- stopped stays stopped

  /** Stopped with no process left. */
  ghost predicate AtRest(s: Svc) {
    s.stopped && !s.Live()
  }

  /** After a stop request no event but an explicit start brings a process back, whatever
      restart or daemonize wait was pending. */
  lemma {:induction false} StopIsFinal(s: Svc, events: seq<Event>)
    requires forall i :: 0 <= i < |events| ==> !events[i].Start?
    requires AtRest(s) || (events != [] && events[0].Stop?)
    ensures AtRest(Run(s, events))
    decreases |events|
  {
    if events != [] {
      assert AtRest(Step(s, events[0]));
      StopIsFinal(Step(s, events[0]), events[1..]);
    }
  }

  /** The deadlines that an instance contributes to the poll timeout. */
  ghost predicate WakesAt(s: Svc, at: nat) {
    s.nextRestartAt == Some(at) || (s.waitingDaemonize && s.daemonizeDeadline == Some(at))
  }

  /** Stopping does not clear a pending restart time or an unfinished daemonize wait: such a
      deadline then stays through every run without a start or reset, so once it has passed the
      main loop no longer sleeps. */
  lemma {:induction false} StopKeepsDeadlines(s: Svc, events: seq<Event>, at: nat)
    requires Coherent(s) && events != [] && events[0].Stop?
    requires forall i :: 0 < i < |events| ==> !events[i].Start? && !events[i].ResetFailed?
    ensures WakesAt(Run(s, events), at) <==> WakesAt(s, at)
  {
    var rest := Step(s, events[0]);
    assert AtRest(rest) && (WakesAt(rest, at) <==> WakesAt(s, at));
    RestKeepsDeadlines(rest, events[1..], at);
  }

  lemma {:induction false} RestKeepsDeadlines(s: Svc, events: seq<Event>, at: nat)
    requires AtRest(s)
    requires forall i :: 0 <= i < |events| ==> !events[i].Start? && !events[i].ResetFailed?
    ensures WakesAt(Run(s, events), at) <==> WakesAt(s, at)
    decreases |events|
  {
    if events != [] {
      assert Step(s, events[0]).nextRestartAt == s.nextRestartAt;
      RestKeepsDeadlines(Step(s, events[0]), events[1..], at);
    }
  }
}
