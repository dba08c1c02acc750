/** The lifecycle of one service instance: restart scheduling, respawning, daemonizing, stopping
    (src/applets/core/init/services.rs) and the steps of the main loop that drive them
    (src/applets/core/init/mod.rs). Times are in nanoseconds. */
module Services {
  import opened Graphs
  import opened Prelude
  import opened Units

  type Pid = nat

  const NANOS_PER_SEC := 1_000_000_000

  function Secs(s: nat): nat {
    s * NANOS_PER_SEC
  }

  /** The value of a `ServiceInstance`: what never changes, then what the lifecycle changes. */
  datatype Svc = Svc(
    name: Name,
    partOf: seq<Name>,
    service: Service,
    child: Option<Pid>,
    trackedPid: Option<Pid>,
    waitingDaemonize: bool,
    daemonizeDeadline: Option<nat>,
    firstFailureAt: Option<nat>,
    failCount: nat,
    nextRestartAt: Option<nat>,
    stopped: bool,
    active: bool)
  {
    /** A process of this instance is known to run. */
    predicate Live() {
      child.Some? || trackedPid.Some?
    }

    /** What the control requests call running. */
    predicate Running() {
      Live() || active
    }
  }

  /** A fresh instance; a forking service waits for its child to daemonize. */
  function NewSvc(name: Name, u: Unit, child: Option<Pid>, now: nat): Svc {
    var waiting := u.service.forking && child.Some?;
    Svc(name, u.partOf, u.service, child, None, waiting,
        if waiting then Some(now + Secs(u.service.timeoutStartSec)) else None,
        None, 0, None, false, false)
  }

  /** A oneshot service that has already run: no process, but perhaps active. */
  function OneshotSvc(name: Name, u: Unit): Svc {
    NewSvc(name, u, None, 0).(active := u.service.remainAfterExit)
  }

  /** An instance started for a socket: its child is not awaited, even if the service forks. */
  function SocketSvc(name: Name, u: Unit, child: Pid): Svc {
    NewSvc(name, u, Some(child), 0).(waitingDaemonize := false, daemonizeDeadline := None)
  }

  /** The one case in which an instance still counts as running after it was stopped. */
  predicate SurvivesStop(s: Svc) {
    s.active && s.service.killModeNone && s.trackedPid.Some?
  }

  /** `exit_is_success`; `None` is death by a signal. */
  function ExitIsSuccess(service: Service, code: Option<int>): bool {
    match code
    case None => false
    case Some(c) => c == 0 || c in service.successExitStatus
  }

  /** The failure window has passed. */
  predicate WindowExpired(s: Svc, now: nat) {
    s.firstFailureAt.Some? && now - s.firstFailureAt.value > Secs(s.service.startLimitIntervalSec)
  }

  /** The failure counter after an exit. */
  function CountExit(s: Svc, now: nat, failed: bool): Svc {
    if !failed then s.(failCount := 0, firstFailureAt := None)
    else if WindowExpired(s, now) || s.failCount == 0 then s.(failCount := 1, firstFailureAt := Some(now))
    else s.(failCount := s.failCount + 1)
  }

  predicate WantsRestart(service: Service, failed: bool) {
    || service.restart == RestartAlways
    || (service.restart == RestartOnFailure && failed)
    || (service.restart == RestartOnSuccess && !failed)
  }

  /** The exit is followed by a restart. */
  predicate Reschedules(s: Svc, now: nat, failed: bool, shuttingDown: bool) {
    && WantsRestart(s.service, failed) && !s.stopped && !shuttingDown
    && CountExit(s, now, failed).failCount <= s.service.startLimitBurst
  }

  function AfterExit(s: Svc, now: nat, failed: bool, shuttingDown: bool): Svc {
    var counted := CountExit(s, now, failed);
    if Reschedules(s, now, failed, shuttingDown)
    then counted.(nextRestartAt := Some(now + Secs(s.service.restartSec)))
    else counted
  }

  function AfterDaemonize(s: Svc, pidInFile: Option<Pid>): Svc {
    s.(child := None, waitingDaemonize := false, daemonizeDeadline := None,
       trackedPid := if s.service.pidFile then pidInFile else None)
  }

  function AfterRespawn(s: Svc, now: nat, spawned: Option<Pid>): Svc {
    var again := s.(trackedPid := None, child := spawned);
    if !s.service.forking then again
    else again.(waitingDaemonize := spawned.Some?,
                daemonizeDeadline := if spawned.Some? then Some(now + Secs(s.service.timeoutStartSec)) else None)
  }

  /** With KillMode=none and a tracked daemon the stop returns before `active` is cleared. */
  function AfterStop(s: Svc): Svc {
    s.(child := None, trackedPid := None,
       active := s.active && s.service.killModeNone && s.trackedPid.Some?)
  }

  /** What `try_wait` reports about the child. */
  datatype Wait = StillRunning | Exited(code: Option<int>) | Lost

  /** Part 1a of the main loop for a child that is not waiting to daemonize. */
  function AfterWait(s: Svc, now: nat, wait: Wait, shuttingDown: bool): Svc {
    if s.child.None? || wait.StillRunning? then s
    else
      var failed := wait.Exited? && !ExitIsSuccess(s.service, wait.code);
      var gone := s.(child := None, active := s.active || (!failed && s.service.remainAfterExit));
      if gone.active then gone else AfterExit(gone, now, failed, shuttingDown)
  }

  /** Part 1a of the main loop during the daemonize wait. */
  function AfterDaemonizeWait(s: Svc, now: nat, wait: Wait, pidInFile: Option<Pid>, shuttingDown: bool): Svc {
    if s.child.None? then s
    else if !wait.StillRunning? then AfterDaemonize(s, pidInFile)
    else if s.daemonizeDeadline.Some? && now >= s.daemonizeDeadline.value then
      AfterExit(s.(child := None, waitingDaemonize := false, daemonizeDeadline := None), now, true, shuttingDown)
    else s
  }

  predicate RestartDue(s: Svc, now: nat, shuttingDown: bool) {
    s.nextRestartAt.Some? && now >= s.nextRestartAt.value && !shuttingDown && !s.stopped
  }

  /** One iteration of the main loop over this instance. */
  function AfterMainLoop(s: Svc, now: nat, wait: Wait, pidInFile: Option<Pid>, spawned: Option<Pid>,
                         shuttingDown: bool): Svc {
    if s.waitingDaemonize then AfterDaemonizeWait(s, now, wait, pidInFile, shuttingDown)
    else
      var waited := AfterWait(s, now, wait, shuttingDown);
      if RestartDue(waited, now, shuttingDown) then AfterRespawn(waited.(nextRestartAt := None), now, spawned)
      else waited
  }

  /** The orphan reaper collects `pid`. */
  function AfterReap(s: Svc, now: nat, pid: Pid, failed: bool, pidInFile: Option<Pid>, shuttingDown: bool): Svc {
    if s.trackedPid == Some(pid) then AfterExit(s.(trackedPid := None), now, failed, shuttingDown)
    else if s.child == Some(pid) then
      if s.waitingDaemonize then AfterDaemonize(s, pidInFile) else s.(child := None)
    else s
  }

  /** `do_stop_one` once the instance is found. */
  function AfterStopRequest(s: Svc): Svc {
    if s.Running() then AfterStop(s.(stopped := true)) else s.(stopped := true)
  }

  /** `do_start` for an existing instance. */
  function AfterStartRequest(s: Svc, now: nat, spawned: Option<Pid>): Svc {
    if s.Live() then s
    else AfterRespawn(s.(stopped := false, failCount := 0, firstFailureAt := None, nextRestartAt := None), now, spawned)
  }

  function AfterResetFailed(s: Svc): Svc {
    s.(failCount := 0, firstFailureAt := None, nextRestartAt := None)
  }

  class ServiceInstance {
    const name: Name
    const partOf: seq<Name>
    const service: Service
    var child: Option<Pid>
    var trackedPid: Option<Pid>
    var waitingDaemonize: bool
    var daemonizeDeadline: Option<nat>
    var firstFailureAt: Option<nat>
    var failCount: nat
    var nextRestartAt: Option<nat>
    var stopped: bool
    var active: bool

    function View(): Svc
      reads this
    {
      Svc(name, partOf, service, child, trackedPid, waitingDaemonize, daemonizeDeadline,
          firstFailureAt, failCount, nextRestartAt, stopped, active)
    }

    constructor (name: Name, u: Unit, child: Option<Pid>, now: nat)
      ensures View() == NewSvc(name, u, child, now)
    {
      this.name, this.partOf, this.service := name, u.partOf, u.service;
      this.child, this.trackedPid := child, None;
      waitingDaemonize := u.service.forking && child.Some?;
      daemonizeDeadline :=
        if u.service.forking && child.Some? then Some(now + Secs(u.service.timeoutStartSec)) else None;
      firstFailureAt, failCount, nextRestartAt := None, 0, None;
      stopped, active := false, false;
    }

    method ScheduleRestart(now: nat, failed: bool, shuttingDown: bool)
      modifies this
      ensures View() == AfterExit(old(View()), now, failed, shuttingDown)
    {
      if firstFailureAt.Some? && now - firstFailureAt.value > Secs(service.startLimitIntervalSec) {
        failCount, firstFailureAt := 0, None;
      }
      if failed {
        if failCount == 0 {
          firstFailureAt := Some(now);
        }
        failCount := failCount + 1;
      } else {
        failCount, firstFailureAt := 0, None;
      }
      var wanted := match service.restart
        case RestartAlways => true
        case RestartOnFailure => failed
        case RestartOnSuccess => !failed
        case RestartNo => false;
      if !wanted || stopped || shuttingDown {
        return;
      }
      if failCount > service.startLimitBurst {
        return;
      }
      nextRestartAt := Some(now + Secs(service.restartSec));
    }

    method FinishDaemonize(pidInFile: Option<Pid>)
      modifies this
      ensures View() == AfterDaemonize(old(View()), pidInFile)
    {
      child, waitingDaemonize, daemonizeDeadline := None, false, None;
      trackedPid := if service.pidFile then pidInFile else None;
    }

    method Respawn(now: nat, spawned: Option<Pid>)
      modifies this
      ensures View() == AfterRespawn(old(View()), now, spawned)
    {
      trackedPid, child := None, spawned;
      if !service.forking {
        return;
      }
      waitingDaemonize := child.Some?;
      daemonizeDeadline := if waitingDaemonize then Some(now + Secs(service.timeoutStartSec)) else None;
    }

    /** `stop_service_instance`: the signals and the waits for exit are outside the model. */
    method StopServiceInstance()
      modifies this
      ensures View() == AfterStop(old(View()))
    {
      child := None;
      if trackedPid.Some? {
        trackedPid := None;
        if service.killModeNone {
          return;
        }
      }
      active := false;
    }

    /** Part 1a for a forking service whose parent process is awaited. */
    method DaemonizeStep(now: nat, wait: Wait, pidInFile: Option<Pid>, shuttingDown: bool)
      modifies this
      ensures View() == AfterDaemonizeWait(old(View()), now, wait, pidInFile, shuttingDown)
    {
      if child.None? {
        return;
      }
      if !wait.StillRunning? {
        FinishDaemonize(pidInFile);
      } else if daemonizeDeadline.Some? && now >= daemonizeDeadline.value {
        child, waitingDaemonize, daemonizeDeadline := None, false, None;
        ScheduleRestart(now, true, shuttingDown);
      }
    }

    /** Part 1a for any other child. */
    method WaitStep(now: nat, wait: Wait, shuttingDown: bool)
      modifies this
      ensures View() == AfterWait(old(View()), now, wait, shuttingDown)
    {
      if child.None? || wait.StillRunning? {
        return;
      }
      var failed := wait.Exited? && !ExitIsSuccess(service, wait.code);
      child := None;
      if !failed && service.remainAfterExit {
        active := true;
      }
      if !active {
        ScheduleRestart(now, failed, shuttingDown);
      }
    }

    /** Parts 1a and 1b of the main loop for this instance. */
    method MainLoopStep(now: nat, wait: Wait, pidInFile: Option<Pid>, spawned: Option<Pid>, shuttingDown: bool)
      modifies this
      ensures View() == AfterMainLoop(old(View()), now, wait, pidInFile, spawned, shuttingDown)
    {
      if waitingDaemonize {
        DaemonizeStep(now, wait, pidInFile, shuttingDown);
        return;
      }
      WaitStep(now, wait, shuttingDown);
      if nextRestartAt.Some? && now >= nextRestartAt.value && !shuttingDown && !stopped {
        nextRestartAt := None;
        Respawn(now, spawned);
      }
    }

    /** The body of the reaper's loop for one collected pid; `hit` ends the search. */
    method Reap(now: nat, pid: Pid, failed: bool, pidInFile: Option<Pid>, shuttingDown: bool) returns (hit: bool)
      modifies this
      ensures View() == AfterReap(old(View()), now, pid, failed, pidInFile, shuttingDown)
      ensures hit <==> old(trackedPid) == Some(pid) || old(child) == Some(pid)
    {
      if trackedPid == Some(pid) {
        trackedPid := None;
        ScheduleRestart(now, failed, shuttingDown);
        return true;
      }
      if child == Some(pid) {
        if waitingDaemonize {
          FinishDaemonize(pidInFile);
        } else {
          child := None;
        }
        return true;
      }
      hit := false;
    }

    method StopRequest() returns (wasRunning: bool)
      modifies this
      ensures View() == AfterStopRequest(old(View())) && wasRunning == old(View()).Running()
    {
      stopped := true;
      if child.None? && trackedPid.None? && !active {
        return false;
      }
      StopServiceInstance();
      wasRunning := true;
    }

    method StartRequest(now: nat, spawned: Option<Pid>)
      modifies this
      ensures View() == AfterStartRequest(old(View()), now, spawned)
    {
      if child.Some? || trackedPid.Some? {
        return;
      }
      stopped, failCount, firstFailureAt, nextRestartAt := false, 0, None, None;
      Respawn(now, spawned);
    }

    method ResetFailed()
      modifies this
      ensures View() == AfterResetFailed(old(View()))
    {
      failCount, firstFailureAt, nextRestartAt := 0, None, None;
    }
  }
}
