/** Which exit is followed by a restart, and how many failures a service is allowed
    (src/applets/core/init/services.rs, src/applets/core/init/mod.rs). */
module RestartPolicy {
  import opened Prelude
  import opened Units
  import opened Services
  import opened Lifecycle
  import Afterwards

  /** The exit code, `None` for death by a signal, counts as a success. */
  predicate Success(s: Svc, code: Option<int>) {
    code.Some? && (code.value == 0 || code.value in s.service.successExitStatus)
  }

  /** The number of this failure in its window, which it opens itself if the last one has passed. */
  function FailureNumber(s: Svc, now: nat): nat {
    if s.firstFailureAt.Some? && now > s.firstFailureAt.value + s.service.startLimitIntervalSec * 1_000_000_000
    then 1 else s.failCount + 1
  }

  /** What the unit file asks for after such an exit. */
  predicate Asked(s: Svc, now: nat, success: bool) {
    match s.service.restart
    case RestartNo => false
    case RestartAlways => success || FailureNumber(s, now) <= s.service.startLimitBurst
    case RestartOnFailure => !success && FailureNumber(s, now) <= s.service.startLimitBurst
    case RestartOnSuccess => success
  }

  /** An iteration of the main loop that sees the child of a running instance exit gives it a restart
      time, RestartSec after the exit, exactly if the unit file asks for one, the instance has not
      been stopped, no shutdown is on and it does not remain active. With RestartSec 0 the same
      iteration spawns it again. */
  lemma ExitIsFollowed(s: Svc, now: nat, code: Option<int>, pidInFile: Option<Pid>, spawned: Option<Pid>, down: bool)
    requires Coherent(s) && s.child.Some? && !s.waitingDaemonize
    ensures var after := Step(s, MainLoop(now, Exited(code), pidInFile, spawned, down));
            var again := Asked(s, now, Success(s, code)) && !s.stopped && !down && !s.active
                         && !(Success(s, code) && s.service.remainAfterExit);
      && (s.service.restartSec > 0 ==>
            && after.child.None?
            && after.nextRestartAt == if again then Some(now + s.service.restartSec * 1_000_000_000) else None)
      && (s.service.restartSec == 0 ==>
            after.nextRestartAt.None? && after.child == if again then spawned else None)
      && (after.active <==> s.active || (Success(s, code) && s.service.remainAfterExit))
  {
  }

  /** A child that is gone without a status, because the orphan reaper has it, counts as a success. */
  lemma LostIsSuccess(s: Svc, now: nat, pidInFile: Option<Pid>, spawned: Option<Pid>, down: bool)
    ensures Step(s, MainLoop(now, Lost, pidInFile, spawned, down))
            == Step(s, MainLoop(now, Exited(Some(0)), pidInFile, spawned, down))
  {
  }

  /** So it is followed by a restart exactly if the policy is always or on-success. */
  lemma LostRestartsIff(s: Svc, now: nat, pidInFile: Option<Pid>, spawned: Option<Pid>)
    requires Coherent(s) && s.child.Some? && !s.waitingDaemonize && !s.stopped && !s.active
    requires !s.service.remainAfterExit && s.service.restartSec > 0
    ensures Step(s, MainLoop(now, Lost, pidInFile, spawned, false)).nextRestartAt.Some?
            <==> s.service.restart == RestartAlways || s.service.restart == RestartOnSuccess
  {
    LostIsSuccess(s, now, pidInFile, spawned, false);
    ExitIsFollowed(s, now, Some(0), pidInFile, spawned, false);
  }

  /** The exit of a tracked daemon is followed in the same way, whether the instance is active or not. */
  lemma DaemonExitIsFollowed(s: Svc, now: nat, pid: Pid, failed: bool, pidInFile: Option<Pid>, down: bool)
    requires Coherent(s) && s.trackedPid == Some(pid)
    ensures var after := Step(s, Reap(now, pid, failed, pidInFile, down));
      && after.trackedPid.None? && after.child.None?
      && after.nextRestartAt == if Asked(s, now, !failed) && !s.stopped && !down
                                then Some(now + s.service.restartSec * 1_000_000_000) else None
  {
  }

  // ----- what the orphan reaper makes of an exit

  /** The reaper tells a daemon's failure by its code alone: the codes of SuccessExitStatus are failures to
      it. A restart follows as the unit file asks, exactly if the policy makes no difference of it. */
  lemma ReaperKnowsOnlyZero(s: Svc, now: nat, pid: Pid, code: Option<int>, pidInFile: Option<Pid>)
    requires Coherent(s) && s.trackedPid == Some(pid) && !s.stopped
    ensures var after := Step(s, Reap(now, pid, code != Some(0), pidInFile, false));
      (after.nextRestartAt.Some? <==> Asked(s, now, Success(s, code)))
      <==> (Success(s, code) && code.value != 0 ==>
              match s.service.restart
              case RestartNo => true
              case RestartAlways => FailureNumber(s, now) <= s.service.startLimitBurst
              case RestartOnFailure => FailureNumber(s, now) > s.service.startLimitBurst
              case RestartOnSuccess => false)
  {
    DaemonExitIsFollowed(s, now, pid, code != Some(0), pidInFile, false);
  }

  /** A child that the reaper collects is forgotten without a look at the policy. Only that of a forking
      service on its way to become a daemon is treated as the main loop treats it. */
  lemma ReapedChild(s: Svc, now: nat, pid: Pid, failed: bool, pidInFile: Option<Pid>, down: bool)
    requires Coherent(s) && s.child == Some(pid)
    ensures Step(s, Reap(now, pid, failed, pidInFile, down))
            == if s.waitingDaemonize
               then s.(child := None, waitingDaemonize := false, daemonizeDeadline := None,
                       trackedPid := if s.service.pidFile then pidInFile else None)
               else s.(child := None)
  {
  }

  /** So the service of a collected child stays down until the next start, exactly if it has no daemon. */
  lemma ReapedStaysDown(s: Svc, now: nat, pid: Pid, failed: bool, pidInFile: Option<Pid>, down: bool)
    requires Coherent(s) && s.child == Some(pid)
    ensures Afterwards.StaysDown(Step(s, Reap(now, pid, failed, pidInFile, down)))
            <==> !(s.waitingDaemonize && s.service.pidFile && pidInFile.Some?)
  {
    ReapedChild(s, now, pid, failed, pidInFile, down);
    Afterwards.StaysDownIff(Step(s, Reap(now, pid, failed, pidInFile, down)));
  }

  /** The same exit seen by the main loop lets it come back if the unit file asks for that: who sees it first
      makes a difference exactly then. */
  lemma ReaperDiffers(s: Svc, now: nat, pid: Pid, code: Option<int>, pidInFile: Option<Pid>, spawned: Option<Pid>)
    requires Coherent(s) && s.child == Some(pid) && !s.waitingDaemonize && !s.stopped && !s.active
    requires !s.service.remainAfterExit && s.service.restartSec > 0
    ensures var seen := Step(s, MainLoop(now, Exited(code), pidInFile, spawned, false));
            var reaped := Step(s, Reap(now, pid, code != Some(0), pidInFile, false));
      && (Afterwards.StaysDown(seen) <==> !Asked(s, now, Success(s, code)))
      && Afterwards.StaysDown(reaped)
  {
    var seen := Step(s, MainLoop(now, Exited(code), pidInFile, spawned, false));
    ExitIsFollowed(s, now, code, pidInFile, spawned, false);
    StepCoherent(s, MainLoop(now, Exited(code), pidInFile, spawned, false));
    Afterwards.StaysDownIff(seen);
    ReapedStaysDown(s, now, pid, code != Some(0), pidInFile, false);
  }

  /** A parent process that has not become a daemon by its deadline is given up as a failure. */
  lemma DaemonizeTimeoutIsFollowed(s: Svc, now: nat, pidInFile: Option<Pid>, spawned: Option<Pid>, down: bool)
    requires Coherent(s) && s.child.Some? && s.waitingDaemonize && s.daemonizeDeadline.Some?
    ensures var after := Step(s, MainLoop(now, StillRunning, pidInFile, spawned, down));
      if now < s.daemonizeDeadline.value then after == s
      else
        && !after.Live() && !after.waitingDaemonize
        && after.nextRestartAt == if Asked(s, now, false) && !s.stopped && !down
                                  then Some(now + s.service.restartSec * 1_000_000_000) else None
  {
  }

  /** One that exits before is done: its daemon is the one in the pid file, if the unit names one. */
  lemma DaemonizedIsTracked(s: Svc, now: nat, wait: Wait, pidInFile: Option<Pid>, spawned: Option<Pid>, down: bool)
    requires Coherent(s) && s.child.Some? && s.waitingDaemonize && !wait.StillRunning?
    ensures Step(s, MainLoop(now, wait, pidInFile, spawned, down))
            == s.(child := None, waitingDaemonize := false, daemonizeDeadline := None,
                  trackedPid := if s.service.pidFile then pidInFile else None)
  {
  }

  /** A restart that is due spawns the command again, and not before. */
  lemma DueIsSpawned(s: Svc, now: nat, pidInFile: Option<Pid>, spawned: Option<Pid>, down: bool)
    requires Coherent(s) && s.nextRestartAt.Some? && !s.waitingDaemonize && !s.stopped && !down
    ensures var after := Step(s, MainLoop(now, StillRunning, pidInFile, spawned, down));
      if now < s.nextRestartAt.value then after == s
      else
        && after.child == spawned && after.nextRestartAt.None?
        && after.failCount == s.failCount && after.firstFailureAt == s.firstFailureAt
        && (s.service.forking && spawned.Some? ==>
              after.waitingDaemonize
              && after.daemonizeDeadline == Some(now + s.service.timeoutStartSec * 1_000_000_000))
  {
  }

  // ----- the allowance of a window

  /** The service dies of a signal at time t and is spawned again when its restart is due. */
  function DiesAndReturns(service: Service, t: nat, pid: Pid): seq<Event> {
    [MainLoop(t, Exited(None), None, None, false),
     MainLoop(t + service.restartSec * 1_000_000_000, StillRunning, None, Some(pid), false)]
  }

  function Crashes(service: Service, times: seq<nat>, pid: Pid): seq<Event> {
    if times == [] then []
    else Crashes(service, times[..|times| - 1], pid) + DiesAndReturns(service, times[|times| - 1], pid)
  }

  /** Failures that all fall into the window of the first. */
  predicate InOneWindow(service: Service, times: seq<nat>) {
    forall k :: 0 <= k < |times| ==>
      times[k] <= times[0] + service.startLimitIntervalSec * 1_000_000_000
  }

  lemma {:induction false} RunAppend(s: Svc, a: seq<Event>, b: seq<Event>)
    ensures Run(s, a + b) == Run(Run(s, a), b)
    decreases |a|
  {
    if a == [] {
      assert a + b == b;
    } else {
      assert (a + b)[1..] == a[1..] + b;
      RunAppend(Step(s, a[0]), a[1..], b);
    }
  }

  lemma RunTwo(s: Svc, e: Event, f: Event)
    ensures Run(s, [e, f]) == Step(Step(s, e), f)
  {
    assert [e, f][1..] == [f] && [f][1..] == [];
    assert Run(Step(Step(s, e), f), []) == Step(Step(s, e), f);
    assert Run(Step(s, e), [f]) == Step(Step(s, e), f);
  }

  /** A running instance after `count` failures of a window that `first` opened. */
  predicate Survived(s: Svc, service: Service, count: nat, first: Option<nat>, pid: Pid) {
    && s.service == service && s.child == Some(pid) && s.trackedPid.None? && !s.waitingDaemonize && !s.stopped
    && !s.active && s.nextRestartAt.None? && s.failCount == count && s.firstFailureAt == first
  }

  predicate RestartsAfterFailure(service: Service) {
    !service.forking && service.restartSec > 0
    && (service.restart == RestartAlways || service.restart == RestartOnFailure)
  }

  lemma OneMoreCrash(s: Svc, service: Service, count: nat, first: Option<nat>, t: nat, pid: Pid)
    requires RestartsAfterFailure(service) && Survived(s, service, count, first, pid)
    requires count < service.startLimitBurst && (first.None? <==> count == 0)
    requires first.Some? ==> t <= first.value + service.startLimitIntervalSec * 1_000_000_000
    ensures Survived(Run(s, DiesAndReturns(service, t, pid)), service, count + 1,
                     if first.Some? then first else Some(t), pid)
  {
    var events := DiesAndReturns(service, t, pid);
    RunTwo(s, events[0], events[1]);
    ExitIsFollowed(s, t, None, None, None, false);
    var dead := Step(s, events[0]);
    assert dead.nextRestartAt == Some(t + service.restartSec * 1_000_000_000);
  }

  /** Each of the first StartLimitBurst failures of a window is followed by a restart; the next one in
      the same window is the last: the service stays down. */
  lemma {:induction false} BurstIsExact(s: Svc, service: Service, times: seq<nat>, pid: Pid, t: nat)
    requires RestartsAfterFailure(service) && Survived(s, service, 0, None, pid)
    requires InOneWindow(service, times) && |times| <= service.startLimitBurst
    ensures var after := Run(s, Crashes(service, times, pid));
      && Survived(after, service, |times|, if times == [] then None else Some(times[0]), pid)
      && (|times| == service.startLimitBurst > 0
          && t <= times[0] + service.startLimitIntervalSec * 1_000_000_000 ==>
            var dead := Step(after, MainLoop(t, Exited(None), None, None, false));
            !dead.Live() && dead.nextRestartAt.None?)
    decreases |times|
  {
    if times != [] {
      var rest, last := times[..|times| - 1], times[|times| - 1];
      BurstIsExact(s, service, rest, pid, last);
      OneMoreCrash(Run(s, Crashes(service, rest, pid)), service, |rest|,
                   if rest == [] then None else Some(rest[0]), last, pid);
      RunAppend(s, Crashes(service, rest, pid), DiesAndReturns(service, last, pid));
    }
  }

  /** A new instance of such a service begins that way. */
  lemma NewIsSurvived(name: string, u: Unit, pid: Pid, now: nat)
    requires !u.service.forking
    ensures Survived(NewSvc(name, u, Some(pid), now), u.service, 0, None, pid)
  {
  }

  // ----- the requests

  /** A reset forgets the failures and a pending restart, and touches nothing else: without a start the
      service then stays as it is, and a running one has its whole allowance again. */
  lemma ResetForgets(s: Svc, now: nat)
    ensures Step(s, ResetFailed(now)) == s.(failCount := 0, firstFailureAt := None, nextRestartAt := None)
    ensures FailureNumber(Step(s, ResetFailed(now)), now) == 1
  {
  }

  /** A start leaves an instance alone that has a process; any other gets a new one, its whole allowance
      and, if it forks, the time to become a daemon. */
  lemma StartSpawnsAnew(s: Svc, now: nat, spawned: Option<Pid>)
    ensures var after := Step(s, Start(now, spawned));
      if s.child.Some? || s.trackedPid.Some? then after == s
      else
        && after.child == spawned && after.trackedPid.None? && !after.stopped
        && after.failCount == 0 && after.firstFailureAt.None? && after.nextRestartAt.None?
        && after.active == s.active
        && (s.service.forking ==> after.waitingDaemonize == spawned.Some?)
        && (s.service.forking && spawned.Some? ==>
              after.daemonizeDeadline == Some(now + s.service.timeoutStartSec * 1_000_000_000))
  {
  }

  /** How instances begin: a forking service waits for its child to become a daemon, a oneshot has no
      process and is active if it remains so after its exit. */
  lemma Beginnings(name: string, u: Unit, child: Option<Pid>, now: nat)
    ensures var s := NewSvc(name, u, child, now);
      && s.name == name && s.partOf == u.partOf && s.service == u.service && s.child == child
      && !s.active && !s.stopped && s.trackedPid.None? && s.nextRestartAt.None? && s.failCount == 0
      && s.waitingDaemonize == (u.service.forking && child.Some?)
      && s.daemonizeDeadline == if u.service.forking && child.Some?
                                then Some(now + u.service.timeoutStartSec * 1_000_000_000) else None
    ensures OneshotSvc(name, u).child.None? && OneshotSvc(name, u).active == u.service.remainAfterExit
  {
  }
}
