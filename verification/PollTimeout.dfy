/** The poll timeout of the main loop: `compute_next_timeout` and the timer, path and watchdog
    limits put on it (src/applets/core/init/mod.rs, src/applets/core/init/watchdog.rs). */
module PollTimeout {
  import opened Prelude
  import opened Services
  import opened Units
  import opened Lifecycle

  const NANOS_PER_MS := 1_000_000
  const I32_MAX := 0x7fff_ffff
  const PATH_POLL_MS := 1000
  const FOREVER := -1

  /** Whole milliseconds, cut off at the largest 32-bit integer. */
  function ClampMs(nanos: nat): (ms: int)
    ensures 0 <= ms <= I32_MAX
  {
    var ms := nanos / NANOS_PER_MS;
    if ms < I32_MAX then ms else I32_MAX
  }

  /** The time left until `at`, 0 once it has passed. */
  function Remaining(at: nat, now: nat): nat {
    if at < now then 0 else at - now
  }

  /** `at` is among the deadlines, and none of them comes before it. */
  ghost predicate Earliest(deadlines: set<nat>, at: nat) {
    at in deadlines && forall d :: d in deadlines ==> at <= d
  }

  /** The timeout that sleeps exactly up to the earliest of the deadlines, in whole
      milliseconds; `FOREVER` if there is none. */
  ghost predicate SleepsUntil(deadlines: set<nat>, now: nat, timeout: int) {
    if deadlines == {} then timeout == FOREVER
    else exists at :: Earliest(deadlines, at) && timeout == ClampMs(Remaining(at, now))
  }

  /** The times at which an instance has to be looked at again. */
  function DeadlinesOf(s: Svc): set<nat> {
    (if s.nextRestartAt.Some? then {s.nextRestartAt.value} else {})
    + (if s.waitingDaemonize && s.daemonizeDeadline.Some? then {s.daemonizeDeadline.value} else {})
  }

  function ServiceDeadlines(services: seq<Svc>): set<nat> {
    set i, at | 0 <= i < |services| && at in DeadlinesOf(services[i]) :: at
  }

  lemma ServiceDeadlinesGrow(services: seq<Svc>, i: nat)
    requires i < |services|
    ensures ServiceDeadlines(services[..i + 1]) == ServiceDeadlines(services[..i]) + DeadlinesOf(services[i])
  {
    assert services[..i + 1] == services[..i] + [services[i]];
    forall at | at in ServiceDeadlines(services[..i]) ensures at in ServiceDeadlines(services[..i + 1]) {
      var j :| 0 <= j < i && at in DeadlinesOf(services[..i][j]);
      assert at in DeadlinesOf(services[..i + 1][j]);
    }
    forall at | at in DeadlinesOf(services[i]) ensures at in ServiceDeadlines(services[..i + 1]) {
      assert at in DeadlinesOf(services[..i + 1][i]);
    }
  }

  /** `earliest` holds the remaining time of the earliest of the deadlines seen. */
  ghost predicate EarliestSeen(deadlines: set<nat>, now: nat, earliest: Option<nat>) {
    match earliest
    case None => deadlines == {}
    case Some(d) => exists at :: Earliest(deadlines, at) && d == Remaining(at, now)
  }

  function MinWith(earliest: Option<nat>, d: nat): Option<nat> {
    match earliest
    case None => Some(d)
    case Some(e) => if d < e then Some(d) else Some(e)
  }

  lemma OneMoreDeadline(deadlines: set<nat>, now: nat, earliest: Option<nat>, at: nat)
    requires EarliestSeen(deadlines, now, earliest)
    ensures EarliestSeen(deadlines + {at}, now, MinWith(earliest, Remaining(at, now)))
  {
    if earliest.None? || deadlines == {} {
      assert Earliest(deadlines + {at}, at);
    } else {
      var e :| Earliest(deadlines, e) && earliest.value == Remaining(e, now);
      assert Earliest(deadlines + {at}, if at < e then at else e);
    }
  }

  method ComputeNextTimeout(services: seq<Svc>, now: nat) returns (timeout: int)
    ensures SleepsUntil(ServiceDeadlines(services), now, timeout)
  {
    var earliest: Option<nat> := None;
    for i := 0 to |services|
      invariant EarliestSeen(ServiceDeadlines(services[..i]), now, earliest)
    {
      ServiceDeadlinesGrow(services, i);
      var s := services[i];
      ghost var seen := ServiceDeadlines(services[..i]);
      if s.nextRestartAt.Some? {
        OneMoreDeadline(seen, now, earliest, s.nextRestartAt.value);
        seen := seen + {s.nextRestartAt.value};
        earliest := MinWith(earliest, Remaining(s.nextRestartAt.value, now));
      }
      if s.waitingDaemonize && s.daemonizeDeadline.Some? {
        OneMoreDeadline(seen, now, earliest, s.daemonizeDeadline.value);
        seen := seen + {s.daemonizeDeadline.value};
        earliest := MinWith(earliest, Remaining(s.daemonizeDeadline.value, now));
      }
      assert seen == ServiceDeadlines(services[..i + 1]);
    }
    assert services[..|services|] == services;
    timeout := match earliest case None => FOREVER case Some(d) => ClampMs(d);
  }

  /** The smaller of two timeouts, where `FOREVER` limits nothing. */
  function Sooner(timeout: int, ms: int): int {
    if timeout == FOREVER || ms < timeout then ms else timeout
  }

  lemma ClampMonotone(a: nat, b: nat)
    requires a <= b
    ensures ClampMs(a) <= ClampMs(b)
  {
  }

  /** Taking a further deadline into account in milliseconds is taking it into account exactly. */
  lemma SoonerIsExact(deadlines: set<nat>, now: nat, timeout: int, at: nat)
    requires SleepsUntil(deadlines, now, timeout)
    ensures SleepsUntil(deadlines + {at}, now, Sooner(timeout, ClampMs(Remaining(at, now))))
  {
    if deadlines == {} {
      assert Earliest(deadlines + {at}, at);
    } else {
      var e :| Earliest(deadlines, e) && timeout == ClampMs(Remaining(e, now));
      if at < e {
        ClampMonotone(Remaining(at, now), Remaining(e, now));
        assert Earliest(deadlines + {at}, at);
      } else {
        ClampMonotone(Remaining(e, now), Remaining(at, now));
        assert Earliest(deadlines + {at}, e);
      }
    }
  }

  /** The watchdog device and when it was last fed. */
  datatype Watchdog = Inactive | Active(lastFeed: nat, interval: nat)

  /** `watchdog_poll_timeout` */
  function WatchdogPollTimeout(current: int, now: nat, w: Watchdog): int {
    match w
    case Inactive => current
    case Active(lastFeed, interval) =>
      var since := Remaining(now, lastFeed);
      var remain := if since >= interval then 0 else ClampMs(interval - since);
      if current < 0 || remain < current then remain else current
  }

  function Set(s: seq<nat>): set<nat> {
    set at | at in s
  }

  function PathDeadlines(watchesPaths: bool, now: nat): set<nat> {
    if watchesPaths then {now + PATH_POLL_MS * NANOS_PER_MS} else {}
  }

  function WatchdogDeadlines(w: Watchdog): set<nat> {
    match w case Inactive => {} case Active(lastFeed, interval) => {lastFeed + interval}
  }

  /** All that the main loop may not oversleep. */
  function Deadlines(services: seq<Svc>, timers: seq<nat>, watchesPaths: bool, now: nat, w: Watchdog): set<nat> {
    ServiceDeadlines(services) + Set(timers) + PathDeadlines(watchesPaths, now) + WatchdogDeadlines(w)
  }

  /** The loop over the timers. */
  method LimitByTimers(current: int, timers: seq<nat>, now: nat, ghost deadlines: set<nat>) returns (timeout: int)
    requires SleepsUntil(deadlines, now, current)
    ensures SleepsUntil(deadlines + Set(timers), now, timeout)
  {
    timeout := current;
    assert deadlines + Set(timers[..0]) == deadlines;
    for i := 0 to |timers|
      invariant SleepsUntil(deadlines + Set(timers[..i]), now, timeout)
    {
      SoonerIsExact(deadlines + Set(timers[..i]), now, timeout, timers[i]);
      assert timers[..i + 1] == timers[..i] + [timers[i]];
      assert deadlines + Set(timers[..i]) + {timers[i]} == deadlines + Set(timers[..i + 1]);
      timeout := Sooner(timeout, ClampMs(Remaining(timers[i], now)));
    }
    assert timers[..|timers|] == timers;
  }

  method LimitByPaths(current: int, watchesPaths: bool, now: nat, ghost deadlines: set<nat>) returns (timeout: int)
    requires SleepsUntil(deadlines, now, current)
    ensures SleepsUntil(deadlines + PathDeadlines(watchesPaths, now), now, timeout)
  {
    timeout := current;
    if watchesPaths {
      ghost var pathPoll := now + PATH_POLL_MS * NANOS_PER_MS;
      SoonerIsExact(deadlines, now, timeout, pathPoll);
      assert ClampMs(Remaining(pathPoll, now)) == PATH_POLL_MS;
      timeout := Sooner(timeout, PATH_POLL_MS);
    } else {
      assert deadlines + PathDeadlines(watchesPaths, now) == deadlines;
    }
  }

  lemma WatchdogIsExact(deadlines: set<nat>, now: nat, timeout: int, w: Watchdog)
    requires SleepsUntil(deadlines, now, timeout) && w.Active? && w.lastFeed <= now
    ensures SleepsUntil(deadlines + {w.lastFeed + w.interval}, now, WatchdogPollTimeout(timeout, now, w))
  {
    SoonerIsExact(deadlines, now, timeout, w.lastFeed + w.interval);
    assert WatchdogPollTimeout(timeout, now, w) == Sooner(timeout, ClampMs(Remaining(w.lastFeed + w.interval, now)));
  }

  lemma LimitByWatchdog(deadlines: set<nat>, now: nat, timeout: int, w: Watchdog)
    requires SleepsUntil(deadlines, now, timeout) && (w.Active? ==> w.lastFeed <= now)
    ensures SleepsUntil(deadlines + WatchdogDeadlines(w), now, WatchdogPollTimeout(timeout, now, w))
  {
    if w.Active? {
      WatchdogIsExact(deadlines, now, timeout, w);
    } else {
      assert deadlines + WatchdogDeadlines(w) == deadlines;
    }
  }

  /** The timeout handed to `poll`: exactly the time to the earliest deadline of a restart, a
      daemonize wait, a timer, the path polling and the watchdog, rounded down to milliseconds
      and clamped, and endless exactly if there is none. */
  method NextPollTimeout(services: seq<Svc>, timers: seq<nat>, watchesPaths: bool, now: nat, w: Watchdog)
    returns (timeout: int)
    requires w.Active? ==> w.lastFeed <= now
    ensures SleepsUntil(Deadlines(services, timers, watchesPaths, now, w), now, timeout)
  {
    timeout := ComputeNextTimeout(services, now);
    timeout := LimitByTimers(timeout, timers, now, ServiceDeadlines(services));
    ghost var seen := ServiceDeadlines(services) + Set(timers);
    timeout := LimitByPaths(timeout, watchesPaths, now, seen);
    seen := seen + PathDeadlines(watchesPaths, now);
    LimitByWatchdog(seen, now, timeout, w);
    timeout := WatchdogPollTimeout(timeout, now, w);
  }

  /** Sleeping for the timeout ends before, or within the millisecond of, every deadline. */
  lemma NothingOverslept(deadlines: set<nat>, now: nat, timeout: int, at: nat)
    requires SleepsUntil(deadlines, now, timeout) && at in deadlines
    ensures 0 <= timeout && (now <= at ==> now + timeout * NANOS_PER_MS <= at)
    ensures at <= now ==> timeout == 0
  {
    var e :| Earliest(deadlines, e) && timeout == ClampMs(Remaining(e, now));
  }

  /** A stopped instance that still had a restart or daemonize deadline makes the loop spin: once
      the deadline has passed, every poll of every run without a start or reset returns at once. */
  lemma {:induction false} StoppedInstanceSpins(s: Svc, events: seq<Event>, at: nat, services: seq<Svc>,
                                                now: nat, timeout: int)
    requires Coherent(s) && WakesAt(s, at)
    requires events != [] && events[0].Stop?
    requires forall i :: 0 < i < |events| ==> !events[i].Start? && !events[i].ResetFailed?
    requires Lifecycle.Run(s, events) in services && at <= now
    requires SleepsUntil(ServiceDeadlines(services), now, timeout)
    ensures timeout == 0
  {
    StopKeepsDeadlines(s, events, at);
    var i :| 0 <= i < |services| && services[i] == Lifecycle.Run(s, events);
    assert at in DeadlinesOf(services[i]);
    NothingOverslept(ServiceDeadlines(services), now, timeout, at);
  }

  /** From the start of the instance, whatever happened before the stop. */
  lemma SpinsFromStart(start: Svc, name: string, u: Unit, prior: seq<Event>, events: seq<Event>, at: nat,
                       services: seq<Svc>, now: nat, timeout: int)
    requires Begins(start, name, u) && WakesAt(Lifecycle.Run(start, prior), at)
    requires events != [] && events[0].Stop?
    requires forall i :: 0 < i < |events| ==> !events[i].Start? && !events[i].ResetFailed?
    requires Lifecycle.Run(Lifecycle.Run(start, prior), events) in services && at <= now
    requires SleepsUntil(ServiceDeadlines(services), now, timeout)
    ensures timeout == 0
  {
    BeginsCoherent(start, name, u);
    RunCoherent(start, prior);
    StoppedInstanceSpins(Lifecycle.Run(start, prior), events, at, services, now, timeout);
  }

  const RESTARTING :=
    Unit(false, [], [], [], [], [], [], [], [], PLAIN_SERVICE.(restart := RestartAlways))

  /** It happens: a service with Restart=always fails and is stopped before its restart is due.
      From that time on, the stopped instance without a process makes every poll return at once. */
  lemma FailThenStopSpins(failedAt: nat, services: seq<Svc>, now: nat, timeout: int)
    requires var events := [MainLoop(failedAt, Exited(Some(1)), None, None, false), Stop(failedAt)];
             Lifecycle.Run(NewSvc("a", RESTARTING, Some(1), 0), events) in services
    requires failedAt + Secs(RESTARTING.service.restartSec) <= now
    requires SleepsUntil(ServiceDeadlines(services), now, timeout)
    ensures timeout == 0
    ensures exists s :: s in services && s.name == "a" && s.stopped && !s.Live()
  {
    var start := NewSvc("a", RESTARTING, Some(1), 0);
    var fail, stop := MainLoop(failedAt, Exited(Some(1)), None, None, false), Stop(failedAt);
    assert [fail, stop][1..] == [stop] && [fail][1..] == [];
    assert Lifecycle.Run(start, [fail]) == Step(start, fail);
    assert Lifecycle.Run(start, [fail, stop]) == Lifecycle.Run(Step(start, fail), [stop]);
    SpinsFromStart(start, "a", RESTARTING, [fail], [stop], failedAt + Secs(RESTARTING.service.restartSec),
                   services, now, timeout);
  }

  /** Nor does it end long before: up to the 24 days that the argument of `poll` can hold, it ends within
      the millisecond before the earliest deadline. */
  lemma NotWokenEarly(deadlines: set<nat>, now: nat, timeout: int, at: nat)
    requires SleepsUntil(deadlines, now, timeout) && at in deadlines && forall d :: d in deadlines ==> at <= d
    requires at - now < 0x7fff_ffff * 1_000_000
    ensures at < now + (timeout + 1) * 1_000_000
  {
    var e :| Earliest(deadlines, e) && timeout == ClampMs(Remaining(e, now));
    assert e == at;
  }

  /** While paths are watched the loop looks at them at least once a second. */
  lemma PathsEverySecond(services: seq<Svc>, timers: seq<nat>, now: nat, w: Watchdog, timeout: int)
    requires SleepsUntil(Deadlines(services, timers, true, now, w), now, timeout)
    ensures 0 <= timeout <= 1000
  {
    var deadlines := Deadlines(services, timers, true, now, w);
    var poll := now + 1000 * 1_000_000;
    assert poll in deadlines;
    NothingOverslept(deadlines, now, timeout, poll);
  }
}
