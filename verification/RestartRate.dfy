/** The restart rate limit of `schedule_restart` over whole runs
    (src/applets/core/init/services.rs). */
module RestartRate {
  import opened Prelude
  import opened Units
  import opened Services
  import opened Lifecycle

  /** The exit that the event reports to `schedule_restart`, if it does. */
  datatype Exit = NoExit | Reported(state: Svc, failed: bool)

  function ExitOf(s: Svc, e: Event): Exit {
    match e
    case MainLoop(now, wait, _, _, down) =>
      if s.child.None? then NoExit
      else if s.waitingDaemonize then
        if wait.StillRunning? && s.daemonizeDeadline.Some? && now >= s.daemonizeDeadline.value
        then Reported(s.(child := None, waitingDaemonize := false, daemonizeDeadline := None), true)
        else NoExit
      else if wait.StillRunning? then NoExit
      else
        var failed := wait.Exited? && !ExitIsSuccess(s.service, wait.code);
        var gone := s.(child := None, active := s.active || (!failed && s.service.remainAfterExit));
        if gone.active then NoExit else Reported(gone, failed)
    case Reap(_, pid, failed, _, _) =>
      if s.trackedPid == Some(pid) then Reported(s.(trackedPid := None), failed) else NoExit
    case _ => NoExit
  }

  /** The event sets a new restart time. */
  predicate Schedules(s: Svc, e: Event) {
    var exit := ExitOf(s, e);
    exit.Reported? && (e.MainLoop? || e.Reap?) && Reschedules(exit.state, e.now, exit.failed, e.shuttingDown)
  }

  /** No control request that resets the counter, only failing exits, and time does not go back. */
  ghost predicate FailingRun(s: Svc, events: seq<Event>, from: nat)
    decreases |events|
  {
    events != [] ==>
      && !events[0].Start? && !events[0].ResetFailed?
      && from <= events[0].now
      && (ExitOf(s, events[0]).Reported? ==> ExitOf(s, events[0]).failed)
      && FailingRun(Step(s, events[0]), events[1..], events[0].now)
  }

  /** The number of restarts scheduled at times between `lo` and `hi`. */
  ghost function Scheduled(s: Svc, events: seq<Event>, lo: nat, hi: nat): nat
    decreases |events|
  {
    if events == [] then 0
    else
      (if Schedules(s, events[0]) && lo <= events[0].now <= hi then 1 else 0)
      + Scheduled(Step(s, events[0]), events[1..], lo, hi)
  }

  /** A restart time appears only through the events counted here, and is RestartSec after
      the exit. */
  lemma ScheduledIsComplete(s: Svc, e: Event)
    requires Coherent(s)
    ensures s.nextRestartAt.None? && Step(s, e).nextRestartAt.Some? ==>
      Schedules(s, e) && Step(s, e).nextRestartAt.value == e.now + Secs(s.service.restartSec)
    ensures Schedules(s, e) && Step(s, e).nextRestartAt.None? ==> Respawns(s, e) && s.service.restartSec == 0
  {
  }

  /** The counter after the event: only a reported exit touches it. */
  function CounterAfter(s: Svc, e: Event): Svc {
    var exit := ExitOf(s, e);
    if exit.Reported? then CountExit(s, e.now, exit.failed) else s
  }

  /** The two states agree on what the counter is made of. */
  predicate SameCounter(s: Svc, t: Svc) {
    s.failCount == t.failCount && s.firstFailureAt == t.firstFailureAt && s.service == t.service
  }

  lemma ExitCounter(s: Svc, now: nat, failed: bool, shuttingDown: bool)
    ensures SameCounter(AfterExit(s, now, failed, shuttingDown), CountExit(s, now, failed))
  {
  }

  lemma WaitCounter(s: Svc, now: nat, wait: Wait, shuttingDown: bool)
    requires !s.waitingDaemonize
    ensures SameCounter(AfterWait(s, now, wait, shuttingDown),
                        CounterAfter(s, MainLoop(now, wait, None, None, shuttingDown)))
  {
    var exit := ExitOf(s, MainLoop(now, wait, None, None, shuttingDown));
    if exit.Reported? {
      ExitCounter(exit.state, now, exit.failed, shuttingDown);
      assert AfterWait(s, now, wait, shuttingDown) == AfterExit(exit.state, now, exit.failed, shuttingDown);
    }
  }

  lemma RespawnCounter(s: Svc, now: nat, spawned: Option<Pid>)
    ensures SameCounter(AfterRespawn(s.(nextRestartAt := None), now, spawned), s)
  {
  }

  lemma DaemonizeCounter(s: Svc, now: nat, wait: Wait, pidInFile: Option<Pid>, shuttingDown: bool)
    requires s.waitingDaemonize
    ensures SameCounter(AfterDaemonizeWait(s, now, wait, pidInFile, shuttingDown),
                        CounterAfter(s, MainLoop(now, wait, pidInFile, None, shuttingDown)))
  {
    var exit := ExitOf(s, MainLoop(now, wait, pidInFile, None, shuttingDown));
    if exit.Reported? {
      ExitCounter(exit.state, now, exit.failed, shuttingDown);
      assert AfterDaemonizeWait(s, now, wait, pidInFile, shuttingDown)
          == AfterExit(exit.state, now, true, shuttingDown);
    }
  }

  lemma CounterStep(s: Svc, e: Event)
    requires !e.Start? && !e.ResetFailed?
    ensures SameCounter(Step(s, e), CounterAfter(s, e))
  {
    match e
    case MainLoop(now, wait, pidInFile, spawned, down) =>
      if s.waitingDaemonize {
        DaemonizeCounter(s, now, wait, pidInFile, down);
        assert CounterAfter(s, e) == CounterAfter(s, MainLoop(now, wait, pidInFile, None, down));
      } else {
        WaitCounter(s, now, wait, down);
        RespawnCounter(AfterWait(s, now, wait, down), now, spawned);
        assert CounterAfter(s, e) == CounterAfter(s, MainLoop(now, wait, None, None, down));
      }
    case Reap(now, pid, failed, pidInFile, down) =>
      if s.trackedPid == Some(pid) {
        ExitCounter(s.(trackedPid := None), now, failed, down);
      }
    case Stop(_) =>
  }

  // ----- counting windows

  /** How many windows, each at least `interval` after the one before, can start between
      `at` and `hi`. */
  function Windows(at: nat, hi: nat, interval: nat): nat
    requires interval > 0
    decreases hi - at
  {
    if at > hi then 0 else 1 + Windows(at + interval, hi, interval)
  }

  lemma {:induction false} WindowsMonotone(at: nat, later: nat, hi: nat, interval: nat)
    requires interval > 0 && at <= later
    ensures Windows(later, hi, interval) <= Windows(at, hi, interval)
    decreases hi - at
  {
    if later <= hi {
      WindowsMonotone(at + interval, later + interval, hi, interval);
    }
  }

  lemma {:induction false} WindowsBound(at: nat, hi: nat, interval: nat, n: nat)
    requires interval > 0 && hi < at + (n + 1) * interval
    ensures Windows(at, hi, interval) <= n + 1
    decreases n
  {
    if at <= hi {
      if n == 0 {
        assert at + interval > hi;
      } else {
        assert (n + 1) * interval == n * interval + interval;
        WindowsBound(at + interval, hi, interval, n - 1);
      }
    }
  }

  /** Restarts the window that is open still allows. */
  function Left(s: Svc): nat {
    if s.failCount == 0 || s.failCount >= s.service.startLimitBurst then 0
    else s.service.startLimitBurst - s.failCount
  }

  /** The earliest time at which the counter can start over. */
  function NextWindow(s: Svc, from: nat): nat {
    if s.firstFailureAt.None? then from
    else
      var end := s.firstFailureAt.value + Secs(s.service.startLimitIntervalSec);
      if from < end then end else from
  }

  /** An upper bound on the restarts scheduled from `from` to `hi`. */
  function Allowance(s: Svc, from: nat, hi: nat): nat
    requires s.service.startLimitIntervalSec > 0
  {
    Left(s) + s.service.startLimitBurst * Windows(NextWindow(s, from), hi, Secs(s.service.startLimitIntervalSec))
  }

  ghost predicate CounterCoherent(s: Svc) {
    s.failCount == 0 <==> s.firstFailureAt.None?
  }

  lemma MulMonotone(m: nat, a: nat, b: nat)
    requires a <= b
    ensures m * a <= m * b
  {
  }

  /** A failing exit that opens a window uses up one of the windows still to come. */
  lemma NewWindowPays(s: Svc, after: Svc, now: nat, from: nat, hi: nat)
    requires s.service.startLimitIntervalSec > 0 && after.service == s.service
    requires NextWindow(s, from) <= now <= hi
    requires after.failCount == 1 && after.firstFailureAt == Some(now)
    ensures (if after.failCount <= s.service.startLimitBurst then 1 else 0) + Allowance(after, now, hi)
            <= Allowance(s, from, hi)
  {
    var burst := s.service.startLimitBurst;
    var interval := Secs(s.service.startLimitIntervalSec);
    WindowsMonotone(NextWindow(s, from), now, hi, interval);
    var next := Windows(now + interval, hi, interval);
    assert NextWindow(after, now) == now + interval;
    MulMonotone(burst, 1 + next, Windows(NextWindow(s, from), hi, interval));
    assert burst * (1 + next) == burst + burst * next;
  }

  /** Otherwise a restart is paid for by what the open window has left. */
  lemma OpenWindowPays(s: Svc, after: Svc, now: nat, from: nat, hi: nat, cost: nat)
    requires s.service.startLimitIntervalSec > 0 && after.service == s.service
    requires from <= now && after.firstFailureAt == s.firstFailureAt
    requires cost + Left(after) <= Left(s)
    ensures cost + Allowance(after, now, hi) <= Allowance(s, from, hi)
  {
    var burst := s.service.startLimitBurst;
    var interval := Secs(s.service.startLimitIntervalSec);
    WindowsMonotone(NextWindow(s, from), NextWindow(after, now), hi, interval);
    MulMonotone(burst, Windows(NextWindow(after, now), hi, interval), Windows(NextWindow(s, from), hi, interval));
  }

  /** What an event schedules is paid for out of the allowance. */
  lemma AllowancePays(s: Svc, e: Event, from: nat, hi: nat)
    requires s.service.startLimitIntervalSec > 0 && CounterCoherent(s)
    requires !e.Start? && !e.ResetFailed? && from <= e.now <= hi
    requires ExitOf(s, e).Reported? ==> ExitOf(s, e).failed
    ensures CounterCoherent(Step(s, e))
    ensures (if Schedules(s, e) then 1 else 0) + Allowance(Step(s, e), e.now, hi) <= Allowance(s, from, hi)
  {
    CounterStep(s, e);
    var after := Step(s, e);
    assert SameCounter(after, CounterAfter(s, e));
    if ExitOf(s, e).Reported? {
      assert SameCounter(CounterAfter(s, e), CountExit(s, e.now, true));
      assert Schedules(s, e) ==> after.failCount <= s.service.startLimitBurst;
      if WindowExpired(s, e.now) || s.failCount == 0 {
        NewWindowPays(s, after, e.now, from, hi);
      } else {
        OpenWindowPays(s, after, e.now, from, hi, if Schedules(s, e) then 1 else 0);
      }
    } else {
      OpenWindowPays(s, after, e.now, from, hi, 0);
    }
  }

  lemma {:induction false} NothingAfter(s: Svc, events: seq<Event>, lo: nat, hi: nat, from: nat)
    requires FailingRun(s, events, from) && hi < from
    ensures Scheduled(s, events, lo, hi) == 0
    decreases |events|
  {
    if events != [] {
      NothingAfter(Step(s, events[0]), events[1..], lo, hi, events[0].now);
    }
  }

  lemma {:induction false} WithinAllowance(s: Svc, events: seq<Event>, lo: nat, hi: nat, from: nat)
    requires s.service.startLimitIntervalSec > 0 && CounterCoherent(s)
    requires FailingRun(s, events, from)
    ensures Scheduled(s, events, lo, hi) <= Allowance(s, from, hi)
    decreases |events|
  {
    if events != [] {
      var e := events[0];
      CounterStep(s, e);
      if e.now <= hi {
        AllowancePays(s, e, from, hi);
        WithinAllowance(Step(s, e), events[1..], lo, hi, e.now);
      } else {
        NothingAfter(Step(s, e), events[1..], lo, hi, e.now);
      }
    }
  }

  /** The rate limit: with failing exits only and no start or reset request, any span of length
      `span` schedules at most StartLimitBurst restarts for each full interval it holds and
      twice more. */
  lemma {:induction false} RestartRateBound(s: Svc, events: seq<Event>, lo: nat, span: nat, n: nat, from: nat)
    requires s.service.startLimitIntervalSec > 0 && CounterCoherent(s)
    requires FailingRun(s, events, from)
    requires span < (n + 1) * Secs(s.service.startLimitIntervalSec)
    ensures Scheduled(s, events, lo, lo + span) <= s.service.startLimitBurst * (n + 2)
    decreases |events|
  {
    if events != [] {
      var e := events[0];
      if e.now < lo {
        CounterStep(s, e);
        RestartRateBound(Step(s, e), events[1..], lo, span, n, e.now);
      } else {
        var interval := Secs(s.service.startLimitIntervalSec);
        var burst := s.service.startLimitBurst;
        assert FailingRun(s, events, e.now);
        WithinAllowance(s, events, lo, lo + span, e.now);
        WindowsMonotone(lo, NextWindow(s, e.now), lo + span, interval);
        WindowsBound(lo, lo + span, interval, n);
        MulMonotone(burst, Windows(NextWindow(s, e.now), lo + span, interval), n + 1);
        assert burst * (n + 2) == burst + burst * (n + 1);
      }
    }
  }

  /** The same with the number of full intervals divided out. */
  lemma RestartRateQuotient(s: Svc, events: seq<Event>, lo: nat, span: nat, from: nat)
    requires s.service.startLimitIntervalSec > 0 && CounterCoherent(s)
    requires FailingRun(s, events, from)
    ensures Scheduled(s, events, lo, lo + span)
            <= s.service.startLimitBurst * (span / Secs(s.service.startLimitIntervalSec) + 2)
  {
    var interval := Secs(s.service.startLimitIntervalSec);
    var n := span / interval;
    assert span == interval * n + span % interval;
    assert (n + 1) * interval == interval * n + interval;
    RestartRateBound(s, events, lo, span, n, from);
  }

  /** From the start of the instance: after any events `prior`, whatever they were, the limit holds
      for every run of failing exits that follows. */
  lemma RestartRateFromStart(start: Svc, name: string, u: Unit, prior: seq<Event>, events: seq<Event>,
                             lo: nat, span: nat, from: nat)
    requires Begins(start, name, u) && u.service.startLimitIntervalSec > 0
    requires FailingRun(Lifecycle.Run(start, prior), events, from)
    ensures Scheduled(Lifecycle.Run(start, prior), events, lo, lo + span)
            <= u.service.startLimitBurst * (span / Secs(u.service.startLimitIntervalSec) + 2)
  {
    BeginsCoherent(start, name, u);
    RunCoherent(start, prior);
    RestartRateQuotient(Lifecycle.Run(start, prior), events, lo, span, from);
  }
}
