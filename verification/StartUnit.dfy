/** `start_unit`: the commands that start one unit, the stop after a failed ExecStartPost, and the
    deadlines by which its thread can die (src/applets/core/init/mod.rs, src/applets/core/init/services.rs). */
module StartUnit {
  import opened Graphs
  import opened Prelude
  import opened Units
  import opened Depths
  import opened Boot
  import opened BootSafety
  import Services

  /** The last instant that the clock can represent: seconds are 64 bits with a sign. Adding a
      duration beyond it is a panic. */
  const LAST_INSTANT: nat := 0x8000_0000_0000_0000 * Services.NANOS_PER_SEC - 1

  predicate TooLate(now: nat, secs: nat) {
    now + Services.Secs(secs) > LAST_INSTANT
  }

  /** What the world makes of one command: whether it can be spawned, the time when its deadline is
      set, and the exit code, if any before that deadline. */
  datatype Command = Command(spawned: bool, now: nat, code: Option<int>)

  /** The same for a stop: `childAt` is the time when the deadline for the exit of the child is set. */
  datatype StopWorld = StopWorld(execStop: Command, childAt: nat, stopPost: nat -> Command)

  datatype StartWorld = StartWorld(conditionMet: bool, pre: nat -> Command, main: Command, post: nat -> Command,
                                   stop: StopWorld)

  /** Seconds that ExecStop and each ExecStopPost may take. */
  const EXEC_COMMAND_TIMEOUT := 5

  function AtLeastOne(secs: nat): nat {
    if secs == 0 then 1 else secs
  }

  /** The deadline of a command that may take so many seconds lies beyond the last instant. */
  predicate CommandDies(c: Command, timeout: nat) {
    c.spawned && TooLate(c.now, AtLeastOne(timeout))
  }

  predicate SyncDies(s: Service, c: Command) {
    CommandDies(c, s.timeoutStartSec)
  }

  predicate SyncSucceeds(s: Service, c: Command) {
    c.spawned && Services.ExitIsSuccess(s, c.code)
  }

  /** The outcome to which the commands from `k` to `n` cut the start short, if they do. */
  function CutShort(s: Service, commands: nat -> Command, k: nat, n: nat): (cut: Option<Outcome>)
    ensures cut.Some? ==> cut.value.Panicked? || cut.value.StartFailed?
    decreases n - k
  {
    if k >= n then None
    else if SyncDies(s, commands(k)) then Some(Panicked)
    else if !SyncSucceeds(s, commands(k)) then Some(StartFailed)
    else CutShort(s, commands, k + 1, n)
  }

  /** The main command alone: what it cuts short, or the instance. */
  function MainOutcome(s: Service, c: Command): Outcome {
    if s.oneshot then
      if SyncDies(s, c) then Panicked else if SyncSucceeds(s, c) then Spawned(false) else StartFailed
    else if !c.spawned then StartFailed
    else if s.forking && TooLate(c.now, s.timeoutStartSec) then Panicked
    else Spawned(true)
  }

  predicate StopPostDies(s: Service, stop: StopWorld) {
    exists k :: 0 <= k < s.execStopPost && CommandDies(stop.stopPost(k), EXEC_COMMAND_TIMEOUT)
  }

  /** Some deadline of a stop lies beyond the last instant. */
  predicate StopDies(s: Service, stop: StopWorld) {
    || (s.execStop && CommandDies(stop.execStop, EXEC_COMMAND_TIMEOUT))
    || TooLate(stop.childAt, AtLeastOne(s.timeoutStopSec))
    || StopPostDies(s, stop)
  }

  /** What the commands after the main one make of the start: a failure stops the instance again,
      unless it is that of a oneshot. */
  function PostOutcome(s: Service, w: StartWorld, main: Outcome): Outcome {
    match CutShort(s, w.post, 0, s.execStartPost)
    case None => main
    case Some(Panicked) => Panicked
    case Some(_) => if !s.oneshot && StopDies(s, w.stop) then Panicked else StartFailed
  }

  function StartOutcome(u: Unit, w: StartWorld): Outcome {
    var s := u.service;
    var pre, main := CutShort(s, w.pre, 0, s.execStartPre), MainOutcome(s, w.main);
    if !w.conditionMet || !s.execStart then NoInstance
    else if pre.Some? then pre.value
    else if !main.Spawned? then main
    else PostOutcome(s, w, main)
  }

  // ----- the code

  /** `run_command_sync`; `died` is a panic in it. */
  method RunCommandSync(s: Service, c: Command, timeout: nat) returns (died: bool, code: Option<int>)
    ensures died == CommandDies(c, timeout)
    ensures !died ==> (Services.ExitIsSuccess(s, code) <==> SyncSucceeds(s, c))
  {
    if !c.spawned {
      return false, None;
    }
    if c.now + Services.Secs(AtLeastOne(timeout)) > LAST_INSTANT {
      return true, None;
    }
    return false, c.code;
  }

  /** `stop_service_instance` for an instance that has a child and no tracked daemon. */
  method StopInstance(s: Service, stop: StopWorld) returns (died: bool)
    ensures died == StopDies(s, stop)
  {
    if s.execStop {
      var late, _ := RunCommandSync(s, stop.execStop, EXEC_COMMAND_TIMEOUT);
      if late {
        return true;
      }
    }
    if stop.childAt + Services.Secs(AtLeastOne(s.timeoutStopSec)) > LAST_INSTANT {
      return true;
    }
    for k := 0 to s.execStopPost
      invariant forall j :: 0 <= j < k ==> !CommandDies(stop.stopPost(j), EXEC_COMMAND_TIMEOUT)
    {
      var late, _ := RunCommandSync(s, stop.stopPost(k), EXEC_COMMAND_TIMEOUT);
      if late {
        return true;
      }
    }
    died := false;
  }

  /** The loops over ExecStartPre and ExecStartPost. */
  method RunCommands(s: Service, commands: nat -> Command, n: nat) returns (cut: Option<Outcome>)
    ensures cut == CutShort(s, commands, 0, n)
  {
    for k := 0 to n
      invariant CutShort(s, commands, k, n) == CutShort(s, commands, 0, n)
    {
      var died, code := RunCommandSync(s, commands(k), s.timeoutStartSec);
      if died {
        return Some(Panicked);
      }
      if !Services.ExitIsSuccess(s, code) {
        return Some(StartFailed);
      }
    }
    cut := None;
  }

  method RunMain(s: Service, c: Command) returns (o: Outcome)
    ensures o == MainOutcome(s, c)
  {
    if s.oneshot {
      var died, code := RunCommandSync(s, c, s.timeoutStartSec);
      o := if died then Panicked else if Services.ExitIsSuccess(s, code) then Spawned(false) else StartFailed;
    } else if !c.spawned {
      o := StartFailed;
    } else if s.forking && c.now + Services.Secs(s.timeoutStartSec) > LAST_INSTANT {
      o := Panicked;
    } else {
      o := Spawned(true);
    }
  }

  method StartUnit(u: Unit, w: StartWorld) returns (o: Outcome)
    ensures o == StartOutcome(u, w)
  {
    if !w.conditionMet || !u.service.execStart {
      return NoInstance;
    }
    var pre := RunCommands(u.service, w.pre, u.service.execStartPre);
    if pre.Some? {
      return pre.value;
    }
    o := RunMain(u.service, w.main);
    if o.Spawned? {
      var post := RunCommands(u.service, w.post, u.service.execStartPost);
      if post.None? {
        return;
      }
      o := post.value;
      if o.StartFailed? && !u.service.oneshot {
        var died := StopInstance(u.service, w.stop);
        o := if died then Panicked else StartFailed;
      }
    }
  }

  // ----- when the thread dies

  /** The k-th command of a start: those before, the main one, those after. */
  function Nth(s: Service, w: StartWorld, k: nat): Command {
    if k < s.execStartPre then w.pre(k)
    else if k == s.execStartPre then w.main
    else w.post(k - s.execStartPre - 1)
  }

  function CommandCount(s: Service): nat {
    s.execStartPre + 1 + s.execStartPost
  }

  /** A service that neither forks nor is a oneshot gets no deadline for its main command, and its
      exit is not awaited. */
  predicate Awaited(s: Service, k: nat) {
    k != s.execStartPre || s.oneshot
  }

  predicate Goes(s: Service, w: StartWorld, k: nat) {
    var c := Nth(s, w, k);
    c.spawned && (Awaited(s, k) ==> Services.ExitIsSuccess(s, c.code))
  }

  predicate LateAt(s: Service, w: StartWorld, k: nat) {
    var c := Nth(s, w, k);
    && c.spawned && (Awaited(s, k) || s.forking)
    && TooLate(c.now, if Awaited(s, k) then AtLeastOne(s.timeoutStartSec) else s.timeoutStartSec)
  }

  /** The seconds after which a deadline lies: TimeoutStartSec and TimeoutStopSec, but at least one, and
      five for ExecStop and ExecStopPost. The clock ends at 2^63 seconds. */
  lemma DeadlinesInSeconds(s: Service, c: Command, stop: StopWorld)
    ensures SyncDies(s, c) <==>
      c.spawned && c.now + (if s.timeoutStartSec > 1 then s.timeoutStartSec else 1) * 1_000_000_000
                   >= 9_223_372_036_854_775_808 * 1_000_000_000
    ensures StopDies(s, stop) <==>
      || (s.execStop && stop.execStop.spawned
          && stop.execStop.now + 5_000_000_000 >= 9_223_372_036_854_775_808 * 1_000_000_000)
      || stop.childAt + (if s.timeoutStopSec > 1 then s.timeoutStopSec else 1) * 1_000_000_000
         >= 9_223_372_036_854_775_808 * 1_000_000_000
      || exists k :: 0 <= k < s.execStopPost && stop.stopPost(k).spawned
                     && stop.stopPost(k).now + 5_000_000_000 >= 9_223_372_036_854_775_808 * 1_000_000_000
  {
  }

  /** All commands before the k-th have been spawned and have gone well. */
  ghost predicate Reached(s: Service, w: StartWorld, k: nat) {
    forall j :: 0 <= j < k ==> Goes(s, w, j)
  }

  /** The k-th command is one of those after the main command of an instance with a process, it does
      not go well, and the stop that follows has a deadline beyond the last instant. */
  predicate LateStop(s: Service, w: StartWorld, k: nat) {
    k > s.execStartPre && !s.oneshot && !Goes(s, w, k) && StopDies(s, w.stop)
  }

  /** Some command is reached and spawned whose deadline lies beyond the last instant, or a command
      after the main one fails and a deadline of the stop lies there. */
  ghost predicate LateDeadline(u: Unit, w: StartWorld) {
    && w.conditionMet && u.service.execStart
    && exists k :: 0 <= k < CommandCount(u.service) && Reached(u.service, w, k)
                   && (LateAt(u.service, w, k) || LateStop(u.service, w, k))
  }

  /** The first of the commands from k on that dies, fails, or is not there. */
  lemma {:induction false} CutAt(s: Service, commands: nat -> Command, k: nat, n: nat) returns (i: nat)
    requires k <= n
    ensures k <= i <= n && forall j: nat :: k <= j < i ==> SyncSucceeds(s, commands(j)) && !SyncDies(s, commands(j))
    ensures CutShort(s, commands, k, n)
      == if i == n then None else if SyncDies(s, commands(i)) then Some(Panicked) else Some(StartFailed)
    ensures i < n ==> SyncDies(s, commands(i)) || !SyncSucceeds(s, commands(i))
    decreases n - k
  {
    if k == n || SyncDies(s, commands(k)) || !SyncSucceeds(s, commands(k)) {
      i := k;
    } else {
      i := CutAt(s, commands, k + 1, n);
    }
  }

  /** The command where the start ends: it dies there, fails there, or is through. */
  lemma StartEnds(u: Unit, w: StartWorld) returns (k: nat)
    requires w.conditionMet && u.service.execStart
    ensures var s := u.service;
      && k <= CommandCount(s)
      && (forall j :: 0 <= j < k ==> Goes(s, w, j) && !LateAt(s, w, j))
      && (k < CommandCount(s) ==> LateAt(s, w, k) || !Goes(s, w, k))
      && (StartOutcome(u, w) == Panicked <==> k < CommandCount(s) && (LateAt(s, w, k) || LateStop(s, w, k)))
      && (StartOutcome(u, w) == Spawned(!s.oneshot) <==> k == CommandCount(s))
      && StartOutcome(u, w) in {Panicked, StartFailed, Spawned(!s.oneshot)}
  {
    var s := u.service;
    var i := CutAt(s, w.pre, 0, s.execStartPre);
    assert forall j :: 0 <= j < s.execStartPre ==> Nth(s, w, j) == w.pre(j);
    k := i;
    if i == s.execStartPre {
      if MainOutcome(s, w.main).Spawned? {
        var l := CutAt(s, w.post, 0, s.execStartPost);
        forall j | s.execStartPre < j < s.execStartPre + 1 + l
          ensures Goes(s, w, j) && !LateAt(s, w, j)
        {
          assert Nth(s, w, j) == w.post(j - s.execStartPre - 1);
        }
        k := i + 1 + l;
      }
    }
  }

  /** A start thread dies exactly if a command is reached whose deadline lies beyond the last
      instant, or whose failure is followed by a stop with such a deadline. */
  lemma DiesIffLate(u: Unit, w: StartWorld)
    ensures StartOutcome(u, w) == Panicked <==> LateDeadline(u, w)
  {
    if w.conditionMet && u.service.execStart {
      var k := StartEnds(u, w);
      assert Reached(u.service, w, k);
      if l :| 0 <= l < CommandCount(u.service) && Reached(u.service, w, l)
              && (LateAt(u.service, w, l) || LateStop(u.service, w, l)) {
        assert l >= k;
        assert l > k ==> Goes(u.service, w, k);
      }
    }
  }

  /** All deadlines of a start and of the stop after it are set at `latest` or before. */
  ghost predicate ClockBefore(s: Service, w: StartWorld, latest: nat) {
    && (forall k :: 0 <= k < CommandCount(s) ==> Nth(s, w, k).now <= latest)
    && w.stop.execStop.now <= latest && w.stop.childAt <= latest
    && forall k :: 0 <= k < s.execStopPost ==> w.stop.stopPost(k).now <= latest
  }

  /** The timeouts counted from the latest reading of the clock still end at an instant: then no
      thread dies. Those of the stop only matter where an ExecStartPost can fail. */
  lemma SafeTimeoutNeverDies(u: Unit, w: StartWorld, latest: nat)
    requires ClockBefore(u.service, w, latest)
    requires !TooLate(latest, AtLeastOne(u.service.timeoutStartSec))
    requires u.service.execStartPost > 0 && !u.service.oneshot ==>
      !TooLate(latest, AtLeastOne(u.service.timeoutStopSec)) && !TooLate(latest, EXEC_COMMAND_TIMEOUT)
    ensures StartOutcome(u, w) != Panicked
  {
    DiesIffLate(u, w);
  }

  /** A plain service with the default TimeoutStartSec whose ExecStartPost fails. */
  const HUGE_STOP := PLAIN_SERVICE.(execStartPost := 1, timeoutStopSec := 0x7fff_ffff_ffff_ffff)

  /** One second after the machine has started: no deadline of a command is late, yet the thread dies
      when it stops the instance. */
  lemma FailedPostKillsThread(u: Unit, w: StartWorld)
    requires u.service == HUGE_STOP && w.conditionMet
    requires w.main.spawned && w.post(0) == Command(true, Services.NANOS_PER_SEC, Some(1))
    requires w.stop.childAt == Services.NANOS_PER_SEC
    ensures StartOutcome(u, w) == Panicked && forall k :: 0 <= k < CommandCount(u.service) ==> !LateAt(u.service, w, k)
  {
    assert TooLate(w.stop.childAt, AtLeastOne(u.service.timeoutStopSec));
  }

  // ----- booting with such starts

  function Starting(units: Table, world: Name -> StartWorld): Name -> Outcome {
    n => if n in units then StartOutcome(units[n], world(n)) else NoInstance
  }

  /** A unit of a finished layer has no entry exactly if it was started and came to a deadline beyond
      the last instant. */
  lemma NoEntryIffLate(units: Table, order: seq<Name>, depths: map<Name, nat>,
                       world: Name -> StartWorld, run: seq<State>, k: nat, d: Name)
    requires Ranked(units, order, depths) && BootRun(units, order, depths, Starting(units, world), run)
    requires k < |run| && d in order && depths[d] < k
    ensures d in units && (d !in run[k].ok <==> d in run[k].starts && LateDeadline(units[d], world(d)))
  {
    NoEntryIffDied(units, order, depths, Starting(units, world), run, k, d);
    DiesIffLate(units[d], world(d));
  }

  /** Of the loaded Requires of a root target that is reached, exactly those are not recorded true
      that were started and came to a deadline beyond the last instant. */
  lemma ReachedUnlessLate(units: Table, root: Name, order: seq<Name>, depths: map<Name, nat>,
                          world: Name -> StartWorld, run: seq<State>, d: Name)
    requires StartOrder(SortGraph(units), root, order) && Ranked(units, order, depths)
    requires depths.Keys == Nodes(order, units) && CompleteRun(units, order, depths, Starting(units, world), run)
    requires root in units && units[root].isTarget && RecordedTrue(run[|run| - 1].ok, root)
    requires d in units && d in units[root].required
    ensures RecordedTrue(run[|run| - 1].ok, d)
            <==> !(d in run[|run| - 1].starts && LateDeadline(units[d], world(d)))
  {
    ReachedUnlessDied(units, root, order, depths, Starting(units, world), run, d);
    DiesIffLate(units[d], world(d));
  }

  // ----- processes that the vector does not know

  /** The start comes to its main command and that leaves a process to supervise. */
  ghost predicate MainSpawned(u: Unit, w: StartWorld) {
    && w.conditionMet && u.service.execStart && !u.service.oneshot && w.main.spawned
    && Reached(u.service, w, u.service.execStartPre)
    && forall j :: 0 <= j < u.service.execStartPre ==> !LateAt(u.service, w, j)
  }

  /** A main process spawned at boot is in the vector, or `start_unit` itself has stopped it again
      because an ExecStartPost failed, exactly if its start thread came to no late deadline; any
      other one no later stop reaches. */
  lemma ListedUnlessLate(units: Table, order: seq<Name>, depths: map<Name, nat>,
                         world: Name -> StartWorld, run: seq<State>, k: nat, n: Name)
    requires Ranked(units, order, depths) && BootRun(units, order, depths, Starting(units, world), run)
    requires k < |run| && n in run[k].starts && n in units && MainSpawned(units[n], world(n))
    ensures n in NamesOf(run[k].services) || StartOutcome(units[n], world(n)) == StartFailed
            <==> !LateDeadline(units[n], world(n))
  {
    ListedIffSpawned(units, order, depths, Starting(units, world), run, k, n);
    DiesIffLate(units[n], world(n));
    var i := CutAt(units[n].service, world(n).pre, 0, units[n].service.execStartPre);
    assert i < units[n].service.execStartPre ==> Nth(units[n].service, world(n), i) == world(n).pre(i);
  }

  // ----- the outcome

  /** What comes of a start that no deadline ends: nothing to start, an instance if all commands go
      well, and a failure otherwise. */
  lemma OutcomeOfCommands(u: Unit, w: StartWorld)
    requires !LateDeadline(u, w)
    ensures var s := u.service;
      StartOutcome(u, w)
      == if !w.conditionMet || !s.execStart then NoInstance
         else if forall k :: 0 <= k < CommandCount(s) ==> Goes(s, w, k) then Spawned(!s.oneshot)
         else StartFailed
  {
    var s := u.service;
    DiesIffLate(u, w);
    if w.conditionMet && s.execStart {
      var k := StartEnds(u, w);
      if k < CommandCount(s) {
        assert Reached(s, w, k);
        assert !Goes(s, w, k);
      }
    }
  }
}
