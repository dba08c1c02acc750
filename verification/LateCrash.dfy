/** Late crashes count: a required service that is seen to exit with a failure while start-up waits for
    its layer is recorded as failed, and the boot goes to rescue over it
    (src/applets/core/init/mod.rs). */
module LateCrash {
  import opened Graphs
  import opened Prelude
  import opened Units
  import opened Depths
  import opened Boot
  import opened BootSafety

  /** Some unit of a later layer requires `n`. */
  ghost predicate RequiredLater(units: Table, order: seq<Name>, depths: map<Name, nat>, k: nat, n: Name) {
    exists m :: m in order && m in units && m in depths && depths[m] > k && n in units[m].required
  }

  /** The unit is started in layer k and leaves a process whose exit start-up waits for: it does not
      fork, and nothing would restart it after a failure. */
  ghost predicate StartedPlainly(units: Table, order: seq<Name>, depths: map<Name, nat>, outcome: Name -> Outcome,
                                 before: State, k: nat, n: Name) {
    && n in order && n in units && n in depths && depths[n] == k
    && Starts(units[n], before.ok) && outcome(n) == Spawned(true)
    && !units[n].service.forking
    && units[n].service.restart != RestartAlways && units[n].service.restart != RestartOnFailure
  }

  /** The first exit that the sweeps see of instance i comes in sweep p. */
  ghost predicate ExitsAt(observe: (nat, nat) -> Wait, i: nat, p: nat, success: bool) {
    observe(p, i) == Exited(success) && forall q :: 0 <= q < p ==> !observe(q, i).Exited?
  }

  lemma {:induction false} FirstExitAt(observe: (nat, nat) -> Wait, i: nat, sweeps: nat, success: bool)
    ensures FirstExit(observe, i, sweeps) == Some(success)
            <==> exists p :: 0 <= p < sweeps && ExitsAt(observe, i, p, success)
    ensures FirstExit(observe, i, sweeps).None? <==> forall p :: 0 <= p < sweeps ==> !observe(p, i).Exited?
    decreases sweeps
  {
    if sweeps > 0 {
      FirstExitAt(observe, i, sweeps - 1, success);
      FirstExitAt(observe, i, sweeps - 1, !success);
      if FirstExit(observe, i, sweeps - 1).None? && observe(sweeps - 1, i).Exited? {
        assert ExitsAt(observe, i, sweeps - 1, observe(sweeps - 1, i).success);
      }
    }
  }

  // ----- the instance that the sweeps look at

  lemma {:induction false} InstanceForm(units: Table, started: seq<Name>, outcome: Name -> Outcome, j: nat)
    requires j < |Instances(units, started, outcome)|
    ensures var s := Instances(units, started, outcome)[j];
      s.name in units && outcome(s.name).Spawned? && s == NewInstance(s.name, units[s.name], outcome(s.name).hasChild)
    decreases |started|
  {
    var rest := started[..|started| - 1];
    if j < |Instances(units, rest, outcome)| {
      InstanceForm(units, rest, outcome, j);
      assert Instances(units, started, outcome)[j] == Instances(units, rest, outcome)[j];
    }
  }

  lemma InstanceOf(units: Table, order: seq<Name>, depths: map<Name, nat>, outcome: Name -> Outcome,
                   k: nat, before: State, mid: State, n: Name, i: nat)
    requires LayerStarted(units, order, depths, k, outcome, before, mid)
    requires RecordsBelow(units, order, depths, k, before)
    requires StartedPlainly(units, order, depths, outcome, before, k, n)
    requires i < |mid.services| && mid.services[i].name == n
    ensures mid.services[i] == Instance(n, true, false, false, false)
  {
    var started := Started(units, Layer(order, depths, k), before.ok);
    if i < |before.services| {
      assert false;
    }
    assert mid.services[i] == Instances(units, started, outcome)[i - |before.services|];
    InstanceForm(units, started, outcome, i - |before.services|);
  }

  lemma NamesApart(services: seq<Instance>, i: nat, needed: set<Name>, observe: (nat, nat) -> Wait, sweeps: nat)
    requires i < |services| && forall j :: 0 <= j < |services| && j != i ==> services[j].name != services[i].name
    ensures FailingName(needed, services, observe, sweeps, 0, services[i].name)
            <==> SeenFailing(needed, services, observe, i, sweeps)
  {
    if SeenFailing(needed, services, observe, i, sweeps) {
      assert SeenFailing(needed, services, observe, i, Sweeps(sweeps, 0, i));
    }
  }

  /** What one layer makes of the entry: false exactly if the first exit among its sweeps is a failure. */
  lemma LayerCrash(units: Table, order: seq<Name>, depths: map<Name, nat>, outcome: Name -> Outcome, polls: nat,
                   observe: (nat, nat) -> Wait, k: nat, before: State, after: State, n: Name, i: nat)
    returns (sweeps: nat)
    requires LayerSwept(units, order, depths, k, outcome, polls, observe, before, after)
    requires RecordsBelow(units, order, depths, k, before)
    requires StartedPlainly(units, order, depths, outcome, before, k, n) && RequiredLater(units, order, depths, k, n)
    requires i < |after.services| && after.services[i].name == n
    requires forall j :: 0 <= j < |after.services| && j != i ==> after.services[j].name != n
    ensures 0 < sweeps <= polls + 1
    ensures Entry(after.ok, n)
      == Some(!exists p :: 0 <= p < sweeps && ExitsAt(observe, i, p, false))
    ensures sweeps <= polls && observe(sweeps - 1, i).StillRunning? ==>
      exists p :: 0 <= p < sweeps && observe(p, i).Exited?
  {
    var needed := Needed(units, order, depths, k);
    var mid, count := LayerParts(units, order, depths, outcome, polls, observe, k, before, after);
    sweeps := count;
    assert n in needed;
    forall j | 0 <= j < |mid.services| ensures mid.services[j].name == after.services[j].name {
    }
    InstanceOf(units, order, depths, outcome, k, before, mid, n, i);
    assert Watched(mid.services[i], needed);
    NamesApart(mid.services, i, needed, observe, sweeps);
    FirstExitAt(observe, i, sweeps, false);
    FirstExitAt(observe, i, sweeps, true);
    assert VerdictRecorded(units, order, depths, k, outcome, before.ok, mid.ok, n);
    assert Sweeps(sweeps, 0, i) == sweeps;
  }

  // ----- the main results

  /** The k-th layer of a run with its sweeps, and a service of that layer that later ones require;
      `i` is its place in the vector. */
  ghost predicate WaitedFor(units: Table, order: seq<Name>, depths: map<Name, nat>, outcome: Name -> Outcome,
                            polls: nat, observe: (nat, nat, nat) -> Wait, run: seq<State>, k: nat, n: Name, i: nat) {
    && Ranked(units, order, depths) && BootRun(units, order, depths, outcome, run)
    && SweptRun(units, order, depths, outcome, polls, observe, run)
    && k + 1 < |run| && StartedPlainly(units, order, depths, outcome, run[k], k, n)
    && RequiredLater(units, order, depths, k, n)
    && i < |run[k + 1].services| && run[k + 1].services[i].name == n
  }

  lemma CrashInLayer(units: Table, order: seq<Name>, depths: map<Name, nat>, outcome: Name -> Outcome,
                     polls: nat, observe: (nat, nat, nat) -> Wait, run: seq<State>, k: nat, n: Name, i: nat)
    returns (sweeps: nat)
    requires WaitedFor(units, order, depths, outcome, polls, observe, run, k, n, i)
    ensures 0 < sweeps <= polls + 1
    ensures Entry(run[k + 1].ok, n)
      == Some(!exists p :: 0 <= p < sweeps && ExitsAt(InSweeps(observe, k), i, p, false))
    ensures sweeps <= polls && observe(k, sweeps - 1, i).StillRunning? ==>
      exists p :: 0 <= p < sweeps && observe(k, p, i).Exited?
  {
    RunRecordsBelow(units, order, depths, outcome, run, k);
    ServicesInLayerOrder(units, order, depths, outcome, run, k + 1);
    var services := run[k + 1].services;
    forall j | 0 <= j < |services| && j != i ensures services[j].name != n {
      assert NamesOf(services)[j] != NamesOf(services)[i];
    }
    sweeps := LayerCrash(units, order, depths, outcome, polls, InSweeps(observe, k), k, run[k], run[k + 1], n, i);
    if sweeps <= polls && observe(k, sweeps - 1, i).StillRunning? {
      var p :| 0 <= p < sweeps && InSweeps(observe, k)(p, i).Exited?;
      assert observe(k, p, i).Exited?;
    }
  }

  /** A sweep that sees the exit after nothing but a running process sees the first one. */
  lemma OnlyExit(observe: (nat, nat, nat) -> Wait, k: nat, i: nat, p: nat, sweeps: nat)
    requires p < sweeps && observe(k, p, i).Exited? && forall q :: 0 <= q < p ==> observe(k, q, i).StillRunning?
    ensures (exists r :: 0 <= r < sweeps && ExitsAt(InSweeps(observe, k), i, r, false)) <==> !observe(k, p, i).success
  {
    var seen := InSweeps(observe, k);
    assert seen(p, i) == observe(k, p, i);
    forall q | 0 <= q < p ensures seen(q, i).StillRunning? {
      assert seen(q, i) == observe(k, q, i);
    }
    if !observe(k, p, i).success {
      assert ExitsAt(seen, i, p, false);
    }
    forall r | 0 <= r < sweeps && ExitsAt(seen, i, r, false) ensures r == p {
      assert seen(r, i).Exited?;
    }
  }

  /** A service seen running in every sweep until it is seen to exit is recorded by how it exited: false
      after a failure, from the end of its layer to the end of the run, and true after a success. */
  lemma LateCrashCounts(units: Table, order: seq<Name>, depths: map<Name, nat>, outcome: Name -> Outcome,
                        polls: nat, observe: (nat, nat, nat) -> Wait, run: seq<State>, k: nat, n: Name, i: nat,
                        p: nat, l: nat)
    requires WaitedFor(units, order, depths, outcome, polls, observe, run, k, n, i)
    requires p <= polls && observe(k, p, i).Exited? && k < l < |run|
    requires forall q :: 0 <= q < p ==> observe(k, q, i).StillRunning?
    ensures Entry(run[k + 1].ok, n) == Some(observe(k, p, i).success)
    ensures !observe(k, p, i).success ==> RecordedFalse(run[l].ok, n)
  {
    var sweeps := CrashInLayer(units, order, depths, outcome, polls, observe, run, k, n, i);
    if sweeps <= p {
      assert false;
    }
    OnlyExit(observe, k, i, p, sweeps);
    if !observe(k, p, i).success {
      FalseIsFinal(units, order, depths, outcome, run, n, k + 1, l);
    }
  }

  /** A service that no sweep of its layer sees to exit keeps its entry. */
  lemma RunningKeepsEntry(units: Table, order: seq<Name>, depths: map<Name, nat>, outcome: Name -> Outcome,
                          polls: nat, observe: (nat, nat, nat) -> Wait, run: seq<State>, k: nat, n: Name, i: nat)
    requires WaitedFor(units, order, depths, outcome, polls, observe, run, k, n, i)
    requires forall q :: 0 <= q <= polls ==> !observe(k, q, i).Exited?
    ensures Entry(run[k + 1].ok, n) == Some(true)
  {
    var sweeps := CrashInLayer(units, order, depths, outcome, polls, observe, run, k, n, i);
    forall p | 0 <= p < sweeps ensures !ExitsAt(InSweeps(observe, k), i, p, false) {
      assert InSweeps(observe, k)(p, i) == observe(k, p, i);
    }
  }

  /** Such a crash of a service that the root target requires keeps the boot from its target. */
  lemma CrashMeansRescue(units: Table, root: Name, order: seq<Name>, depths: map<Name, nat>, outcome: Name -> Outcome,
                         polls: nat, observe: (nat, nat, nat) -> Wait, run: seq<State>, k: nat, n: Name, i: nat, p: nat)
    requires StartOrder(SortGraph(units), root, order) && depths.Keys == Nodes(order, units)
    requires CompleteRun(units, order, depths, outcome, run)
    requires root in units && units[root].isTarget && n in units[root].required
    requires WaitedFor(units, order, depths, outcome, polls, observe, run, k, n, i)
    requires p <= polls && observe(k, p, i) == Exited(false)
    requires forall q :: 0 <= q < p ==> observe(k, q, i).StillRunning?
    ensures !RecordedTrue(run[|run| - 1].ok, root)
  {
    StaysFalse(units, order, depths, outcome, polls, observe, run, k, n, i, p);
    RootMissed(units, root, order, depths, outcome, run, n);
  }

  lemma StaysFalse(units: Table, order: seq<Name>, depths: map<Name, nat>, outcome: Name -> Outcome, polls: nat,
                   observe: (nat, nat, nat) -> Wait, run: seq<State>, k: nat, n: Name, i: nat, p: nat)
    requires WaitedFor(units, order, depths, outcome, polls, observe, run, k, n, i)
    requires p <= polls && observe(k, p, i) == Exited(false)
    requires forall q :: 0 <= q < p ==> observe(k, q, i).StillRunning?
    ensures |run| > 0 && RecordedFalse(run[|run| - 1].ok, n) && n in units && Ranked(units, order, depths)
  {
    LateCrashCounts(units, order, depths, outcome, polls, observe, run, k, n, i, p, |run| - 1);
  }

  lemma RootMissed(units: Table, root: Name, order: seq<Name>, depths: map<Name, nat>, outcome: Name -> Outcome,
                   run: seq<State>, n: Name)
    requires StartOrder(SortGraph(units), root, order) && Ranked(units, order, depths)
    requires depths.Keys == Nodes(order, units) && CompleteRun(units, order, depths, outcome, run)
    requires root in units && units[root].isTarget && n in units[root].required && n in units
    requires RecordedFalse(run[|run| - 1].ok, n)
    ensures !RecordedTrue(run[|run| - 1].ok, root)
  {
    RootReached(units, root, order, depths, outcome, run);
  }

  /** The units whose processes nobody waits for: none requires them later, they fork, something would
      restart them, or they have no process. */
  ghost predicate NotWaitedFor(units: Table, order: seq<Name>, depths: map<Name, nat>, outcome: Name -> Outcome,
                               k: nat, n: Name) {
    || !RequiredLater(units, order, depths, k, n)
    || (n in units
        && (units[n].service.forking || units[n].service.restart == RestartAlways
            || units[n].service.restart == RestartOnFailure || outcome(n) != Spawned(true)))
  }

  /** Such a unit keeps the entry that its checks and its start gave it, whatever the sweeps see. */
  lemma OthersKeepEntry(units: Table, order: seq<Name>, depths: map<Name, nat>, outcome: Name -> Outcome,
                        polls: nat, observe: (nat, nat, nat) -> Wait, run: seq<State>, k: nat, n: Name)
    requires Ranked(units, order, depths) && BootRun(units, order, depths, outcome, run)
    requires SweptRun(units, order, depths, outcome, polls, observe, run) && k + 1 < |run|
    requires n in order && depths[n] == k && NotWaitedFor(units, order, depths, outcome, k, n)
    ensures var u, ok := units[n], run[k].ok;
      Entry(run[k + 1].ok, n)
      == if exists d :: d in u.required && d in ok && !ok[d] then Some(false)
         else if u.isTarget then Some(true)
         else if exists d :: d in u.requisite && (d in ok ==> !ok[d]) then Some(false)
         else match outcome(n)
           case Panicked => None
           case StartFailed => Some(false)
           case NoInstance => Some(true)
           case Spawned(_) => Some(true)
  {
    RunRecordsBelow(units, order, depths, outcome, run, k);
    KeepsVerdict(units, order, depths, outcome, polls, InSweeps(observe, k), k, run[k], run[k + 1], n);
  }

  lemma KeepsVerdict(units: Table, order: seq<Name>, depths: map<Name, nat>, outcome: Name -> Outcome, polls: nat,
                     seen: (nat, nat) -> Wait, k: nat, before: State, after: State, n: Name)
    requires LayerSwept(units, order, depths, k, outcome, polls, seen, before, after)
    requires RecordsBelow(units, order, depths, k, before)
    requires InLayer(units, order, depths, k, n) && NotWaitedFor(units, order, depths, outcome, k, n)
    ensures Entry(after.ok, n) == Verdict(units[n], before.ok, outcome(n))
  {
    var needed := Needed(units, order, depths, k);
    var mid, sweeps := LayerParts(units, order, depths, outcome, polls, seen, k, before, after);
    assert VerdictRecorded(units, order, depths, k, outcome, before.ok, mid.ok, n);
    forall i | 0 <= i < |mid.services| && mid.services[i].name == n ensures !Watched(mid.services[i], needed) {
      NotWatched(units, order, depths, outcome, k, before, mid, n, i);
    }
    assert !FailingName(needed, mid.services, seen, sweeps, 0, n);
  }

  /** The state between the starts and the sweeps of a layer, and the number of the sweeps. */
  lemma LayerParts(units: Table, order: seq<Name>, depths: map<Name, nat>, outcome: Name -> Outcome, polls: nat,
                   seen: (nat, nat) -> Wait, k: nat, before: State, after: State) returns (mid: State, sweeps: nat)
    requires LayerSwept(units, order, depths, k, outcome, polls, seen, before, after)
    ensures LayerStarted(units, order, depths, k, outcome, before, mid)
    ensures Swept(Needed(units, order, depths, k), mid, after, seen, sweeps, 0)
    ensures SweptThrough(Needed(units, order, depths, k), after, seen, polls, sweeps)
  {
    mid, sweeps :|
      && LayerStarted(units, order, depths, k, outcome, before, mid)
      && Swept(Needed(units, order, depths, k), mid, after, seen, sweeps, 0)
      && SweptThrough(Needed(units, order, depths, k), after, seen, polls, sweeps);
  }

  lemma NotWatched(units: Table, order: seq<Name>, depths: map<Name, nat>, outcome: Name -> Outcome,
                   k: nat, before: State, mid: State, n: Name, i: nat)
    requires LayerStarted(units, order, depths, k, outcome, before, mid)
    requires RecordsBelow(units, order, depths, k, before)
    requires n in order && n in depths && depths[n] == k && NotWaitedFor(units, order, depths, outcome, k, n)
    requires i < |mid.services| && mid.services[i].name == n
    ensures !Watched(mid.services[i], Needed(units, order, depths, k))
  {
    var started := Started(units, Layer(order, depths, k), before.ok);
    if i < |before.services| {
      assert false;
    }
    assert mid.services[i] == Instances(units, started, outcome)[i - |before.services|];
    InstanceForm(units, started, outcome, i - |before.services|);
  }
}
