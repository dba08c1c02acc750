/** What control requests leave for later: the restarts that are still pending after a stop, a start
    or an isolate (src/applets/core/init/server.rs). A service in its restart delay has no process,
    so these requests do not see it. */
module Afterwards {
  import opened Graphs
  import opened Prelude
  import opened Units
  import opened Services
  import opened Lifecycle
  import opened Isolate
  import opened Control

  // ----- one instance

  ghost predicate NoStart(events: seq<Event>) {
    forall i :: 0 <= i < |events| ==> !events[i].Start?
  }

  /** Whatever happens without a start request, the instance has no process, now or later. */
  ghost predicate StaysDown(s: Svc) {
    forall events :: NoStart(events) ==> !Run(s, events).Live()
  }

  /** The main loop will spawn the instance again when its restart is due. */
  predicate Pending(s: Svc) {
    s.nextRestartAt.Some? && !s.stopped && !s.waitingDaemonize
  }

  /** In its restart delay: a restart is pending and no request counts the instance as running. */
  predicate Delayed(s: Svc) {
    Pending(s) && !s.Running()
  }

  lemma {:induction false} DownForGood(s: Svc, events: seq<Event>)
    requires !s.Live() && !Pending(s) && NoStart(events)
    ensures !Run(s, events).Live()
    decreases |events|
  {
    if events != [] {
      assert !Step(s, events[0]).Live() && !Pending(Step(s, events[0]));
      DownForGood(Step(s, events[0]), events[1..]);
    }
  }

  /** The iteration of the main loop in which the restart is due. */
  function DueAt(s: Svc): Event
    requires s.nextRestartAt.Some?
  {
    MainLoop(s.nextRestartAt.value, StillRunning, None, Some(1), false)
  }

  lemma ComesBack(s: Svc)
    requires Pending(s) && !s.Live()
    ensures Run(s, [DueAt(s)]).Live()
  {
    assert Run(Step(s, DueAt(s)), []) == Step(s, DueAt(s));
    assert [DueAt(s)][1..] == [];
  }

  /** An instance stays without a process exactly if it has none and no restart is pending. */
  lemma StaysDownIff(s: Svc)
    ensures StaysDown(s) <==> !s.Live() && !Pending(s)
  {
    if StaysDown(s) {
      assert NoStart([]) && Run(s, []) == s;
      if Pending(s) {
        ComesBack(s);
        assert NoStart([DueAt(s)]);
      }
    }
    if !s.Live() && !Pending(s) {
      forall events | NoStart(events) ensures !Run(s, events).Live() {
        DownForGood(s, events);
      }
    }
  }

  lemma StoppedStaysDown(s: Svc)
    ensures StaysDown(AfterStopRequest(s))
  {
    StaysDownIff(AfterStopRequest(s));
  }

  // ----- a stop

  /** The instances that a stop of the name is meant to take down. */
  predicate Stops(s: Svc, name: Name) {
    s.name == name || name in s.partOf
  }

  /** A stop takes down the named instance and all that is PartOf it for good, exactly if none of the
      latter was in its restart delay. */
  lemma StopStaysDown(v: seq<Svc>, name: Name)
    requires UniqueNames(v)
    ensures |StopLinked(v, name)| == |v|
    ensures (forall i :: 0 <= i < |v| && Stops(v[i], name) ==> StaysDown(StopLinked(v, name)[i]))
            <==> (forall i :: 0 <= i < |v| && Stops(v[i], name) && v[i].name != name ==> !Delayed(v[i]))
  {
    StopLinkedOnlyStops(v, name);
    forall i | 0 <= i < |v| && Stops(v[i], name)
      ensures StaysDown(StopLinked(v, name)[i]) <==> (v[i].name == name || !Delayed(v[i]))
    {
      StopLinkedExact(v, name, i);
      StoppedStaysDown(v[i]);
      StaysDownIff(v[i]);
    }
  }

  // ----- a start beside its rivals

  /** As start-up, triggers and requests create and keep instances; an active one has no restart
      pending. */
  ghost predicate Settled(s: Svc) {
    Coherent(s) && Typed(s) && (s.active ==> s.nextRestartAt.None?)
  }

  lemma StepSettled(s: Svc, e: Event)
    requires Settled(s)
    ensures Settled(Step(s, e))
  {
    StepCoherent(s, e);
    StepTyped(s, e);
  }

  /** Over every run an instance stays that way, from its start on. */
  lemma {:induction false} RunSettled(s: Svc, events: seq<Event>)
    requires Settled(s)
    ensures Settled(Run(s, events))
    decreases |events|
  {
    if events != [] {
      StepSettled(s, events[0]);
      RunSettled(Step(s, events[0]), events[1..]);
    }
  }

  lemma SettledFromStart(name: Name, u: Unit, child: Option<Pid>, now: nat, events: seq<Event>)
    ensures Settled(Run(NewSvc(name, u, child, now), events))
    ensures !u.service.forking ==> Settled(Run(OneshotSvc(name, u), events))
  {
    NewIsCoherent(name, u, child, now);
    RunSettled(NewSvc(name, u, child, now), events);
    if !u.service.forking {
      RunSettled(OneshotSvc(name, u), events);
    }
  }

  ghost predicate RivalsStayDown(units: Table, name: Name, v: seq<Svc>)
    requires name in units
  {
    forall i :: 0 <= i < |v| && ConflictsWith(units, name, v[i].name) ==> StaysDown(v[i])
  }

  ghost predicate NoRivalDelayed(units: Table, name: Name, v: seq<Svc>)
    requires name in units
  {
    forall i :: 0 <= i < |v| && ConflictsWith(units, name, v[i].name) ==> !Delayed(v[i])
  }

  /** An instance that does not run is not touched by stopping conflicting units. */
  lemma {:induction false} ConflictsSpare(v: seq<Svc>, names: seq<Name>, i: nat)
    requires UniqueNames(v) && i < |v| && !v[i].Running()
    ensures |StopConflicts(v, names)| == |v| && StopConflicts(v, names)[i] == v[i]
    decreases |names|
  {
    if names != [] {
      var next := if LiveNamed(v, names[0]) then StopLinked(v, names[0]) else v;
      StopLinkedOnlyStops(v, names[0]);
      NamesKept(v, next);
      StopLinkedExact(v, names[0], i);
      assert next[i] == v[i];
      ConflictsSpare(next, names[1..], i);
    }
  }

  /** What a start of a new unit makes of a conflicting instance. */
  lemma RivalAfterStart(units: Table, name: Name, before: seq<Svc>, list: seq<Name>, i: nat)
    requires UniqueNames(before) && name in units && ListsConflicts(units, name, list)
    requires i < |before| && ConflictsWith(units, name, before[i].name) && Settled(before[i])
    ensures |StopConflicts(before, list)| == |before|
    ensures StaysDown(StopConflicts(before, list)[i]) <==> !Delayed(before[i])
  {
    var stopped := StopConflicts(before, list);
    StopConflictsOnlyStops(before, list);
    assert Quieter(before[i], stopped[i]);
    ConflictsStopped(before, list, before[i].name);
    assert !stopped[i].Live();
    StaysDownIff(stopped[i]);
    if !before[i].Running() {
      ConflictsSpare(before, list, i);
    }
  }

  /** After a start no conflicting unit has a process, nor gets one without being started itself,
      exactly if the conflicts were looked at or nobody had one, and none was in its restart delay. */
  lemma StartKeepsRivalsDown(units: Table, w: World, before: seq<Svc>, name: Name, after: seq<Svc>)
    requires UniqueNames(before) && forall i :: 0 <= i < |before| ==> Settled(before[i])
    requires name in units && StartStep(units, w, before, name, after)
    requires !Exists(before, name) ==> Refusal(before, name, units, w.conditionMet).None?
    ensures RivalsStayDown(units, name, after)
            <==> (!Exists(before, name) || ConflictFree(units, name, before)) && NoRivalDelayed(units, name, before)
  {
    if Exists(before, name) {
      StartAgainAndRivals(units, w, before, name, after);
    } else {
      var list :| ListsConflicts(units, name, list)
                  && after == StopConflicts(before, list) + NewInstances(name, units, w);
      var stopped := StopConflicts(before, list);
      StopConflictsOnlyStops(before, list);
      forall i | 0 <= i < |after| && ConflictsWith(units, name, after[i].name)
        ensures i < |before| && before[i].name == after[i].name && (StaysDown(after[i]) <==> !Delayed(before[i]))
      {
        assert i < |before| && after[i] == stopped[i] && Quieter(before[i], stopped[i]);
        RivalAfterStart(units, name, before, list, i);
      }
      forall i | 0 <= i < |before| && ConflictsWith(units, name, before[i].name)
        ensures after[i].name == before[i].name
      {
        assert after[i] == stopped[i] && Quieter(before[i], stopped[i]);
      }
    }
  }

  lemma StartAgainAndRivals(units: Table, w: World, before: seq<Svc>, name: Name, after: seq<Svc>)
    requires UniqueNames(before) && forall i :: 0 <= i < |before| ==> Settled(before[i])
    requires name in units && StartStep(units, w, before, name, after) && Exists(before, name)
    ensures RivalsStayDown(units, name, after)
            <==> ConflictFree(units, name, before) && NoRivalDelayed(units, name, before)
  {
    var n := Find(before, name);
    assert after[n].name == name && forall i :: 0 <= i < |before| && i != n ==> after[i] == before[i];
    forall i | 0 <= i < |before| && ConflictsWith(units, name, before[i].name)
      ensures after[i] == before[i]
      ensures StaysDown(before[i]) <==> !LiveNamed(before, before[i].name) && !Delayed(before[i])
    {
      StaysDownIff(before[i]);
      assert LiveNamed(before, before[i].name) <==> before[i].Live();
    }
  }

  // ----- an isolate

  /** Outside the closure the instances that ran are stopped, and the others are as they were. */
  ghost predicate OthersStopped(closure: set<Name>, before: seq<Svc>, now: seq<Svc>) {
    && OutsideAtRest(closure, before, now)
    && forall i :: 0 <= i < |before| && before[i].name !in closure ==>
         if before[i].Running() then now[i].stopped else now[i] == before[i]
  }

  lemma StartSparesOthers(units: Table, w: World, closure: set<Name>, before: seq<Svc>,
                          now: seq<Svc>, name: Name, next: seq<Svc>)
    requires OthersStopped(closure, before, now) && name in closure && StartStep(units, w, now, name, next)
    ensures OthersStopped(closure, before, next)
  {
    StartKeepsRest(units, w, closure, before, now, name, next);
    forall i | 0 <= i < |before| && before[i].name !in closure
      ensures if before[i].Running() then next[i].stopped else next[i] == before[i]
    {
      var found := Find(now, name);
      if found == |now| && Refusal(now, name, units, w.conditionMet).None? {
        var list :| ListsConflicts(units, name, list)
                    && next == StopConflicts(now, list) + NewInstances(name, units, w);
        StopConflictsOnlyStops(now, list);
        assert Quieter(now[i], StopConflicts(now, list)[i]);
        if !before[i].Running() {
          ConflictsSpare(now, list, i);
        }
      } else {
        assert now[i].name == before[i].name;
        assert next[i] == now[i];
      }
    }
  }

  lemma {:induction false} IsolateStopsOthers(units: Table, world: Name -> World, closure: set<Name>,
                                              before: seq<Svc>, started: seq<Name>, trace: seq<seq<Svc>>, k: nat)
    requires UniqueNames(before) && IsolateTrace(units, world, closure, before, started, trace) && k < |trace|
    ensures OthersStopped(closure, before, trace[k])
  {
    IsolateQuiets(units, world, closure, before, started, trace, k);
    if k == 0 {
      StopsAreExact(before, closure);
    } else {
      IsolateStopsOthers(units, world, closure, before, started, trace, k - 1);
      assert started[k - 1] in started;
      StartSparesOthers(units, world(started[k - 1]), closure, before, trace[k - 1], started[k - 1], trace[k]);
    }
  }

  lemma StopsAreExact(v: seq<Svc>, closure: set<Name>)
    requires UniqueNames(v)
    ensures var after := StopEach(v, RunningOutside(v, closure));
      && |after| == |v|
      && forall i :: 0 <= i < |v| && v[i].name !in closure ==>
           if v[i].Running() then after[i].stopped else after[i] == v[i]
  {
    RunningOutsideMembers(v, closure);
    StopEachOnlyStops(v, RunningOutside(v, closure));
    forall i | 0 <= i < |v| && v[i].name !in closure
      ensures var after := StopEach(v, RunningOutside(v, closure));
              if v[i].Running() then after[i].stopped else after[i] == v[i]
    {
      StopEachExact(v, RunningOutside(v, closure), i);
      if v[i].name in RunningOutside(v, closure) {
        var j :| 0 <= j < |v| && v[j].name == v[i].name && v[j].Running() && v[i].name !in closure;
        assert i == j;
      }
    }
  }

  /** After an isolate nothing outside the closure has a process, nor gets one without being started,
      exactly if nothing outside was in its restart delay. */
  lemma IsolateKeepsOthersDown(units: Table, world: Name -> World, closure: set<Name>, before: seq<Svc>,
                               started: seq<Name>, trace: seq<seq<Svc>>)
    requires UniqueNames(before) && IsolateTrace(units, world, closure, before, started, trace)
    ensures var after := trace[|started|];
      (forall i :: 0 <= i < |after| && after[i].name !in closure ==> StaysDown(after[i]))
      <==> (forall i :: 0 <= i < |before| && before[i].name !in closure ==> !Delayed(before[i]))
  {
    var after := trace[|started|];
    IsolateStopsOthers(units, world, closure, before, started, trace, |started|);
    forall i | 0 <= i < |before| && before[i].name !in closure
      ensures after[i].name == before[i].name && (StaysDown(after[i]) <==> !Delayed(before[i]))
    {
      StaysDownIff(after[i]);
    }
  }

  // ----- it happens

  /** A service that failed and waits for its restart at time 1 s. */
  function Failed(name: Name, u: Unit): Svc {
    Step(NewSvc(name, u, Some(2), 0), MainLoop(0, Exited(Some(1)), None, None, false))
  }

  const RESTARTING := PLAIN_SERVICE.(restart := RestartAlways)

  /** "x" belongs to no target, conflicts with "y" and is PartOf "z". */
  function DelayedUnits(): Table {
    map["t" := Unit(true, [], [], [], [], [], [], [], [], PLAIN_SERVICE),
        "x" := Unit(false, [], [], [], [], [], ["y"], ["z"], [], RESTARTING),
        "y" := Unit(false, [], [], [], [], [], [], [], [], PLAIN_SERVICE)]
  }

  lemma FailedIsDelayed(name: Name)
    ensures var s := Failed(name, DelayedUnits()["x"]);
            s.name == name && s.partOf == ["z"] && Delayed(s) && Settled(s) && Run(s, [DueAt(s)]).Live()
  {
    var u := DelayedUnits()["x"];
    var s := Failed(name, u);
    NewIsCoherent(name, u, Some(2), 0);
    StepSettled(NewSvc(name, u, Some(2), 0), MainLoop(0, Exited(Some(1)), None, None, false));
    ComesBack(s);
  }

  /** Isolating to "t" leaves "x" as it is, although "t" does not pull it in. */
  lemma IsolateLeavesDelayed(world: Name -> World)
    ensures var units, x := DelayedUnits(), Failed("x", DelayedUnits()["x"]);
      && IsolateTrace(units, world, {"t"}, [x], [], [[x]])
      && (forall n :: n in {"t"} <==> Reaches(IsolateGraph(units, "t"), "t", n))
      && Run(x, [DueAt(x)]).Live()
  {
    IsolateStopsNothing(world);
    FailedIsDelayed("x");
    OnlyTheTarget();
  }

  lemma IsolateStopsNothing(world: Name -> World)
    ensures IsolateTrace(DelayedUnits(), world, {"t"}, [Failed("x", DelayedUnits()["x"])], [],
                         [[Failed("x", DelayedUnits()["x"])]])
  {
    FailedIsDelayed("x");
    assert [Failed("x", DelayedUnits()["x"])][..0] == [];
  }

  lemma OnlyTheTarget()
    ensures forall n :: n in {"t"} <==> Reaches(IsolateGraph(DelayedUnits(), "t"), "t", n)
  {
    var units := DelayedUnits();
    var g := IsolateGraph(units, "t");
    ReachesSelf(g, "t");
    forall a, b | a in {"t"} && Edge(g, a, b) ensures b in {"t"} {
      IsolateEdge(units, "t", a, b);
    }
    forall n | Reaches(g, "t", n) ensures n in {"t"} {
      ClosedContainsReachable(g, {"t"}, "t", n);
    }
  }

  /** Starting "y" leaves its rival "x" as it is, and then both run. */
  lemma StartLeavesDelayed(now: nat)
    ensures var units, x := DelayedUnits(), Failed("x", DelayedUnits()["x"]);
      var after := [x, NewSvc("y", units["y"], Some(3), now)];
      && StartStep(units, World(true, Some(3), now), [x], "y", after)
      && ConflictsWith(units, "y", "x") && ConflictFree(units, "y", after)
      && after[1].Live() && Run(after[0], [DueAt(x)]).Live()
  {
    var units, x := DelayedUnits(), Failed("x", DelayedUnits()["x"]);
    FailedIsDelayed("x");
    assert [x][1..] == [];
    assert Find([x], "y") == 1;
    assert ListsConflicts(units, "y", ["x"]);
    assert !LiveNamed([x], "x");
    assert StopConflicts([x], ["x"]) == [x] by {
      assert ["x"][1..] == [];
    }
  }

  /** Stopping "z" leaves "x" as it is, although "x" is PartOf "z". */
  lemma StopLeavesDelayed(z: Unit)
    ensures var x := Failed("x", DelayedUnits()["x"]);
      var after := StopLinked([NewSvc("z", z, Some(3), 0), x], "z");
      && |after| == 2 && after[1] == x
      && Stops(x, "z") && Run(x, [DueAt(x)]).Live()
  {
    var x := Failed("x", DelayedUnits()["x"]);
    FailedIsDelayed("x");
    StopLinkedExact([NewSvc("z", z, Some(3), 0), x], "z", 1);
  }
}
