/** Control requests over the services vector: stop, start and isolate
    (src/applets/core/init/server.rs). */
module Control {
  import opened Graphs
  import opened Prelude
  import opened Units
  import opened Services
  import opened Isolate
  import Lifecycle

  // ----- the vector as a value

  /** The first instance with the name, `|v|` if there is none. */
  function Find(v: seq<Svc>, name: Name): (i: nat)
    ensures i <= |v| && (i < |v| ==> v[i].name == name)
    ensures forall j :: 0 <= j < i ==> v[j].name != name
  {
    if v == [] || v[0].name == name then 0 else 1 + Find(v[1..], name)
  }

  predicate Exists(v: seq<Svc>, name: Name) {
    Find(v, name) < |v|
  }

  /** `do_stop_one` */
  function StopOne(v: seq<Svc>, name: Name): seq<Svc> {
    var i := Find(v, name);
    if i < |v| then v[i := AfterStopRequest(v[i])] else v
  }

  function StopEach(v: seq<Svc>, names: seq<Name>): seq<Svc>
    decreases |names|
  {
    if names == [] then v else StopEach(StopOne(v, names[0]), names[1..])
  }

  /** The running instances that are PartOf the name. */
  function Linked(v: seq<Svc>, name: Name): seq<Name> {
    if v == [] then []
    else
      var s := v[|v| - 1];
      Linked(v[..|v| - 1], name) + if s.name != name && name in s.partOf && s.Running() then [s.name] else []
  }

  /** `do_stop` */
  function StopLinked(v: seq<Svc>, name: Name): seq<Svc> {
    StopEach(StopOne(v, name), Linked(StopOne(v, name), name))
  }

  predicate LiveNamed(v: seq<Svc>, name: Name) {
    exists i :: 0 <= i < |v| && v[i].name == name && v[i].Live()
  }

  predicate RunningNamed(v: seq<Svc>, name: Name) {
    exists i :: 0 <= i < |v| && v[i].name == name && v[i].Running()
  }

  /** Stopping the conflicting units that have a process, one after the other. */
  function StopConflicts(v: seq<Svc>, names: seq<Name>): seq<Svc>
    decreases |names|
  {
    if names == [] then v
    else StopConflicts(if LiveNamed(v, names[0]) then StopLinked(v, names[0]) else v, names[1..])
  }

  // ----- what stopping does and does not do

  /** `after` is `before` with some instances stopped: no process appears anywhere. */
  ghost predicate OnlyStops(before: seq<Svc>, after: seq<Svc>) {
    && |after| == |before|
    && forall i :: 0 <= i < |before| ==> Quieter(before[i], after[i])
  }

  ghost predicate Quieter(before: Svc, after: Svc) {
    && after.name == before.name && after.partOf == before.partOf && after.service == before.service
    && (after == before || (after.stopped && !after.Live() && (after.active ==> SurvivesStop(before))))
  }

  lemma QuieterTransitive(a: Svc, b: Svc, c: Svc)
    requires Quieter(a, b) && Quieter(b, c)
    ensures Quieter(a, c)
  {
  }

  lemma OnlyStopsTransitive(a: seq<Svc>, b: seq<Svc>, c: seq<Svc>)
    requires OnlyStops(a, b) && OnlyStops(b, c)
    ensures OnlyStops(a, c)
  {
    forall i | 0 <= i < |a| ensures Quieter(a[i], c[i]) {
      QuieterTransitive(a[i], b[i], c[i]);
    }
  }

  lemma StopOneOnlyStops(v: seq<Svc>, name: Name)
    ensures OnlyStops(v, StopOne(v, name))
  {
  }

  lemma {:induction false} StopEachOnlyStops(v: seq<Svc>, names: seq<Name>)
    ensures OnlyStops(v, StopEach(v, names))
    decreases |names|
  {
    if names != [] {
      StopOneOnlyStops(v, names[0]);
      StopEachOnlyStops(StopOne(v, names[0]), names[1..]);
      OnlyStopsTransitive(v, StopOne(v, names[0]), StopEach(v, names));
    }
  }

  lemma StopLinkedOnlyStops(v: seq<Svc>, name: Name)
    ensures OnlyStops(v, StopLinked(v, name))
  {
    StopOneOnlyStops(v, name);
    StopEachOnlyStops(StopOne(v, name), Linked(StopOne(v, name), name));
    OnlyStopsTransitive(v, StopOne(v, name), StopLinked(v, name));
  }

  lemma {:induction false} StopConflictsOnlyStops(v: seq<Svc>, names: seq<Name>)
    ensures OnlyStops(v, StopConflicts(v, names))
    decreases |names|
  {
    if names != [] {
      var next := if LiveNamed(v, names[0]) then StopLinked(v, names[0]) else v;
      StopLinkedOnlyStops(v, names[0]);
      StopConflictsOnlyStops(next, names[1..]);
      OnlyStopsTransitive(v, next, StopConflicts(v, names));
    }
  }

  datatype Response =
    | AlreadyRunning
    | AlreadyStopped
    | Stopped
    | StartedUnit
    | FailedToStart
    | UnknownUnit
    | IsTarget
    | NotATarget
    | ConditionNotMet
    | RequisiteInactive(requisite: Name)
    | NoExecStart
    | Isolated

  function StopResponse(v: seq<Svc>, name: Name): Response {
    var i := Find(v, name);
    if i == |v| then UnknownUnit else if v[i].Running() then Stopped else AlreadyStopped
  }

  /** What the world answers while a unit is started: whether its conditions hold and which
      process, if any, the spawn yields. */
  datatype World = World(conditionMet: bool, spawned: Option<Pid>, now: nat)

  // ----- starting and isolating, on values

  /** The first Requisite that no running instance provides. */
  function FirstInactive(v: seq<Svc>, requisite: seq<Name>): Option<Name> {
    if requisite == [] then None
    else if !RunningNamed(v, requisite[0]) then Some(requisite[0])
    else FirstInactive(v, requisite[1..])
  }

  /** Why `do_start` refuses to start a unit that has no instance, if it does. */
  function Refusal(v: seq<Svc>, name: Name, units: Table, conditionMet: bool): Option<Response> {
    if name !in units then Some(UnknownUnit)
    else if units[name].isTarget then Some(IsTarget)
    else if !conditionMet then Some(ConditionNotMet)
    else if FirstInactive(v, units[name].requisite).Some? then
      Some(RequisiteInactive(FirstInactive(v, units[name].requisite).value))
    else if !units[name].service.execStart then Some(NoExecStart)
    else None
  }

  /** The list of units to stop first: the unit's own Conflicts, then those of other units
      that name it, in any order. */
  ghost predicate ListsConflicts(units: Table, name: Name, list: seq<Name>)
    requires name in units
  {
    && units[name].conflicts <= list
    && forall c :: c in list <==>
         c in units[name].conflicts || (c in units && c != name && name in units[c].conflicts)
  }

  function NewInstances(name: Name, units: Table, w: World): seq<Svc> {
    if name in units && w.spawned.Some? then [NewSvc(name, units[name], w.spawned, w.now)] else []
  }

  /** `do_start` as a step on the vector. */
  ghost predicate StartStep(units: Table, w: World, before: seq<Svc>, name: Name, after: seq<Svc>) {
    var i := Find(before, name);
    if i < |before| then after == before[i := AfterStartRequest(before[i], w.now, w.spawned)]
    else if Refusal(before, name, units, w.conditionMet).Some? then after == before
    else exists list :: ListsConflicts(units, name, list)
                        && after == StopConflicts(before, list) + NewInstances(name, units, w)
  }

  function StartResponse(v: seq<Svc>, name: Name, units: Table, w: World): Response {
    var i := Find(v, name);
    var refusal := Refusal(v, name, units, w.conditionMet);
    if i < |v| && v[i].Live() then AlreadyRunning
    else if i == |v| && refusal.Some? then refusal.value
    else if w.spawned.Some? then StartedUnit else FailedToStart
  }

  const UNKNOWN := "unknown"

  /** The text of an answer to a stop; it begins with the name of the unit if there is one. */
  function StopText(r: Response, name: Name): string {
    match r
    case UnknownUnit => "unknown unit: " + name + "\n"
    case Stopped => name + " stopped\n"
    case _ => name + " already stopped\n"
  }

  /** The stop's text begins with "unknown": the sign by which `Restart` tells that there is
      nothing to start again. */
  predicate LooksUnknown(v: seq<Svc>, name: Name) {
    UNKNOWN <= StopText(StopResponse(v, name), name)
  }

  lemma NameBegins(name: Name, rest: string, more: string)
    requires |rest| >= |UNKNOWN| && rest[0] == ' '
    ensures UNKNOWN <= name + rest + more <==> UNKNOWN <= name
    ensures UNKNOWN <= name + rest <==> UNKNOWN <= name
  {
    var text := name + rest + more;
    assert text == name + (rest + more);
    if |name| < |UNKNOWN| {
      assert text[|name|] == ' ' && (name + rest)[|name|] == ' ';
      assert forall i :: 0 <= i < |UNKNOWN| ==> UNKNOWN[i] != ' ';
    } else {
      assert text[..|UNKNOWN|] == name[..|UNKNOWN|] && (name + rest)[..|UNKNOWN|] == name[..|UNKNOWN|];
    }
  }

  /** The sign is there if no instance has the name, but also if the name itself begins that way;
      the lines of further stops make no difference. */
  lemma LooksUnknownIff(v: seq<Svc>, name: Name, more: string)
    ensures LooksUnknown(v, name) <==> !Exists(v, name) || UNKNOWN <= name
    ensures UNKNOWN <= StopText(StopResponse(v, name), name) + more <==> LooksUnknown(v, name)
  {
    if Exists(v, name) {
      var rest := if StopResponse(v, name) == Stopped then " stopped\n" else " already stopped\n";
      assert StopText(StopResponse(v, name), name) == name + rest;
      NameBegins(name, rest, more);
    } else {
      var text := StopText(UnknownUnit, name);
      assert text == UNKNOWN + (" unit: " + name + "\n");
      assert text + more == UNKNOWN + (" unit: " + name + "\n" + more);
    }
  }

  /** A `Restart` request as a step on the vector. */
  ghost predicate RestartStep(units: Table, w: World, before: seq<Svc>, name: Name, after: seq<Svc>) {
    var stopped := StopLinked(before, name);
    if LooksUnknown(before, name) then after == stopped else StartStep(units, w, stopped, name, after)
  }

  function RestartResponse(v: seq<Svc>, name: Name, units: Table, w: World): Response {
    if LooksUnknown(v, name) then StopResponse(v, name) else StartResponse(StopLinked(v, name), name, units, w)
  }

  lemma {:induction false} FindSameNames(a: seq<Svc>, b: seq<Svc>, name: Name)
    requires OnlyStops(a, b)
    ensures Find(a, name) == Find(b, name)
    decreases |a|
  {
    if a != [] {
      assert Quieter(a[0], b[0]);
      forall i | 0 <= i < |a[1..]| ensures Quieter(a[1..][i], b[1..][i]) {
        assert Quieter(a[i + 1], b[i + 1]);
      }
      FindSameNames(a[1..], b[1..], name);
    }
  }

  /** Only an unknown unit is answered so. */
  lemma RestartAnswers(v: seq<Svc>, name: Name, units: Table, w: World)
    ensures RestartResponse(v, name, units, w) == UnknownUnit <==> !Exists(v, name)
  {
    LooksUnknownIff(v, name, "");
    StopLinkedOnlyStops(v, name);
    FindSameNames(v, StopLinked(v, name), name);
  }

  /** A restart starts the instance again exactly if its name does not begin with "unknown". Then
      it replaces the process: whatever was running or pending before, the instance knows exactly
      the new process, with its counters reset. Otherwise it is left stopped, with no process. All
      other instances were at most stopped. */
  lemma RestartReplaces(units: Table, w: World, before: seq<Svc>, name: Name, after: seq<Svc>)
    requires Exists(before, name) && RestartStep(units, w, before, name, after)
    ensures var i := Find(before, name);
      && |after| == |before|
      && (!after[i].stopped <==> !(UNKNOWN <= name))
      && (!(UNKNOWN <= name) ==>
            && after[i].child == w.spawned && after[i].trackedPid.None?
            && after[i].failCount == 0 && after[i].nextRestartAt.None?)
      && (UNKNOWN <= name ==> !after[i].Live())
      && forall j :: 0 <= j < |before| && j != i ==> Quieter(before[j], after[j])
  {
    var i, one, stopped := Find(before, name), StopOne(before, name), StopLinked(before, name);
    StopEachOnlyStops(one, Linked(one, name));
    StopLinkedOnlyStops(before, name);
    FindSameNames(before, stopped, name);
    assert Quieter(one[i], stopped[i]) && !one[i].Live() && one[i].stopped;
    LooksUnknownIff(before, name, "");
  }

  /** Restarting a running service of this name ends its process and starts none. */
  lemma UnknownIsNotRestarted(w: World, after: seq<Svc>)
    requires var units := map["unknown-hosts" := Unit(false, [], [], [], [], [], [], [], [], PLAIN_SERVICE)];
             var before := [NewSvc("unknown-hosts", units["unknown-hosts"], Some(2), 0)];
             RestartStep(units, w, before, "unknown-hosts", after)
    ensures |after| == 1 && after[0].stopped && !after[0].Running()
  {
    var units := map["unknown-hosts" := Unit(false, [], [], [], [], [], [], [], [], PLAIN_SERVICE)];
    var before := [NewSvc("unknown-hosts", units["unknown-hosts"], Some(2), 0)];
    assert Find(before, "unknown-hosts") == 0;
    assert "unknown-hosts" == UNKNOWN + "-hosts";
    LooksUnknownIff(before, "unknown-hosts", "");
    StopLinkedExact(before, "unknown-hosts", 0);
  }

  /** The running instances whose unit is outside the closure. */
  function RunningOutside(v: seq<Svc>, closure: set<Name>): seq<Name> {
    if v == [] then []
    else
      var s := v[|v| - 1];
      RunningOutside(v[..|v| - 1], closure) + if s.Running() && s.name !in closure then [s.name] else []
  }

  /** A unit of the closure that isolate starts. */
  predicate ToStart(v: seq<Svc>, units: Table, n: Name) {
    n in units && !units[n].isTarget && units[n].service.execStart && !RunningNamed(v, n)
  }

  /** `trace` records the vector before each of the starts done so far and after the last. */
  ghost predicate StartsTrace(units: Table, world: Name -> World, names: seq<Name>, trace: seq<seq<Svc>>) {
    && 0 < |trace| <= |names| + 1
    && forall k :: 0 <= k < |trace| - 1 ==> StartStep(units, world(names[k]), trace[k], names[k], trace[k + 1])
  }

  lemma TraceExtends(units: Table, world: Name -> World, names: seq<Name>, trace: seq<seq<Svc>>, next: seq<Svc>)
    requires StartsTrace(units, world, names, trace) && |trace| <= |names|
    requires StartStep(units, world(names[|trace| - 1]), trace[|trace| - 1], names[|trace| - 1], next)
    ensures StartsTrace(units, world, names, trace + [next])
  {
  }

  /** The course of an isolate: `trace[0]` is the vector after the stops, then each unit of
      `started` gets its start, which are exactly the units of the closure that need one. */
  ghost predicate IsolateTrace(units: Table, world: Name -> World, closure: set<Name>, before: seq<Svc>,
                               started: seq<Name>, trace: seq<seq<Svc>>) {
    && StartsTrace(units, world, started, trace) && |trace| == |started| + 1
    && trace[0] == StopEach(before, RunningOutside(before, closure))
    && NoDuplicates(started)
    && (forall n :: n in started <==> n in closure && ToStart(trace[0], units, n))
  }

  // ----- what isolating achieves

  ghost predicate UniqueNames(v: seq<Svc>) {
    forall i, j :: 0 <= i < j < |v| ==> v[i].name != v[j].name
  }

  lemma FindUnique(v: seq<Svc>, i: nat)
    requires UniqueNames(v) && i < |v|
    ensures Find(v, v[i].name) == i
  {
  }

  lemma RunningOutsideMembers(v: seq<Svc>, closure: set<Name>)
    ensures forall n :: n in RunningOutside(v, closure) <==>
      exists i :: 0 <= i < |v| && v[i].name == n && v[i].Running() && n !in closure
    ensures UniqueNames(v) ==> NoDuplicates(RunningOutside(v, closure))
  {
    if v != [] {
      var rest := v[..|v| - 1];
      RunningOutsideMembers(rest, closure);
      forall n ensures n in RunningOutside(v, closure) <==>
        exists i :: 0 <= i < |v| && v[i].name == n && v[i].Running() && n !in closure
      {
        if i :| 0 <= i < |v| && v[i].name == n && v[i].Running() && n !in closure {
          assert i < |rest| ==> rest[i] == v[i];
        }
        if i :| 0 <= i < |rest| && rest[i].name == n && rest[i].Running() && n !in closure {
          assert v[i] == rest[i];
        }
      }
    }
  }

  /** Stopping distinct names stops exactly their instances, each once. */
  lemma {:induction false} StopEachExact(v: seq<Svc>, names: seq<Name>, i: nat)
    requires UniqueNames(v) && NoDuplicates(names) && i < |v|
    ensures |StopEach(v, names)| == |v|
    ensures StopEach(v, names)[i] == if v[i].name in names then AfterStopRequest(v[i]) else v[i]
    decreases |names|
  {
    if names != [] {
      var next := StopOne(v, names[0]);
      FindUnique(v, i);
      assert UniqueNames(next);
      assert forall n :: n in names <==> n == names[0] || n in names[1..];
      StopEachExact(next, names[1..], i);
    }
  }

  /** After the stops, an instance outside the closure runs no process; it counts as running only
      if it was an active one with a tracked daemon and KillMode=none. */
  lemma StopsExact(v: seq<Svc>, closure: set<Name>, i: nat)
    requires UniqueNames(v) && i < |v|
    ensures var after := StopEach(v, RunningOutside(v, closure));
      && |after| == |v|
      && (v[i].name in closure ==> after[i] == v[i])
      && (v[i].name !in closure ==> !after[i].Live() && (after[i].Running() <==> SurvivesStop(v[i])))
  {
    RunningOutsideMembers(v, closure);
    StopEachExact(v, RunningOutside(v, closure), i);
    if v[i].name in RunningOutside(v, closure) {
      var j :| 0 <= j < |v| && v[j].name == v[i].name && v[j].Running() && v[i].name !in closure;
      assert i == j;
    }
  }

  /** Outside the closure nothing has become running: old instances are at rest or survived their
      stop, new ones do not exist. */
  ghost predicate OutsideAtRest(closure: set<Name>, before: seq<Svc>, now: seq<Svc>) {
    && |before| <= |now| && UniqueNames(now)
    && (forall i :: 0 <= i < |before| ==> now[i].name == before[i].name)
    && (forall i :: 0 <= i < |before| && before[i].name !in closure ==>
          !now[i].Live() && (now[i].active ==> SurvivesStop(before[i])))
    && (forall i :: |before| <= i < |now| ==> now[i].name in closure)
  }

  lemma OnlyStopsKeepsRest(closure: set<Name>, before: seq<Svc>, now: seq<Svc>, next: seq<Svc>)
    requires OutsideAtRest(closure, before, now) && OnlyStops(now, next)
    ensures OutsideAtRest(closure, before, next)
  {
    forall i | 0 <= i < |now| ensures next[i].name == now[i].name && (!now[i].Live() ==> !next[i].Live())
                                      && (next[i].active ==> now[i].active) {
      assert Quieter(now[i], next[i]);
    }
  }

  lemma StartKeepsRest(units: Table, w: World, closure: set<Name>, before: seq<Svc>,
                       now: seq<Svc>, name: Name, next: seq<Svc>)
    requires OutsideAtRest(closure, before, now) && name in closure && StartStep(units, w, now, name, next)
    ensures OutsideAtRest(closure, before, next)
  {
    var i := Find(now, name);
    if i < |now| {
      OneKeepsRest(closure, before, now, i, next);
    } else if Refusal(now, name, units, w.conditionMet).None? {
      var list :| ListsConflicts(units, name, list)
                  && next == StopConflicts(now, list) + NewInstances(name, units, w);
      StopConflictsOnlyStops(now, list);
      var quiet := StopConflicts(now, list);
      OnlyStopsKeepsRest(closure, before, now, quiet);
      forall j | 0 <= j < |quiet| ensures quiet[j].name != name {
        assert Quieter(now[j], quiet[j]);
      }
      AppendKeepsRest(closure, before, quiet, name, next);
    }
  }

  lemma OneKeepsRest(closure: set<Name>, before: seq<Svc>, now: seq<Svc>, i: nat, next: seq<Svc>)
    requires OutsideAtRest(closure, before, now) && i < |now| && now[i].name in closure
    requires |next| == |now| && next[i].name == now[i].name
    requires forall j :: 0 <= j < |now| && j != i ==> next[j] == now[j]
    ensures OutsideAtRest(closure, before, next)
  {
  }

  lemma AppendKeepsRest(closure: set<Name>, before: seq<Svc>, now: seq<Svc>, name: Name, next: seq<Svc>)
    requires OutsideAtRest(closure, before, now) && name in closure
    requires forall j :: 0 <= j < |now| ==> now[j].name != name
    requires |now| <= |next| <= |now| + 1 && next[..|now|] == now
    requires |next| > |now| ==> next[|now|].name == name
    ensures OutsideAtRest(closure, before, next)
  {
    assert forall j :: 0 <= j < |now| ==> next[j] == next[..|now|][j];
  }

  /** After an isolate no instance outside the closure is running, but for active ones with a
      tracked daemon and KillMode=none. */
  lemma {:induction false} IsolateQuiets(units: Table, world: Name -> World, closure: set<Name>, before: seq<Svc>,
                                         started: seq<Name>, trace: seq<seq<Svc>>, k: nat)
    requires UniqueNames(before) && IsolateTrace(units, world, closure, before, started, trace) && k < |trace|
    ensures OutsideAtRest(closure, before, trace[k])
  {
    if k == 0 {
      StopEachOnlyStops(before, RunningOutside(before, closure));
      forall i | 0 <= i < |before| ensures trace[0][i].name == before[i].name
        && (before[i].name !in closure ==> !trace[0][i].Live() && (trace[0][i].active ==> SurvivesStop(before[i])))
      {
        StopsExact(before, closure, i);
        assert Quieter(before[i], trace[0][i]);
      }
    } else {
      IsolateQuiets(units, world, closure, before, started, trace, k - 1);
      assert started[k - 1] in started;
      StartKeepsRest(units, world(started[k - 1]), closure, before, trace[k - 1], started[k - 1], trace[k]);
    }
  }

  // ----- instances as start-up, triggers and requests create them

  ghost predicate AllTyped(v: seq<Svc>) {
    forall i :: 0 <= i < |v| ==> Lifecycle.Typed(v[i])
  }

  lemma StopOneTyped(v: seq<Svc>, name: Name)
    requires AllTyped(v)
    ensures AllTyped(StopOne(v, name))
  {
  }

  lemma {:induction false} StopEachTyped(v: seq<Svc>, names: seq<Name>)
    requires AllTyped(v)
    ensures AllTyped(StopEach(v, names))
    decreases |names|
  {
    if names != [] {
      StopOneTyped(v, names[0]);
      StopEachTyped(StopOne(v, names[0]), names[1..]);
    }
  }

  lemma StopLinkedTyped(v: seq<Svc>, name: Name)
    requires AllTyped(v)
    ensures AllTyped(StopLinked(v, name))
  {
    StopOneTyped(v, name);
    StopEachTyped(StopOne(v, name), Linked(StopOne(v, name), name));
  }

  lemma {:induction false} StopConflictsTyped(v: seq<Svc>, names: seq<Name>)
    requires AllTyped(v)
    ensures AllTyped(StopConflicts(v, names))
    decreases |names|
  {
    if names != [] {
      StopLinkedTyped(v, names[0]);
      StopConflictsTyped(if LiveNamed(v, names[0]) then StopLinked(v, names[0]) else v, names[1..]);
    }
  }

  lemma NewAreTyped(name: Name, units: Table, w: World)
    ensures AllTyped(NewInstances(name, units, w))
  {
  }

  /** Stop, start and restart requests keep the vector that way. */
  lemma RequestsKeepTyped(units: Table, w: World, before: seq<Svc>, name: Name, after: seq<Svc>)
    requires AllTyped(before)
    ensures AllTyped(StopLinked(before, name))
    ensures StartStep(units, w, before, name, after) ==> AllTyped(after)
  {
    StopLinkedTyped(before, name);
    if StartStep(units, w, before, name, after) {
      var i := Find(before, name);
      if i < |before| {
        Lifecycle.StepTyped(before[i], Lifecycle.Start(w.now, w.spawned));
      } else if Refusal(before, name, units, w.conditionMet).None? {
        var list :| ListsConflicts(units, name, list)
                    && after == StopConflicts(before, list) + NewInstances(name, units, w);
        StopConflictsTyped(before, list);
        NewAreTyped(name, units, w);
        assert forall j :: 0 <= j < |after| ==>
          after[j] in StopConflicts(before, list) || after[j] in NewInstances(name, units, w);
      }
    }
  }

  // ----- what a stop and a start leave behind

  /** Some instance with the name is running and PartOf the stopped one. */
  ghost predicate LinkedAt(v: seq<Svc>, name: Name, n: Name) {
    exists i :: 0 <= i < |v| && v[i].name == n && n != name && name in v[i].partOf && v[i].Running()
  }

  lemma LinkedLast(v: seq<Svc>, name: Name, n: Name)
    requires v != []
    ensures var last := v[|v| - 1];
            LinkedAt(v, name, n) <==>
            LinkedAt(v[..|v| - 1], name, n)
            || (last.name == n && n != name && name in last.partOf && last.Running())
  {
    var rest := v[..|v| - 1];
    if i :| 0 <= i < |v| && v[i].name == n && n != name && name in v[i].partOf && v[i].Running() {
      assert i < |rest| ==> rest[i] == v[i];
    }
    if i :| 0 <= i < |rest| && rest[i].name == n && n != name && name in rest[i].partOf && rest[i].Running() {
      assert v[i] == rest[i];
    }
  }

  lemma {:induction false} LinkedMembers(v: seq<Svc>, name: Name)
    ensures forall n :: n in Linked(v, name) <==> LinkedAt(v, name, n)
    ensures UniqueNames(v) ==> NoDuplicates(Linked(v, name))
    decreases |v|
  {
    if v != [] {
      var last, rest := v[|v| - 1], v[..|v| - 1];
      LinkedMembers(rest, name);
      var here := if last.name != name && name in last.partOf && last.Running() then [last.name] else [];
      assert Linked(v, name) == Linked(rest, name) + here;
      forall n ensures n in Linked(v, name) <==> LinkedAt(v, name, n) {
        LinkedLast(v, name, n);
      }
      if UniqueNames(v) && here != [] {
        assert !LinkedAt(rest, name, last.name);
      }
    }
  }

  /** With unique names a stop request stops exactly the named instance and the running ones that
      are PartOf it. */
  lemma StopLinkedExact(v: seq<Svc>, name: Name, i: nat)
    requires UniqueNames(v) && i < |v|
    ensures |StopLinked(v, name)| == |v|
    ensures StopLinked(v, name)[i]
      == if v[i].name == name || (name in v[i].partOf && v[i].Running()) then AfterStopRequest(v[i]) else v[i]
  {
    var one := StopOne(v, name);
    StopOneOnlyStops(v, name);
    assert forall j :: 0 <= j < |v| ==> Quieter(v[j], one[j]);
    assert one[i] == if v[i].name == name then AfterStopRequest(v[i]) else v[i] by {
      FindUnique(v, i);
    }
    LinkedMembers(one, name);
    StopEachExact(one, Linked(one, name), i);
    assert one[i].name in Linked(one, name) <==> v[i].name != name && name in v[i].partOf && v[i].Running() by {
      if one[i].name in Linked(one, name) {
        var j :| 0 <= j < |one| && one[j].name == one[i].name && one[i].name != name
                 && name in one[j].partOf && one[j].Running();
        assert j == i;
      }
    }
  }

  lemma NamesKept(before: seq<Svc>, after: seq<Svc>)
    requires OnlyStops(before, after)
    ensures UniqueNames(before) ==> UniqueNames(after)
    ensures forall i :: 0 <= i < |before| ==>
      after[i].name == before[i].name && (!before[i].Live() ==> !after[i].Live())
  {
    forall i | 0 <= i < |before| ensures after[i].name == before[i].name && (!before[i].Live() ==> !after[i].Live()) {
      assert Quieter(before[i], after[i]);
    }
  }

  /** After the conflicting units have been stopped none of them has a process. */
  lemma {:induction false} ConflictsStopped(v: seq<Svc>, names: seq<Name>, c: Name)
    requires UniqueNames(v) && (c in names || !LiveNamed(v, c))
    ensures !LiveNamed(StopConflicts(v, names), c)
    decreases |names|
  {
    if names != [] {
      var next := if LiveNamed(v, names[0]) then StopLinked(v, names[0]) else v;
      StopLinkedOnlyStops(v, names[0]);
      NamesKept(v, next);
      if c == names[0] {
        forall i | 0 <= i < |v| && v[i].name == c ensures !next[i].Live() {
          StopLinkedExact(v, c, i);
        }
      }
      ConflictsStopped(next, names[1..], c);
    }
  }

  /** The other units that conflict with the unit, in either direction. */
  predicate ConflictsWith(units: Table, name: Name, c: Name)
    requires name in units
  {
    c != name && (c in units[name].conflicts || (c in units && name in units[c].conflicts))
  }

  ghost predicate ConflictFree(units: Table, name: Name, v: seq<Svc>)
    requires name in units
  {
    forall c :: ConflictsWith(units, name, c) ==> !LiveNamed(v, c)
  }

  /** After a start no conflicting unit has a process, exactly if the unit had no instance yet or
      none had one before: a start of an existing instance does not look at conflicts. */
  lemma StartClearsConflicts(units: Table, w: World, before: seq<Svc>, name: Name, after: seq<Svc>)
    requires UniqueNames(before) && name in units && StartStep(units, w, before, name, after)
    requires !Exists(before, name) ==> Refusal(before, name, units, w.conditionMet).None?
    ensures ConflictFree(units, name, after) <==> !Exists(before, name) || ConflictFree(units, name, before)
  {
    if Exists(before, name) {
      var i := Find(before, name);
      forall c | c != name ensures LiveNamed(after, c) <==> LiveNamed(before, c) {
        assert forall j :: 0 <= j < |before| && j != i ==> after[j] == before[j];
        assert after[i].name == name;
      }
    } else {
      var list :| ListsConflicts(units, name, list)
                  && after == StopConflicts(before, list) + NewInstances(name, units, w);
      StopConflictsOnlyStops(before, list);
      forall c | ConflictsWith(units, name, c) ensures !LiveNamed(after, c) {
        ConflictsStopped(before, list, c);
        var stopped := StopConflicts(before, list);
        forall j | 0 <= j < |after| && after[j].name == c ensures !after[j].Live() {
          if j < |stopped| {
            assert after[j] == stopped[j];
          }
        }
      }
    }
  }

  ghost predicate AllRunning(v: seq<Svc>, names: seq<Name>) {
    forall r :: r in names ==> RunningNamed(v, r)
  }

  lemma {:induction false} FirstInactiveNone(v: seq<Svc>, names: seq<Name>)
    ensures FirstInactive(v, names).None? <==> AllRunning(v, names)
    decreases |names|
  {
    if names != [] {
      FirstInactiveNone(v, names[1..]);
      assert forall r :: r in names <==> r == names[0] || r in names[1..];
    }
  }

  /** The unit has no process and would be started, were it not for its Requisites. */
  ghost predicate Startable(units: Table, w: World, v: seq<Svc>, name: Name) {
    && name in units && !units[name].isTarget && w.conditionMet && units[name].service.execStart
    && w.spawned.Some? && !LiveNamed(v, name)
  }

  /** Such a start spawns a process exactly if the unit has an instance already or all its Requisites
      run; so when it spawns one, either the Requisites run or nobody asked for them. Whatever else
      holds, an inactive Requisite keeps a unit without an instance from being started, and an
      existing one is spawned. */
  lemma StartAndRequisite(units: Table, w: World, before: seq<Svc>, name: Name, after: seq<Svc>)
    requires name in units && StartStep(units, w, before, name, after)
    ensures !Exists(before, name) && !AllRunning(before, units[name].requisite) ==> after == before
    ensures var i := Find(before, name);
            i < |before| && !before[i].Live() ==> after[i].child == w.spawned && !after[i].stopped
    ensures Startable(units, w, before, name) ==>
      (LiveNamed(after, name) <==> Exists(before, name) || AllRunning(before, units[name].requisite))
  {
    var i := Find(before, name);
    FirstInactiveNone(before, units[name].requisite);
    if !Startable(units, w, before, name) {
      return;
    }
    if i < |before| {
      assert !before[i].Live();
      assert after[i].name == name && after[i].Live();
    } else if AllRunning(before, units[name].requisite) {
      var list :| ListsConflicts(units, name, list)
                  && after == StopConflicts(before, list) + NewInstances(name, units, w);
      assert after[|after| - 1] == NewInstances(name, units, w)[0];
    }
  }

  /** What it takes for a start to give a unit a process that has none: that the spawn succeeds, and an
      instance or everything that is asked of a unit without one. */
  lemma StartSpawnsIff(units: Table, w: World, before: seq<Svc>, name: Name, after: seq<Svc>)
    requires StartStep(units, w, before, name, after) && !LiveNamed(before, name)
    ensures LiveNamed(after, name) <==>
      && w.spawned.Some?
      && (Exists(before, name)
          || (name in units && !units[name].isTarget && w.conditionMet && units[name].service.execStart
              && AllRunning(before, units[name].requisite)))
  {
    var i := Find(before, name);
    if name in units {
      FirstInactiveNone(before, units[name].requisite);
    }
    if i < |before| {
      assert !before[i].Live() && after[i].name == name;
      forall j | 0 <= j < |before| && j != i && before[j].name == name ensures !after[j].Live() {
        assert after[j] == before[j];
      }
      assert after[i].Live() <==> w.spawned.Some?;
    } else if Refusal(before, name, units, w.conditionMet).None? {
      NewIsLive(units, w, before, name, after);
    }
  }

  lemma NewIsLive(units: Table, w: World, before: seq<Svc>, name: Name, after: seq<Svc>)
    requires StartStep(units, w, before, name, after) && !Exists(before, name)
    requires Refusal(before, name, units, w.conditionMet).None?
    ensures LiveNamed(after, name) <==> w.spawned.Some?
  {
    var list :| ListsConflicts(units, name, list)
                && after == StopConflicts(before, list) + NewInstances(name, units, w);
    var stopped := StopConflicts(before, list);
    StopConflictsOnlyStops(before, list);
    if w.spawned.Some? {
      assert after[|after| - 1] == NewInstances(name, units, w)[0];
    } else {
      forall j | 0 <= j < |after| ensures after[j].name != name {
        assert after[j] == stopped[j] && Quieter(before[j], stopped[j]);
      }
    }
  }

  /** "a", which has been started before, has the Requisite "b", which does not run. */
  function WithRequisite(): Table {
    map["a" := Unit(false, [], [], [], ["b"], [], [], [], [], PLAIN_SERVICE),
        "b" := Unit(false, [], [], [], [], [], [], [], [], PLAIN_SERVICE)]
  }

  /** Starting "a" again spawns its process; without an instance of "a" the same start is refused. */
  lemma StartAgainIgnoresRequisite(now: nat)
    ensures var units := WithRequisite();
      var before := [NewSvc("a", units["a"], None, now)];
      var after := before[0 := AfterStartRequest(before[0], now, Some(3))];
      && UniqueNames(before) && StartStep(units, World(true, Some(3), now), before, "a", after)
      && LiveNamed(after, "a") && !AllRunning(after, units["a"].requisite)
      && Refusal([], "a", units, true) == Some(RequisiteInactive("b"))
  {
    var units := WithRequisite();
    var before := [NewSvc("a", units["a"], None, now)];
    var after := before[0 := AfterStartRequest(before[0], now, Some(3))];
    assert Find(before, "a") == 0;
    assert after[0].Live() && after[0].name == "a";
    assert "b" in units["a"].requisite && !RunningNamed(after, "b") && !RunningNamed([], "b");
  }

  /** Two conflicting services; "a" has been started before. */
  function Rivals(): Table {
    map["a" := Unit(false, [], [], [], [], [], ["b"], [], [], PLAIN_SERVICE),
        "b" := Unit(false, [], [], [], [], [], [], [], [], PLAIN_SERVICE)]
  }

  /** Starting "a" again while "b" runs leaves both running. */
  lemma StartAgainIgnoresConflicts(now: nat)
    ensures var units := Rivals();
      var before := [NewSvc("a", units["a"], None, now), NewSvc("b", units["b"], Some(2), now)];
      var after := before[0 := AfterStartRequest(before[0], now, Some(3))];
      && UniqueNames(before) && StartStep(units, World(true, Some(3), now), before, "a", after)
      && LiveNamed(after, "a") && LiveNamed(after, "b") && !ConflictFree(units, "a", after)
  {
    var units := Rivals();
    var before := [NewSvc("a", units["a"], None, now), NewSvc("b", units["b"], Some(2), now)];
    var after := before[0 := AfterStartRequest(before[0], now, Some(3))];
    assert Find(before, "a") == 0;
    assert after[0].Live() && after[1].Live() && after[1].name == "b";
    assert ConflictsWith(units, "a", "b");
  }

  // ----- the vector of instances

  ghost predicate Distinct(services: seq<ServiceInstance>) {
    forall i, j :: 0 <= i < j < |services| ==> services[i] != services[j]
  }

  function Views(services: seq<ServiceInstance>): (v: seq<Svc>)
    reads services
    ensures |v| == |services| && forall i :: 0 <= i < |v| ==> v[i] == services[i].View()
  {
    seq(|services|, i requires 0 <= i < |services| reads services => services[i].View())
  }

  lemma OneUpdated<T>(v: seq<T>, w: seq<T>, i: nat, x: T)
    requires i < |v| == |w| && w[i] == x && forall j :: 0 <= j < |v| && j != i ==> w[j] == v[j]
    ensures w == v[i := x]
  {
  }

  class Manager {
    var services: seq<ServiceInstance>

    constructor ()
      ensures services == []
    {
      services := [];
    }

    /** The position of the first instance with the name. */
    method IndexOf(name: Name) returns (i: nat)
      ensures i == Find(Views(services), name)
    {
      i := 0;
      while i < |services| && services[i].name != name
        invariant i <= |services| && Find(Views(services)[i..], name) + i == Find(Views(services), name)
      {
        assert Views(services)[i..][1..] == Views(services)[i + 1..];
        i := i + 1;
      }
    }

    method StopAt(i: nat) returns (wasRunning: bool)
      requires Distinct(services) && i < |services|
      modifies services[i]
      ensures Views(services) == old(Views(services))[i := AfterStopRequest(old(services[i].View()))]
      ensures wasRunning == old(services[i].View()).Running()
    {
      ghost var v := Views(services);
      wasRunning := services[i].StopRequest();
      assert forall j :: 0 <= j < |services| && j != i ==> services[j].View() == v[j];
      OneUpdated(v, Views(services), i, AfterStopRequest(v[i]));
    }

    method DoStopOne(name: Name) returns (r: Response)
      requires Distinct(services)
      modifies services
      ensures Views(services) == StopOne(old(Views(services)), name)
      ensures r == StopResponse(old(Views(services)), name)
    {
      var i := IndexOf(name);
      if i == |services| {
        r := UnknownUnit;
      } else {
        var wasRunning := StopAt(i);
        r := if wasRunning then Stopped else AlreadyStopped;
      }
    }

    method StopAll(names: seq<Name>)
      requires Distinct(services)
      modifies services
      ensures Views(services) == StopEach(old(Views(services)), names)
    {
      var i := 0;
      while i < |names|
        invariant i <= |names|
        invariant StopEach(Views(services), names[i..]) == StopEach(old(Views(services)), names)
      {
        assert names[i..][1..] == names[i + 1..];
        var _ := DoStopOne(names[i]);
        i := i + 1;
      }
    }

    method LinkedTo(name: Name) returns (linked: seq<Name>)
      ensures linked == Linked(Views(services), name)
    {
      linked := [];
      for i := 0 to |services|
        invariant linked == Linked(Views(services)[..i], name)
      {
        var s := services[i];
        assert Views(services)[..i + 1][..i] == Views(services)[..i];
        if s.name != name && name in s.partOf && (s.child.Some? || s.trackedPid.Some? || s.active) {
          linked := linked + [s.name];
        }
      }
      assert Views(services)[..|services|] == Views(services);
    }

    method DoStop(name: Name) returns (r: Response)
      requires Distinct(services)
      modifies services
      ensures Views(services) == StopLinked(old(Views(services)), name)
      ensures r == StopResponse(old(Views(services)), name)
    {
      r := DoStopOne(name);
      var linked := LinkedTo(name);
      StopAll(linked);
    }

    method IsRunning(name: Name) returns (b: bool)
      ensures b == RunningNamed(Views(services), name)
    {
      for i := 0 to |services|
        invariant forall j :: 0 <= j < i ==> !(Views(services)[j].name == name && Views(services)[j].Running())
      {
        var s := services[i];
        if s.name == name && (s.child.Some? || s.trackedPid.Some? || s.active) {
          assert Views(services)[i].name == name && Views(services)[i].Running();
          return true;
        }
      }
      b := false;
    }

    method IsLive(name: Name) returns (b: bool)
      ensures b == LiveNamed(Views(services), name)
    {
      for i := 0 to |services|
        invariant forall j :: 0 <= j < i ==> !(Views(services)[j].name == name && Views(services)[j].Live())
      {
        var s := services[i];
        if s.name == name && (s.child.Some? || s.trackedPid.Some?) {
          assert Views(services)[i].name == name && Views(services)[i].Live();
          return true;
        }
      }
      b := false;
    }

    method InactiveRequisite(requisite: seq<Name>) returns (r: Option<Name>)
      ensures r == FirstInactive(Views(services), requisite)
    {
      var i := 0;
      while i < |requisite|
        invariant i <= |requisite|
        invariant FirstInactive(Views(services), requisite) == FirstInactive(Views(services), requisite[i..])
      {
        var running := IsRunning(requisite[i]);
        if !running {
          return Some(requisite[i]);
        }
        assert requisite[i..][1..] == requisite[i + 1..];
        i := i + 1;
      }
      r := None;
    }

    /** The checks of `do_start` for a unit without an instance. */
    method CheckStart(name: Name, units: Table, conditionMet: bool) returns (r: Option<Response>)
      ensures r == Refusal(Views(services), name, units, conditionMet)
    {
      if name !in units {
        return Some(UnknownUnit);
      }
      if units[name].isTarget {
        return Some(IsTarget);
      }
      if !conditionMet {
        return Some(ConditionNotMet);
      }
      var inactive := InactiveRequisite(units[name].requisite);
      if inactive.Some? {
        return Some(RequisiteInactive(inactive.value));
      }
      if !units[name].service.execStart {
        return Some(NoExecStart);
      }
      r := None;
    }

    method ConflictsOf(name: Name, units: Table) returns (list: seq<Name>)
      requires name in units
      ensures ListsConflicts(units, name, list)
    {
      list := units[name].conflicts;
      var rest := units.Keys;
      while rest != {}
        invariant rest <= units.Keys && units[name].conflicts <= list
        invariant forall c :: c in list <==>
          c in units[name].conflicts || (c in units && c !in rest && c != name && name in units[c].conflicts)
      {
        var other :| other in rest;
        rest := rest - {other};
        if other != name && name in units[other].conflicts {
          list := list + [other];
        }
      }
    }

    method StopIfLive(name: Name)
      requires Distinct(services)
      modifies services
      ensures Views(services) == (if LiveNamed(old(Views(services)), name) then StopLinked(old(Views(services)), name)
                                  else old(Views(services)))
    {
      var live := IsLive(name);
      if live {
        var _ := DoStop(name);
      }
    }

    method StopConflicting(list: seq<Name>)
      requires Distinct(services)
      modifies services
      ensures Views(services) == StopConflicts(old(Views(services)), list)
    {
      var i := 0;
      while i < |list|
        invariant i <= |list|
        invariant StopConflicts(Views(services), list[i..]) == StopConflicts(old(Views(services)), list)
      {
        assert list[i..][1..] == list[i + 1..];
        StopIfLive(list[i]);
        i := i + 1;
      }
    }

    method StartAt(i: nat, w: World)
      requires Distinct(services) && i < |services|
      modifies services[i]
      ensures Views(services) == old(Views(services))[i := AfterStartRequest(old(services[i].View()), w.now, w.spawned)]
    {
      ghost var v := Views(services);
      services[i].StartRequest(w.now, w.spawned);
      assert forall j :: 0 <= j < |services| && j != i ==> services[j].View() == v[j];
      OneUpdated(v, Views(services), i, AfterStartRequest(v[i], w.now, w.spawned));
    }

    method Push(name: Name, u: Unit, w: World)
      requires Distinct(services)
      modifies this
      ensures Distinct(services) && old(services) <= services
      ensures |services| == |old(services)| + 1 && fresh(services[|old(services)|])
      ensures Views(services) == old(Views(services)) + [NewSvc(name, u, w.spawned, w.now)]
    {
      var instance := new ServiceInstance(name, u, w.spawned, w.now);
      ghost var before := services;
      services := services + [instance];
      assert services[..|services| - 1] == before;
    }

    /** Start a unit that has no instance and passed its checks. */
    method StartNew(name: Name, units: Table, w: World) returns (ghost list: seq<Name>)
      requires Distinct(services) && name in units
      modifies this, services
      ensures Distinct(services) && old(services) <= services
      ensures |services| <= |old(services)| + 1 && (|services| > |old(services)| ==> fresh(services[|old(services)|]))
      ensures ListsConflicts(units, name, list)
      ensures Views(services) == StopConflicts(old(Views(services)), list) + NewInstances(name, units, w)
    {
      var conflicting := ConflictsOf(name, units);
      list := conflicting;
      StopConflicting(conflicting);
      if w.spawned.Some? {
        Push(name, units[name], w);
      }
    }

    method DoStart(name: Name, units: Table, w: World) returns (r: Response)
      requires Distinct(services)
      modifies this, services
      ensures Distinct(services) && old(services) <= services
      ensures |services| <= |old(services)| + 1 && (|services| > |old(services)| ==> fresh(services[|old(services)|]))
      ensures StartStep(units, w, old(Views(services)), name, Views(services))
      ensures r == StartResponse(old(Views(services)), name, units, w)
    {
      var i := IndexOf(name);
      if i < |services| {
        var live := services[i].child.Some? || services[i].trackedPid.Some?;
        StartAt(i, w);
        r := if live then AlreadyRunning else if w.spawned.Some? then StartedUnit else FailedToStart;
        return;
      }
      var refusal := CheckStart(name, units, w.conditionMet);
      if refusal.Some? {
        return refusal.value;
      }
      ghost var list := StartNew(name, units, w);
      r := if w.spawned.Some? then StartedUnit else FailedToStart;
    }

    /** The `Restart` request: a stop, then a start unless the stop's answer begins with "unknown". */
    method DoRestart(name: Name, units: Table, w: World) returns (r: Response)
      requires Distinct(services)
      modifies this, services
      ensures Distinct(services) && old(services) <= services
      ensures RestartStep(units, w, old(Views(services)), name, Views(services))
      ensures r == RestartResponse(old(Views(services)), name, units, w)
      ensures r == UnknownUnit <==> !Exists(old(Views(services)), name)
    {
      RestartAnswers(Views(services), name, units, w);
      r := DoStop(name);
      if UNKNOWN <= StopText(r, name) {
        return;
      }
      r := DoStart(name, units, w);
    }

    method ListRunningOutside(closure: set<Name>) returns (names: seq<Name>)
      ensures names == RunningOutside(Views(services), closure)
    {
      names := [];
      for i := 0 to |services|
        invariant names == RunningOutside(Views(services)[..i], closure)
      {
        var s := services[i];
        assert Views(services)[..i + 1][..i] == Views(services)[..i];
        if (s.child.Some? || s.trackedPid.Some? || s.active) && s.name !in closure {
          names := names + [s.name];
        }
      }
      assert Views(services)[..|services|] == Views(services);
    }

    /** The units of the closure to start, in the arbitrary order of the set. */
    method ListToStart(closure: set<Name>, units: Table) returns (names: seq<Name>)
      ensures NoDuplicates(names)
      ensures forall n :: n in names <==> n in closure && ToStart(Views(services), units, n)
    {
      names := [];
      var rest := closure;
      while rest != {}
        invariant rest <= closure && NoDuplicates(names)
        invariant forall n :: n in names <==> n in closure && n !in rest && ToStart(Views(services), units, n)
      {
        var n :| n in rest;
        rest := rest - {n};
        var running := IsRunning(n);
        if n in units && !units[n].isTarget && units[n].service.execStart && !running {
          names := names + [n];
        }
      }
    }

    method StartNext(names: seq<Name>, i: nat, units: Table, world: Name -> World, ghost trace: seq<seq<Svc>>)
      returns (ghost longer: seq<seq<Svc>>)
      requires Distinct(services) && i < |names|
      requires StartsTrace(units, world, names, trace) && |trace| == i + 1 && trace[i] == Views(services)
      modifies this, services
      ensures Distinct(services) && old(services) <= services
      ensures |services| <= |old(services)| + 1 && (|services| > |old(services)| ==> fresh(services[|old(services)|]))
      ensures StartsTrace(units, world, names, longer) && longer == trace + [Views(services)]
    {
      var _ := DoStart(names[i], units, world(names[i]));
      TraceExtends(units, world, names, trace, Views(services));
      longer := trace + [Views(services)];
    }

    method StartAll(names: seq<Name>, units: Table, world: Name -> World) returns (ghost trace: seq<seq<Svc>>)
      requires Distinct(services)
      modifies this, services
      ensures Distinct(services)
      ensures StartsTrace(units, world, names, trace)
      ensures |trace| == |names| + 1 && trace[0] == old(Views(services)) && trace[|names|] == Views(services)
    {
      trace := [Views(services)];
      var i := 0;
      while i < |names|
        invariant i <= |names| && Distinct(services) && old(services) <= services
        invariant forall j :: |old(services)| <= j < |services| ==> fresh(services[j])
        invariant |trace| == i + 1 && trace[0] == old(Views(services)) && trace[i] == Views(services)
        invariant StartsTrace(units, world, names, trace)
      {
        trace := StartNext(names, i, units, world, trace);
        i := i + 1;
      }
    }

    /** The part of `do_isolate` after the closure. */
    method StopAndStart(closure: set<Name>, units: Table, world: Name -> World)
      returns (ghost started: seq<Name>, ghost trace: seq<seq<Svc>>)
      requires Distinct(services)
      modifies this, services
      ensures Distinct(services)
      ensures IsolateTrace(units, world, closure, old(Views(services)), started, trace)
      ensures Views(services) == trace[|started|]
    {
      var running := ListRunningOutside(closure);
      StopAll(running);
      var toStart := ListToStart(closure, units);
      started := toStart;
      trace := StartAll(toStart, units, world);
    }

    /** `do_isolate` */
    method DoIsolate(target: Name, units: Table, world: Name -> World)
      returns (r: Response, ghost closure: set<Name>, ghost started: seq<Name>, ghost trace: seq<seq<Svc>>)
      requires Distinct(services)
      modifies this, services
      ensures Distinct(services)
      ensures r == if target !in units then UnknownUnit else if !units[target].isTarget then NotATarget else Isolated
      ensures r != Isolated ==> services == old(services) && Views(services) == old(Views(services))
      ensures r == Isolated ==> forall n :: n in closure <==> Reaches(IsolateGraph(units, target), target, n)
      ensures r == Isolated ==> IsolateTrace(units, world, closure, old(Views(services)), started, trace)
                                && Views(services) == trace[|started|]
    {
      closure, started, trace := {}, [], [];
      if target !in units {
        r := UnknownUnit;
      } else if !units[target].isTarget {
        r := NotATarget;
      } else {
        var names := Closure(units, target);
        started, trace := StopAndStart(names, units, world);
        closure, r := names, Isolated;
      }
    }
  }

  /** What still counts as running after an isolate is pulled in by the target, or outlived its
      stop; instances outside keep no process in either case. */
  lemma IsolateSurvivors(units: Table, target: Name, world: Name -> World, closure: set<Name>, before: seq<Svc>,
                         started: seq<Name>, trace: seq<seq<Svc>>, i: nat)
    requires UniqueNames(before) && IsolateTrace(units, world, closure, before, started, trace)
    requires forall n :: n in closure <==> Reaches(IsolateGraph(units, target), target, n)
    requires i < |trace[|started|]| && trace[|started|][i].Running()
    ensures Reaches(IsolateGraph(units, target), target, trace[|started|][i].name)
      || (i < |before| && SurvivesStop(before[i]) && !trace[|started|][i].Live())
  {
    IsolateQuiets(units, world, closure, before, started, trace, |started|);
  }

  /** Isolating to a target leaves nothing running that the target does not pull in, given unique
      instance names and instances as start-up, triggers and requests create them. */
  lemma IsolateIsolates(units: Table, target: Name, world: Name -> World, closure: set<Name>, before: seq<Svc>,
                        started: seq<Name>, trace: seq<seq<Svc>>, i: nat)
    requires UniqueNames(before) && IsolateTrace(units, world, closure, before, started, trace)
    requires forall n :: n in closure <==> Reaches(IsolateGraph(units, target), target, n)
    requires AllTyped(before)
    requires i < |trace[|started|]| && trace[|started|][i].Running()
    ensures Reaches(IsolateGraph(units, target), target, trace[|started|][i].name)
  {
    IsolateSurvivors(units, target, world, closure, before, started, trace, i);
    if i < |before| {
      Lifecycle.TypedNeverSurvives(before[i], []);
    }
  }

  /** The unit names a command and is no target. */
  predicate Runnable(units: Table, n: Name) {
    n in units && !units[n].isTarget && units[n].service.execStart
  }

  /** Isolating starts, once each, exactly the runnable units of the closure that do not run after the
      stops. */
  lemma IsolateStarts(units: Table, world: Name -> World, closure: set<Name>, before: seq<Svc>,
                      started: seq<Name>, trace: seq<seq<Svc>>, n: Name)
    requires IsolateTrace(units, world, closure, before, started, trace)
    ensures n in started
      <==> n in closure && Runnable(units, n)
           && forall i :: 0 <= i < |trace[0]| && trace[0][i].name == n ==> !trace[0][i].Running()
    ensures multiset(started)[n] <= 1
  {
    if n in started {
      var k :| 0 <= k < |started| && started[k] == n;
      assert started == started[..k] + [n] + started[k + 1..];
      assert n !in started[..k] && n !in started[k + 1..];
    }
  }

  /** Starting one unit gives no process to another. */
  lemma OthersStayDown(units: Table, w: World, before: seq<Svc>, name: Name, after: seq<Svc>, n: Name)
    requires StartStep(units, w, before, name, after) && n != name && !LiveNamed(before, n)
    ensures !LiveNamed(after, n)
  {
    if Find(before, name) == |before| && Refusal(before, name, units, w.conditionMet).None? {
      var list :| ListsConflicts(units, name, list)
                  && after == StopConflicts(before, list) + NewInstances(name, units, w);
      var stopped := StopConflicts(before, list);
      StopConflictsOnlyStops(before, list);
      forall i | 0 <= i < |after| && after[i].name == n ensures !after[i].Live() {
        assert i < |stopped| && after[i] == stopped[i] && Quieter(before[i], stopped[i]);
      }
    }
  }

  lemma {:induction false} WaitsForItsTurn(units: Table, world: Name -> World, names: seq<Name>,
                                           trace: seq<seq<Svc>>, n: Name, k: nat)
    requires StartsTrace(units, world, names, trace) && k < |trace| && n !in names[..k]
    requires !LiveNamed(trace[0], n)
    ensures !LiveNamed(trace[k], n)
  {
    if k > 0 {
      assert names[..k][..k - 1] == names[..k - 1] && names[..k][k - 1] == names[k - 1];
      WaitsForItsTurn(units, world, names, trace, n, k - 1);
      OthersStayDown(units, world(names[k - 1]), trace[k - 1], names[k - 1], trace[k], n);
    }
  }

  /** When its turn comes such a unit has no process, and its start gives it one exactly if it has an
      instance or its conditions hold and its Requisites run, and the spawn succeeds. */
  lemma IsolateBringsUp(units: Table, world: Name -> World, closure: set<Name>, before: seq<Svc>,
                        started: seq<Name>, trace: seq<seq<Svc>>, k: nat)
    requires IsolateTrace(units, world, closure, before, started, trace) && k < |started|
    ensures var n := started[k];
      && n in units && !LiveNamed(trace[k], n)
      && (LiveNamed(trace[k + 1], n) <==>
            && world(n).spawned.Some?
            && (Exists(trace[k], n) || (world(n).conditionMet && AllRunning(trace[k], units[n].requisite))))
  {
    var n := started[k];
    IsolateStarts(units, world, closure, before, started, trace, n);
    WaitsForItsTurn(units, world, started, trace, n, k);
    StartSpawnsIff(units, world(n), trace[k], n, trace[k + 1]);
  }

  /** The answer to a start names the first thing that stands in its way. */
  lemma AnswersOfStart(v: seq<Svc>, name: Name, units: Table, w: World)
    ensures var r := StartResponse(v, name, units, w);
      && (r == AlreadyRunning <==> Exists(v, name) && v[Find(v, name)].Live())
      && (r == UnknownUnit <==> !Exists(v, name) && name !in units)
      && (!Exists(v, name) && name in units ==>
            && (r == IsTarget <==> units[name].isTarget)
            && (r == ConditionNotMet <==> !units[name].isTarget && !w.conditionMet)
            && (r.RequisiteInactive? ==> r.requisite in units[name].requisite && !RunningNamed(v, r.requisite))
            && (r == NoExecStart <==> !units[name].isTarget && w.conditionMet && !units[name].service.execStart
                                      && AllRunning(v, units[name].requisite)))
      && (r == FailedToStart ==> w.spawned.None?) && (r == StartedUnit ==> w.spawned.Some?)
  {
    if name in units {
      FirstInactiveNone(v, units[name].requisite);
      FirstInactiveListed(v, units[name].requisite);
    }
  }

  lemma {:induction false} FirstInactiveListed(v: seq<Svc>, names: seq<Name>)
    ensures var r := FirstInactive(v, names); r.Some? ==> r.value in names && !RunningNamed(v, r.value)
    decreases |names|
  {
    if names != [] {
      FirstInactiveListed(v, names[1..]);
    }
  }

  /** The answer to a stop: whether there is such an instance, and whether it ran. */
  lemma AnswersOfStop(v: seq<Svc>, name: Name)
    ensures var r := StopResponse(v, name);
      && (r == UnknownUnit <==> forall i :: 0 <= i < |v| ==> v[i].name != name)
      && (r == Stopped <==> Exists(v, name) && v[Find(v, name)].Running())
      && r in {UnknownUnit, Stopped, AlreadyStopped}
  {
  }
}
