/** Layered start-up in `Init::run`: dependency checks, parallel start of a layer, late crash
    detection, failure propagation and the rescue path (src/applets/core/init/mod.rs). */
module Boot {
  import opened Graphs
  import opened Prelude
  import opened Units
  import opened Depths

  /** What `start_unit` can come back with; `Panicked` is a start thread that died, whose result
      is replaced by one that names no unit. */
  datatype Outcome =
    | Panicked
    | StartFailed
    | NoInstance
    | Spawned(hasChild: bool)

  datatype Instance = Instance(
    name: Name,
    hasChild: bool,
    waitingDaemonize: bool,
    restartAlways: bool,
    restartOnFailure: bool)

  /** The variables of the start-up loop; `starts` records the calls of `start_unit`. */
  datatype State = State(services: seq<Instance>, ok: map<Name, bool>, starts: seq<Name>)

  const INITIAL := State([], map[], [])

  function NewInstance(name: Name, u: Unit, hasChild: bool): Instance {
    Instance(name, hasChild, u.service.forking && hasChild,
             u.service.restart == RestartAlways, u.service.restart == RestartOnFailure)
  }

  predicate RecordedFalse(ok: map<Name, bool>, d: Name) {
    d in ok && !ok[d]
  }

  predicate RecordedTrue(ok: map<Name, bool>, d: Name) {
    d in ok && ok[d]
  }

  /** Some required unit has failed. */
  predicate RequiredFailed(u: Unit, ok: map<Name, bool>) {
    exists d :: d in u.required && RecordedFalse(ok, d)
  }

  /** Some requisite unit is not known to have succeeded. */
  predicate RequisiteMissing(u: Unit, ok: map<Name, bool>) {
    exists d :: d in u.requisite && !RecordedTrue(ok, d)
  }

  /** The unit passes its checks and is handed to `start_unit`. */
  predicate Starts(u: Unit, ok: map<Name, bool>) {
    !u.isTarget && !RequiredFailed(u, ok) && !RequisiteMissing(u, ok)
  }

  /** The entry a unit of the layer gets, given the entries of the layers before. */
  function Verdict(u: Unit, ok: map<Name, bool>, outcome: Outcome): Option<bool> {
    if u.isTarget then Some(!RequiredFailed(u, ok))
    else if !Starts(u, ok) then Some(false)
    else match outcome
      case Panicked => None
      case StartFailed => Some(false)
      case NoInstance => Some(true)
      case Spawned(_) => Some(true)
  }

  function Entry(ok: map<Name, bool>, n: Name): Option<bool> {
    if n in ok then Some(ok[n]) else None
  }

  predicate InLayer(units: Table, order: seq<Name>, depths: map<Name, nat>, depth: nat, n: Name) {
    n in order && n in units && n in depths && depths[n] == depth
  }

  /** The units of a list that are handed to `start_unit`, in list order. */
  function Started(units: Table, layer: seq<Name>, ok: map<Name, bool>): seq<Name> {
    if layer == [] then []
    else
      var n := layer[|layer| - 1];
      Started(units, layer[..|layer| - 1], ok)
      + if n in units && Starts(units[n], ok) then [n] else []
  }

  /** The instances those starts leave behind, in list order. */
  function Instances(units: Table, started: seq<Name>, outcome: Name -> Outcome): seq<Instance> {
    if started == [] then []
    else
      var n := started[|started| - 1];
      Instances(units, started[..|started| - 1], outcome)
      + if n in units && outcome(n).Spawned? then [NewInstance(n, units[n], outcome(n).hasChild)] else []
  }

  function Layer(order: seq<Name>, depths: map<Name, nat>, depth: nat): seq<Name> {
    if order == [] then []
    else
      var n := order[|order| - 1];
      Layer(order[..|order| - 1], depths, depth)
      + if n in depths && depths[n] == depth then [n] else []
  }

  /** Units of the layer get their verdict, other entries stay. */
  ghost predicate VerdictRecorded(units: Table, order: seq<Name>, depths: map<Name, nat>, depth: nat,
                                  outcome: Name -> Outcome, before: map<Name, bool>, after: map<Name, bool>, n: Name) {
    Entry(after, n) ==
    if InLayer(units, order, depths, depth, n) then Verdict(units[n], before, outcome(n)) else Entry(before, n)
  }

  /** Effect of the checks, the starts and the merge of one layer. */
  ghost predicate LayerStarted(units: Table, order: seq<Name>, depths: map<Name, nat>, depth: nat,
                               outcome: Name -> Outcome, before: State, after: State) {
    var started := Started(units, Layer(order, depths, depth), before.ok);
    && (forall n :: VerdictRecorded(units, order, depths, depth, outcome, before.ok, after.ok, n))
    && after.starts == before.starts + started
    && after.services == before.services + Instances(units, started, outcome)
  }

  /** An instance that the crash detection waits for. */
  predicate Watched(s: Instance, needed: set<Name>) {
    s.name in needed && !s.waitingDaemonize && !s.restartAlways && !s.restartOnFailure && s.hasChild
  }

  /** Effect of the late crash detection: some watched children are gone, and some of those
      make their unit false. */
  ghost predicate CrashesDetected(needed: set<Name>, before: State, after: State) {
    && after.starts == before.starts
    && |after.services| == |before.services|
    && (forall i :: 0 <= i < |before.services| ==>
          || after.services[i] == before.services[i]
          || (Watched(before.services[i], needed)
              && after.services[i] == before.services[i].(hasChild := false)))
    && (forall n :: Entry(after.ok, n) == Entry(before.ok, n)
          || (RecordedFalse(after.ok, n) && n in needed && n in before.ok))
  }

  /** The units that later layers require. */
  function Needed(units: Table, order: seq<Name>, depths: map<Name, nat>, depth: nat): set<Name> {
    set n, d | n in order && n in units && n in depths && depths[n] > depth && d in units[n].required :: d
  }

  /** One round of the start-up loop. */
  ghost predicate LayerStep(units: Table, order: seq<Name>, depths: map<Name, nat>, depth: nat,
                            outcome: Name -> Outcome, before: State, after: State) {
    exists mid ::
      && LayerStarted(units, order, depths, depth, outcome, before, mid)
      && CrashesDetected(Needed(units, order, depths, depth), mid, after)
  }

  /** A run of the start-up loop; `run[k]` is the state before layer k. */
  ghost predicate BootRun(units: Table, order: seq<Name>, depths: map<Name, nat>,
                          outcome: Name -> Outcome, run: seq<State>) {
    && |run| > 0 && run[0] == INITIAL
    && forall k :: 0 <= k < |run| - 1 ==> LayerStep(units, order, depths, k, outcome, run[k], run[k + 1])
  }

  /** The run covers exactly the layers that exist. */
  ghost predicate CompleteRun(units: Table, order: seq<Name>, depths: map<Name, nat>,
                              outcome: Name -> Outcome, run: seq<State>) {
    && BootRun(units, order, depths, outcome, run)
    && (forall n :: n in depths ==> depths[n] + 2 <= |run|)
    && (|run| > 2 ==> exists n :: n in depths && depths[n] + 2 == |run|)
  }

  /** The order and its depths as the two earlier phases produce them. */
  ghost predicate Layered(units: Table, order: seq<Name>, depths: map<Name, nat>) {
    && NoDuplicates(order)
    && (forall n :: n in order ==> n in units)
    && depths.Keys == Nodes(order, units)
    && (forall n :: n in depths ==> LongestChain(LayerGraph(order, units), n, depths[n]))
  }

  /** What the start-up loop needs of its layers: dependencies lie in earlier ones. */
  ghost predicate Ranked(units: Table, order: seq<Name>, depths: map<Name, nat>) {
    && NoDuplicates(order)
    && (forall n :: n in order ==> n in units && n in depths)
    && (forall n, d :: n in order && d in order && LayerDep(units, n, d) ==> depths[d] < depths[n])
  }

  lemma LayeredIsRanked(units: Table, order: seq<Name>, depths: map<Name, nat>)
    requires Layered(units, order, depths)
    ensures Ranked(units, order, depths)
  {
    forall n, d | n in order && d in order && LayerDep(units, n, d) ensures depths[d] < depths[n] {
      DependencyIsShallower(units, order, depths, n, d);
    }
  }

  lemma {:induction false} DependencyIsShallower(units: Table, order: seq<Name>, depths: map<Name, nat>,
                                                 n: Name, d: Name)
    requires Layered(units, order, depths)
    requires n in order && d in order && LayerDep(units, n, d)
    ensures depths[d] < depths[n]
  {
    var g := LayerGraph(order, units);
    LayerEdge(order, units, n, d);
    assert LongestChain(g, d, depths[d]) && LongestChain(g, n, depths[n]);
    SuccessorChainsShorter(g, n, d, depths[n]);
    var p :| ChainFrom(g, p, d, depths[d]);
  }

  lemma LayerMembers(order: seq<Name>, depths: map<Name, nat>, depth: nat)
    ensures forall n :: n in Layer(order, depths, depth) <==> n in order && n in depths && depths[n] == depth
    ensures NoDuplicates(order) ==> NoDuplicates(Layer(order, depths, depth))
  {
    if order != [] {
      var n := order[|order| - 1];
      var rest := order[..|order| - 1];
      LayerMembers(rest, depths, depth);
      assert order == rest + [n];
      assert forall m :: m in order <==> m in rest || m == n;
    }
  }

  lemma StartedMembers(units: Table, layer: seq<Name>, ok: map<Name, bool>)
    ensures forall n :: n in Started(units, layer, ok) <==> n in layer && n in units && Starts(units[n], ok)
    ensures NoDuplicates(layer) ==> NoDuplicates(Started(units, layer, ok))
  {
    if layer != [] {
      var n := layer[|layer| - 1];
      var rest := layer[..|layer| - 1];
      StartedMembers(units, rest, ok);
      assert layer == rest + [n];
      assert forall m :: m in layer <==> m in rest || m == n;
    }
  }

  lemma StartedAppend(units: Table, layer: seq<Name>, n: Name, ok: map<Name, bool>)
    ensures Started(units, layer + [n], ok)
            == Started(units, layer, ok) + if n in units && Starts(units[n], ok) then [n] else []
  {
    assert (layer + [n])[..|layer|] == layer;
  }

  lemma InstancesAppend(units: Table, started: seq<Name>, n: Name, outcome: Name -> Outcome)
    ensures Instances(units, started + [n], outcome)
            == Instances(units, started, outcome)
               + if n in units && outcome(n).Spawned? then [NewInstance(n, units[n], outcome(n).hasChild)] else []
  {
    assert (started + [n])[..|started|] == started;
  }

  // ----- the loop of Init::run

  method FailedRequiredDep(u: Unit, ok: map<Name, bool>) returns (failed: Option<Name>)
    ensures failed.Some? <==> RequiredFailed(u, ok)
    ensures failed.Some? ==> failed.value in u.required && RecordedFalse(ok, failed.value)
  {
    for i := 0 to |u.required|
      invariant forall j :: 0 <= j < i ==> !RecordedFalse(ok, u.required[j])
    {
      if RecordedFalse(ok, u.required[i]) {
        return Some(u.required[i]);
      }
    }
    failed := None;
  }

  method FailedRequisiteDep(u: Unit, ok: map<Name, bool>) returns (missing: Option<Name>)
    ensures missing.Some? <==> RequisiteMissing(u, ok)
    ensures missing.Some? ==> missing.value in u.requisite && !RecordedTrue(ok, missing.value)
  {
    for i := 0 to |u.requisite|
      invariant forall j :: 0 <= j < i ==> RecordedTrue(ok, u.requisite[j])
    {
      if !RecordedTrue(ok, u.requisite[i]) {
        return Some(u.requisite[i]);
      }
    }
    missing := None;
  }

  /** Entries are only of units in layers below `depth`, and every instance has one. */
  ghost predicate RecordsBelow(units: Table, order: seq<Name>, depths: map<Name, nat>, depth: int, s: State) {
    && (forall n :: n in s.ok ==> n in order && n in depths && depths[n] < depth)
    && (forall i :: 0 <= i < |s.services| ==> s.services[i].name in s.ok)
  }

  /** What the checks alone record: reached or failed targets and skipped units. */
  function Checked(u: Unit, ok: map<Name, bool>): Option<bool> {
    if u.isTarget then Some(!RequiredFailed(u, ok))
    else if !Starts(u, ok) then Some(false)
    else None
  }

  /** The entries after the checks of the units in `done`. */
  ghost predicate ChecksRecorded(units: Table, done: seq<Name>, before: map<Name, bool>, ok: map<Name, bool>) {
    forall n :: Entry(ok, n) == (if n in done && n in units then Checked(units[n], before) else Entry(before, n))
  }

  /** The entries after merging the results of the units in `done`. */
  ghost predicate ResultsRecorded(done: seq<Name>, outcome: Name -> Outcome,
                                  before: map<Name, bool>, ok: map<Name, bool>) {
    forall n :: Entry(ok, n) ==
      (if n in done && !outcome(n).Panicked? then Some(!outcome(n).StartFailed?) else Entry(before, n))
  }

  /** Entries of the layer itself do not matter to the checks of its units. */
  lemma ChecksSeeEarlierLayers(units: Table, order: seq<Name>, depths: map<Name, nat>, n: Name, done: seq<Name>,
                               before: map<Name, bool>, ok: map<Name, bool>)
    requires Ranked(units, order, depths) && n in order
    requires forall m :: m in before ==> m in order
    requires forall m :: m in done ==> InLayer(units, order, depths, depths[n], m)
    requires ChecksRecorded(units, done, before, ok)
    ensures Checked(units[n], ok) == Checked(units[n], before)
  {
    forall d | LayerDep(units, n, d) ensures Entry(ok, d) == Entry(before, d) {
      assert d in done ==> InLayer(units, order, depths, depths[n], d);
    }
    assert forall d :: Entry(ok, d) == Entry(before, d) ==>
      (RecordedFalse(ok, d) <==> RecordedFalse(before, d)) && (RecordedTrue(ok, d) <==> RecordedTrue(before, d));
  }

  /** The checks of one unit. */
  method CheckUnit(u: Unit, ok: map<Name, bool>) returns (recorded: Option<bool>)
    ensures recorded == Checked(u, ok)
  {
    var failed := FailedRequiredDep(u, ok);
    if u.isTarget {
      return Some(failed.None?);
    }
    if failed.Some? {
      return Some(false);
    }
    var missing := FailedRequisiteDep(u, ok);
    if missing.Some? {
      return Some(false);
    }
    return None;
  }

  /** One round of the first loop over a layer: a verdict is recorded or the unit is to start. */
  method CheckOne(units: Table, ghost done: seq<Name>, name: Name, ghost before: map<Name, bool>,
                  was: map<Name, bool>, toStart: seq<Name>)
    returns (ok: map<Name, bool>, more: seq<Name>)
    requires name in units && name !in done && name !in before
    requires ChecksRecorded(units, done, before, was) && Checked(units[name], was) == Checked(units[name], before)
    ensures ChecksRecorded(units, done + [name], before, ok)
    ensures more == toStart + if Starts(units[name], before) then [name] else []
  {
    ok, more := was, toStart;
    var recorded := CheckUnit(units[name], was);
    match recorded {
      case Some(v) => ok := was[name := v];
      case None => more := toStart + [name];
    }
    OneMoreCheck(units, done, name, before, was, ok);
  }

  lemma LayerPrefix(units: Table, layer: seq<Name>, order: seq<Name>, depths: map<Name, nat>, depth: nat, i: nat)
    requires NoDuplicates(layer) && forall n :: n in layer ==> InLayer(units, order, depths, depth, n)
    requires i < |layer|
    ensures layer[..i + 1] == layer[..i] + [layer[i]] && layer[i] !in layer[..i]
    ensures InLayer(units, order, depths, depth, layer[i])
    ensures forall n :: n in layer[..i] ==> InLayer(units, order, depths, depth, n)
  {
  }

  /** The first loop over a layer. */
  method CheckLayer(units: Table, layer: seq<Name>, before: map<Name, bool>,
                    ghost order: seq<Name>, ghost depths: map<Name, nat>, ghost depth: nat)
    returns (ok: map<Name, bool>, toStart: seq<Name>)
    requires Ranked(units, order, depths)
    requires NoDuplicates(layer) && forall n :: n in layer ==> InLayer(units, order, depths, depth, n)
    requires forall m :: m in before ==> m in order && m in depths && depths[m] < depth
    ensures toStart == Started(units, layer, before)
    ensures ChecksRecorded(units, layer, before, ok)
  {
    ok, toStart := before, [];
    for i := 0 to |layer|
      invariant toStart == Started(units, layer[..i], before)
      invariant ChecksRecorded(units, layer[..i], before, ok)
    {
      LayerPrefix(units, layer, order, depths, depth, i);
      ChecksSeeEarlierLayers(units, order, depths, layer[i], layer[..i], before, ok);
      ok, toStart := CheckOne(units, layer[..i], layer[i], before, ok, toStart);
      StartedAppend(units, layer[..i], layer[i], before);
    }
    assert layer[..|layer|] == layer;
  }

  lemma OneMoreCheck(units: Table, done: seq<Name>, name: Name,
                     before: map<Name, bool>, was: map<Name, bool>, ok: map<Name, bool>)
    requires ChecksRecorded(units, done, before, was) && name !in done && name !in before && name in units
    requires ok == match Checked(units[name], before) case Some(v) => was[name := v] case None => was
    ensures ChecksRecorded(units, done + [name], before, ok)
  {
    assert Entry(was, name) == None;
  }

  /** The merge of the start results into `started_ok` and `services`. */
  method MergeResults(units: Table, toStart: seq<Name>, outcome: Name -> Outcome, before: State)
    returns (after: State)
    requires NoDuplicates(toStart) && forall n :: n in toStart ==> n in units
    ensures after.starts == before.starts + toStart
    ensures after.services == before.services + Instances(units, toStart, outcome)
    ensures ResultsRecorded(toStart, outcome, before.ok, after.ok)
  {
    var ok, services := before.ok, before.services;
    for i := 0 to |toStart|
      invariant services == before.services + Instances(units, toStart[..i], outcome)
      invariant ResultsRecorded(toStart[..i], outcome, before.ok, ok)
    {
      var name := toStart[i];
      ghost var was := ok;
      if !outcome(name).Panicked? {
        ok := ok[name := !outcome(name).StartFailed?];
      }
      if outcome(name).Spawned? {
        services := services + [NewInstance(name, units[name], outcome(name).hasChild)];
      }
      OneMoreMerged(units, toStart, i, outcome, before, was, ok);
    }
    assert toStart[..|toStart|] == toStart;
    after := State(services, ok, before.starts + toStart);
  }

  lemma OneMoreMerged(units: Table, toStart: seq<Name>, i: nat, outcome: Name -> Outcome, before: State,
                      was: map<Name, bool>, ok: map<Name, bool>)
    requires i < |toStart| && NoDuplicates(toStart) && toStart[i] in units
    requires ResultsRecorded(toStart[..i], outcome, before.ok, was)
    requires ok == if outcome(toStart[i]).Panicked? then was else was[toStart[i] := !outcome(toStart[i]).StartFailed?]
    ensures ResultsRecorded(toStart[..i + 1], outcome, before.ok, ok)
    ensures var name := toStart[i];
      before.services + Instances(units, toStart[..i + 1], outcome)
      == before.services + Instances(units, toStart[..i], outcome)
         + if outcome(name).Spawned? then [NewInstance(name, units[name], outcome(name).hasChild)] else []
  {
    assert toStart[..i + 1] == toStart[..i] + [toStart[i]];
    InstancesAppend(units, toStart[..i], toStart[i], outcome);
    OneMoreResult(toStart[..i], toStart[i], outcome, before.ok, was, ok);
  }

  lemma OneMoreResult(done: seq<Name>, name: Name, outcome: Name -> Outcome,
                      before: map<Name, bool>, was: map<Name, bool>, ok: map<Name, bool>)
    requires ResultsRecorded(done, outcome, before, was) && name !in done
    requires ok == if outcome(name).Panicked? then was else was[name := !outcome(name).StartFailed?]
    ensures ResultsRecorded(done + [name], outcome, before, ok)
  {
    assert forall n :: n in done + [name] <==> n in done || n == name;
  }

  /** What `try_wait` reports for a child. */
  datatype Wait = StillRunning | Exited(success: bool) | WaitError

  /** How the first exit of instance i among its first `sweeps` observations went. */
  function FirstExit(observe: (nat, nat) -> Wait, i: nat, sweeps: nat): Option<bool> {
    if sweeps == 0 then None
    else if FirstExit(observe, i, sweeps - 1).Some? then FirstExit(observe, i, sweeps - 1)
    else match observe(sweeps - 1, i)
      case Exited(success) => Some(success)
      case StillRunning => None
      case WaitError => None
  }

  /** Instance i is watched, and was first seen to exit with a failure. */
  predicate SeenFailing(needed: set<Name>, services: seq<Instance>, observe: (nat, nat) -> Wait, i: nat, sweeps: nat)
    requires i < |services|
  {
    Watched(services[i], needed) && FirstExit(observe, i, sweeps) == Some(false)
  }

  /** The state after `poll` sweeps and the first `upTo` instances of the next one: watched
      children that exited are gone, and the units of those that failed are false. */
  ghost predicate Swept(needed: set<Name>, before: State, after: State, observe: (nat, nat) -> Wait,
                        poll: nat, upTo: nat) {
    && after.starts == before.starts
    && |after.services| == |before.services|
    && (forall i :: 0 <= i < |before.services| ==>
          after.services[i] ==
          if Watched(before.services[i], needed) && FirstExit(observe, i, Sweeps(poll, upTo, i)).Some?
          then before.services[i].(hasChild := false) else before.services[i])
    && (forall n :: Entry(after.ok, n) ==
          if FailingName(needed, before.services, observe, poll, upTo, n) then Some(false) else Entry(before.ok, n))
  }

  function Sweeps(poll: nat, upTo: nat, i: nat): nat {
    if i < upTo then poll + 1 else poll
  }

  ghost predicate FailingName(needed: set<Name>, services: seq<Instance>, observe: (nat, nat) -> Wait,
                              poll: nat, upTo: nat, n: Name) {
    exists i :: 0 <= i < |services| && services[i].name == n
                && SeenFailing(needed, services, observe, i, Sweeps(poll, upTo, i))
  }

  lemma SweptIsCrash(needed: set<Name>, before: State, after: State, observe: (nat, nat) -> Wait, sweeps: nat)
    requires Swept(needed, before, after, observe, sweeps, 0)
    requires forall i :: 0 <= i < |before.services| ==> before.services[i].name in before.ok
    ensures CrashesDetected(needed, before, after)
  {
    forall n ensures Entry(after.ok, n) == Entry(before.ok, n)
                     || (RecordedFalse(after.ok, n) && n in needed && n in before.ok)
    {
      assert Entry(after.ok, n) ==
          if FailingName(needed, before.services, observe, sweeps, 0, n) then Some(false) else Entry(before.ok, n);
    }
  }

  /** One instance of a sweep. */
  method SweepOne(before: State, needed: set<Name>, ghost start: State, observe: (nat, nat) -> Wait, poll: nat, i: nat)
    returns (after: State, pending: bool)
    requires Swept(needed, start, before, observe, poll, i) && i < |start.services|
    ensures Swept(needed, start, after, observe, poll, i + 1)
    ensures pending <==>
      after.services[i].hasChild && Watched(start.services[i], needed) && observe(poll, i).StillRunning?
  {
    var s := before.services[i];
    after, pending := before, false;
    if Watched(s, needed) {
      match observe(poll, i) {
        case StillRunning =>
          pending := true;
        case WaitError =>
        case Exited(success) =>
          var ok := if success then before.ok else before.ok[s.name := false];
          after := State(before.services[i := s.(hasChild := false)], ok, before.starts);
      }
    }
    forall j | 0 <= j < |start.services| ensures after.services[j] ==
      if Watched(start.services[j], needed) && FirstExit(observe, j, Sweeps(poll, i + 1, j)).Some?
      then start.services[j].(hasChild := false) else start.services[j]
    {
      assert j != i ==> Sweeps(poll, i + 1, j) == Sweeps(poll, i, j) && after.services[j] == before.services[j];
    }
    forall n ensures Entry(after.ok, n) ==
      if FailingName(needed, start.services, observe, poll, i + 1, n) then Some(false) else Entry(start.ok, n)
    {
      FailingGrows(needed, start.services, observe, poll, i, n);
    }
  }

  lemma FailingGrows(needed: set<Name>, services: seq<Instance>, observe: (nat, nat) -> Wait,
                     poll: nat, i: nat, n: Name)
    requires i < |services|
    ensures FailingName(needed, services, observe, poll, i + 1, n) <==>
      FailingName(needed, services, observe, poll, i, n)
      || (n == services[i].name && SeenFailing(needed, services, observe, i, poll + 1))
  {
    if FailingName(needed, services, observe, poll, i, n) {
      var j :| 0 <= j < |services| && services[j].name == n
               && SeenFailing(needed, services, observe, j, Sweeps(poll, i, j));
      assert SeenFailing(needed, services, observe, j, Sweeps(poll, i + 1, j));
    }
    if FailingName(needed, services, observe, poll, i + 1, n) {
      var j :| 0 <= j < |services| && services[j].name == n
               && SeenFailing(needed, services, observe, j, Sweeps(poll, i + 1, j));
      assert j != i ==> SeenFailing(needed, services, observe, j, Sweeps(poll, i, j));
    }
    if n == services[i].name && SeenFailing(needed, services, observe, i, poll + 1) {
      assert SeenFailing(needed, services, observe, i, Sweeps(poll, i + 1, i));
    }
  }

  /** One sweep over all instances. */
  method SweepAll(before: State, needed: set<Name>, ghost start: State, observe: (nat, nat) -> Wait, poll: nat)
    returns (after: State, pending: bool)
    requires Swept(needed, start, before, observe, poll, 0)
    ensures Swept(needed, start, after, observe, poll, |start.services|)
    ensures !pending ==> forall i :: 0 <= i < |after.services| ==>
      !(Watched(after.services[i], needed) && observe(poll, i).StillRunning?)
  {
    after, pending := before, false;
    for i := 0 to |after.services|
      invariant Swept(needed, start, after, observe, poll, i)
      invariant !pending ==> forall j :: 0 <= j < i ==>
        !(Watched(after.services[j], needed) && observe(poll, j).StillRunning?)
    {
      var p;
      after, p := SweepOne(after, needed, start, observe, poll, i);
      pending := pending || p;
    }
  }

  lemma NextPoll(needed: set<Name>, before: State, after: State, observe: (nat, nat) -> Wait, poll: nat)
    requires Swept(needed, before, after, observe, poll, |before.services|)
    ensures Swept(needed, before, after, observe, poll + 1, 0)
  {
    assert forall i :: 0 <= i < |before.services| ==> Sweeps(poll, |before.services|, i) == Sweeps(poll + 1, 0, i);
    forall n ensures FailingName(needed, before.services, observe, poll + 1, 0, n) <==>
      FailingName(needed, before.services, observe, poll, |before.services|, n)
    {
    }
  }

  /** Sweeping stops after `polls` + 1 sweeps, or after one that sees no watched child running; without
      needed units there is none. */
  ghost predicate SweptThrough(needed: set<Name>, after: State, observe: (nat, nat) -> Wait, polls: nat, sweeps: nat) {
    && sweeps <= polls + 1
    && (needed == {} <==> sweeps == 0)
    && (0 < sweeps <= polls ==> forall i :: 0 <= i < |after.services| ==>
          !(Watched(after.services[i], needed) && observe(sweeps - 1, i).StillRunning?))
  }

  /** One round of the loop with all that its sweeps see. */
  ghost predicate LayerSwept(units: Table, order: seq<Name>, depths: map<Name, nat>, depth: nat,
                             outcome: Name -> Outcome, polls: nat, observe: (nat, nat) -> Wait,
                             before: State, after: State) {
    exists mid, sweeps ::
      && LayerStarted(units, order, depths, depth, outcome, before, mid)
      && Swept(Needed(units, order, depths, depth), mid, after, observe, sweeps, 0)
      && SweptThrough(Needed(units, order, depths, depth), after, observe, polls, sweeps)
  }

  /** What the sweeps of one layer see. */
  function InSweeps(observe: (nat, nat, nat) -> Wait, depth: nat): (nat, nat) -> Wait {
    (poll: nat, i: nat) => observe(depth, poll, i)
  }

  /** A run whose late crashes are those that its sweeps see. */
  ghost predicate SweptRun(units: Table, order: seq<Name>, depths: map<Name, nat>, outcome: Name -> Outcome,
                           polls: nat, observe: (nat, nat, nat) -> Wait, run: seq<State>) {
    forall k :: 0 <= k < |run| - 1 ==>
      LayerSwept(units, order, depths, k, outcome, polls, InSweeps(observe, k), run[k], run[k + 1])
  }

  /** `detect_immediate_failures`: at most `polls` + 1 sweeps fit before the deadline;
      `observe(poll, i)` is what a sweep sees of instance i. Sweeping ends early only when no
      watched child is seen running. */
  method DetectImmediateFailures(before: State, needed: set<Name>, polls: nat, observe: (nat, nat) -> Wait)
    returns (after: State, ghost sweeps: nat)
    requires forall i :: 0 <= i < |before.services| ==> before.services[i].name in before.ok
    ensures CrashesDetected(needed, before, after)
    ensures Swept(needed, before, after, observe, sweeps, 0)
    ensures needed == {} ==> after == before
    ensures SweptThrough(needed, after, observe, polls, sweeps)
    ensures needed != {} && sweeps <= polls ==> sweeps > 0 && forall i :: 0 <= i < |after.services| ==>
      !(Watched(after.services[i], needed) && observe(sweeps - 1, i).StillRunning?)
  {
    after, sweeps := before, 0;
    if needed == {} {
      return;
    }
    var poll := 0;
    while true
      invariant poll <= polls && Swept(needed, before, after, observe, poll, 0)
      decreases polls - poll
    {
      var pending;
      after, pending := SweepAll(after, needed, before, observe, poll);
      NextPoll(needed, before, after, observe, poll);
      if !pending || poll == polls {
        sweeps := poll + 1;
        SweptIsCrash(needed, before, after, observe, sweeps);
        return;
      }
      poll := poll + 1;
    }
  }

  /** Checks and merge together give every unit of the layer its verdict. */
  lemma VerdictsAdd(units: Table, order: seq<Name>, depths: map<Name, nat>, depth: nat, outcome: Name -> Outcome,
                    before: map<Name, bool>, checked: map<Name, bool>, after: map<Name, bool>,
                    layer: seq<Name>, started: seq<Name>, n: Name)
    requires forall m :: m in before ==> m in order && m in depths && depths[m] < depth
    requires ChecksRecorded(units, layer, before, checked) && ResultsRecorded(started, outcome, checked, after)
    requires n in layer <==> InLayer(units, order, depths, depth, n)
    requires n in started <==> n in layer && n in units && Starts(units[n], before)
    ensures VerdictRecorded(units, order, depths, depth, outcome, before, after, n)
  {
    assert Entry(checked, n) == (if n in layer && n in units then Checked(units[n], before) else Entry(before, n));
  }

  /** One round of the loop over the depths. */
  method StartLayer(units: Table, order: seq<Name>, depths: map<Name, nat>, depth: nat,
                    outcome: Name -> Outcome, polls: nat, observe: (nat, nat) -> Wait, before: State)
    returns (after: State)
    requires Ranked(units, order, depths) && RecordsBelow(units, order, depths, depth, before)
    ensures LayerStep(units, order, depths, depth, outcome, before, after)
    ensures LayerSwept(units, order, depths, depth, outcome, polls, observe, before, after)
    ensures RecordsBelow(units, order, depths, depth + 1, after)
  {
    var layer := Layer(order, depths, depth);
    LayerMembers(order, depths, depth);
    var ok, toStart := CheckLayer(units, layer, before.ok, order, depths, depth);
    StartedMembers(units, layer, before.ok);
    var mid := MergeResults(units, toStart, outcome, State(before.services, ok, before.starts));
    forall n ensures VerdictRecorded(units, order, depths, depth, outcome, before.ok, mid.ok, n) {
      VerdictsAdd(units, order, depths, depth, outcome, before.ok, ok, mid.ok, layer, toStart, n);
    }
    StartedRecordsBelow(units, order, depths, depth, outcome, before, mid);
    ghost var sweeps;
    after, sweeps := DetectImmediateFailures(mid, Needed(units, order, depths, depth), polls, observe);
    CrashesRecordsBelow(units, order, depths, depth + 1, Needed(units, order, depths, depth), mid, after);
  }

  lemma StartedRecordsBelow(units: Table, order: seq<Name>, depths: map<Name, nat>, depth: nat,
                            outcome: Name -> Outcome, before: State, after: State)
    requires RecordsBelow(units, order, depths, depth, before)
    requires LayerStarted(units, order, depths, depth, outcome, before, after)
    ensures RecordsBelow(units, order, depths, depth + 1, after)
  {
    forall n | n in after.ok ensures n in order && n in depths && depths[n] < depth + 1 {
      assert VerdictRecorded(units, order, depths, depth, outcome, before.ok, after.ok, n);
    }
    forall i | 0 <= i < |after.services| ensures after.services[i].name in after.ok {
      if i < |before.services| {
        assert after.services[i].name == before.services[i].name;
        assert VerdictRecorded(units, order, depths, depth, outcome, before.ok, after.ok, before.services[i].name);
      } else {
        NewInstanceRecorded(units, order, depths, depth, outcome, before, after, i - |before.services|);
      }
    }
  }

  lemma NewInstanceRecorded(units: Table, order: seq<Name>, depths: map<Name, nat>, depth: nat,
                            outcome: Name -> Outcome, before: State, after: State, i: nat)
    requires LayerStarted(units, order, depths, depth, outcome, before, after)
    requires i < |after.services| - |before.services|
    ensures after.services[|before.services| + i].name in after.ok
  {
    var started := Started(units, Layer(order, depths, depth), before.ok);
    LayerMembers(order, depths, depth);
    StartedMembers(units, Layer(order, depths, depth), before.ok);
    InstanceNames(units, started, outcome);
    var instance := Instances(units, started, outcome)[i];
    assert after.services[|before.services| + i] == instance;
    assert VerdictRecorded(units, order, depths, depth, outcome, before.ok, after.ok, instance.name);
  }

  lemma CrashesRecordsBelow(units: Table, order: seq<Name>, depths: map<Name, nat>, depth: nat, needed: set<Name>,
                            before: State, after: State)
    requires RecordsBelow(units, order, depths, depth, before) && CrashesDetected(needed, before, after)
    ensures RecordsBelow(units, order, depths, depth, after)
  {
    forall n ensures n in after.ok <==> n in before.ok {
      assert Entry(after.ok, n).Some? <==> n in after.ok;
      assert Entry(before.ok, n).Some? <==> n in before.ok;
    }
    forall i | 0 <= i < |after.services| ensures after.services[i].name in after.ok {
      assert after.services[i].name == before.services[i].name;
    }
  }

  /** The largest depth, 0 for an empty map. */
  method MaxDepth(depths: map<Name, nat>) returns (m: nat)
    ensures forall n :: n in depths ==> depths[n] <= m
    ensures m > 0 ==> exists n :: n in depths && depths[n] == m
  {
    m := 0;
    var rest := depths.Keys;
    while rest != {}
      invariant rest <= depths.Keys
      invariant forall n :: n in depths && n !in rest ==> depths[n] <= m
      invariant m > 0 ==> exists n :: n in depths && depths[n] == m
    {
      var n :| n in rest;
      rest := rest - {n};
      if m < depths[n] {
        m := depths[n];
      }
    }
  }

  lemma RunGrows(units: Table, order: seq<Name>, depths: map<Name, nat>, outcome: Name -> Outcome, polls: nat,
                 observe: (nat, nat, nat) -> Wait, run: seq<State>, next: State)
    requires BootRun(units, order, depths, outcome, run)
    requires SweptRun(units, order, depths, outcome, polls, observe, run)
    requires var k := |run| - 1;
      && LayerStep(units, order, depths, k, outcome, run[k], next)
      && LayerSwept(units, order, depths, k, outcome, polls, InSweeps(observe, k), run[k], next)
    ensures BootRun(units, order, depths, outcome, run + [next])
    ensures SweptRun(units, order, depths, outcome, polls, observe, run + [next])
  {
    var longer := run + [next];
    forall k | 0 <= k < |longer| - 1
      ensures LayerStep(units, order, depths, k, outcome, longer[k], longer[k + 1])
      ensures LayerSwept(units, order, depths, k, outcome, polls, InSweeps(observe, k), longer[k], longer[k + 1])
    {
      assert longer[k] == run[k] && longer[k + 1] == if k + 1 < |run| then run[k + 1] else next;
    }
  }

  /** The whole loop; `observe(depth, poll, i)` is what crash detection sees. */
  method StartAll(units: Table, order: seq<Name>, depths: map<Name, nat>,
                  outcome: Name -> Outcome, polls: nat, observe: (nat, nat, nat) -> Wait)
    returns (final: State, ghost run: seq<State>)
    requires Ranked(units, order, depths)
    ensures CompleteRun(units, order, depths, outcome, run) && final == run[|run| - 1]
    ensures SweptRun(units, order, depths, outcome, polls, observe, run)
  {
    var max := MaxDepth(depths);
    final, run := INITIAL, [INITIAL];
    for depth := 0 to max + 1
      invariant |run| == depth + 1 && final == run[depth]
      invariant BootRun(units, order, depths, outcome, run)
      invariant SweptRun(units, order, depths, outcome, polls, observe, run)
      invariant RecordsBelow(units, order, depths, depth, final)
    {
      ghost var before := run;
      final := StartLayer(units, order, depths, depth, outcome, polls, InSweeps(observe, depth), final);
      run := run + [final];
      RunGrows(units, order, depths, outcome, polls, observe, before, final);
    }
  }

  lemma InstanceNames(units: Table, started: seq<Name>, outcome: Name -> Outcome)
    ensures forall i :: 0 <= i < |Instances(units, started, outcome)| ==>
      var n := Instances(units, started, outcome)[i].name; n in started && outcome(n).Spawned?
  {
    if started != [] {
      InstanceNames(units, started[..|started| - 1], outcome);
    }
  }
}
