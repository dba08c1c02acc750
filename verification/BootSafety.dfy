/** What holds of every run of the start-up loop, whatever the starts return and whichever
    services crash late. */
module BootSafety {
  import opened Graphs
  import opened Prelude
  import opened Units
  import opened Depths
  import opened Boot

  /** The states of a run only hold entries of finished layers. */
  lemma {:induction false} RunRecordsBelow(units: Table, order: seq<Name>, depths: map<Name, nat>,
                                           outcome: Name -> Outcome, run: seq<State>, k: nat)
    requires BootRun(units, order, depths, outcome, run) && k < |run|
    ensures RecordsBelow(units, order, depths, k, run[k])
  {
    if k > 0 {
      RunRecordsBelow(units, order, depths, outcome, run, k - 1);
      assert LayerStep(units, order, depths, k - 1, outcome, run[k - 1], run[k]);
      var mid :| LayerStarted(units, order, depths, k - 1, outcome, run[k - 1], mid)
                 && CrashesDetected(Needed(units, order, depths, k - 1), mid, run[k]);
      StartedRecordsBelow(units, order, depths, k - 1, outcome, run[k - 1], mid);
      CrashesRecordsBelow(units, order, depths, k, Needed(units, order, depths, k - 1), mid, run[k]);
    }
  }

  /** A layer writes the verdicts of its own units; otherwise entries only turn false. */
  lemma StepEntries(units: Table, order: seq<Name>, depths: map<Name, nat>, outcome: Name -> Outcome,
                    depth: nat, before: State, after: State, n: Name)
    requires LayerStep(units, order, depths, depth, outcome, before, after)
    ensures var e := if InLayer(units, order, depths, depth, n) then Verdict(units[n], before.ok, outcome(n))
                     else Entry(before.ok, n);
            Entry(after.ok, n) == e
            || (e.Some? && RecordedFalse(after.ok, n) && n in Needed(units, order, depths, depth))
  {
    var mid :| LayerStarted(units, order, depths, depth, outcome, before, mid)
               && CrashesDetected(Needed(units, order, depths, depth), mid, after);
    assert VerdictRecorded(units, order, depths, depth, outcome, before.ok, mid.ok, n);
    assert Entry(after.ok, n) == Entry(mid.ok, n)
           || (RecordedFalse(after.ok, n) && n in Needed(units, order, depths, depth) && n in mid.ok);
  }

  /** `started_ok` never goes from false back to true. */
  lemma {:induction false} FalseIsFinal(units: Table, order: seq<Name>, depths: map<Name, nat>,
                                        outcome: Name -> Outcome, run: seq<State>, n: Name, k: nat, l: nat)
    requires BootRun(units, order, depths, outcome, run) && k <= l < |run|
    requires RecordedFalse(run[k].ok, n)
    ensures RecordedFalse(run[l].ok, n)
    decreases l
  {
    if k < l {
      FalseIsFinal(units, order, depths, outcome, run, n, k, l - 1);
      RunRecordsBelow(units, order, depths, outcome, run, l - 1);
      StepEntries(units, order, depths, outcome, l - 1, run[l - 1], run[l], n);
    }
  }

  /** Each unit of the chain requires the next one. */
  ghost predicate RequiresChain(units: Table, order: seq<Name>, p: seq<Name>) {
    && |p| > 0
    && (forall i :: 0 <= i < |p| ==> p[i] in order && p[i] in units)
    && (forall i :: 0 <= i < |p| - 1 ==> p[i + 1] in units[p[i]].required)
  }

  /** A unit false at the end of its layer makes false everything that transitively requires it,
      from the end of that unit's own layer on. */
  lemma {:induction false} FailurePropagates(units: Table, order: seq<Name>, depths: map<Name, nat>,
                                             outcome: Name -> Outcome, run: seq<State>, p: seq<Name>, l: nat)
    requires Ranked(units, order, depths) && BootRun(units, order, depths, outcome, run)
    requires RequiresChain(units, order, p)
    requires depths[p[|p| - 1]] + 1 < |run| && RecordedFalse(run[depths[p[|p| - 1]] + 1].ok, p[|p| - 1])
    requires depths[p[0]] < l < |run|
    ensures RecordedFalse(run[l].ok, p[0])
    decreases |p|
  {
    if |p| == 1 {
      FalseIsFinal(units, order, depths, outcome, run, p[0], depths[p[0]] + 1, l);
    } else {
      ChainTail(units, order, depths, p);
      FailurePropagates(units, order, depths, outcome, run, p[1..], depths[p[0]]);
      FailsNext(units, order, depths, outcome, run, depths[p[0]], p[0], p[1], l);
    }
  }

  /** The rest of a chain is a chain from an earlier layer. */
  lemma ChainTail(units: Table, order: seq<Name>, depths: map<Name, nat>, p: seq<Name>)
    requires Ranked(units, order, depths) && RequiresChain(units, order, p) && |p| > 1
    ensures RequiresChain(units, order, p[1..]) && p[1..][0] == p[1] && p[1..][|p| - 2] == p[|p| - 1]
    ensures p[1] in units[p[0]].required && depths[p[1]] < depths[p[0]]
  {
    assert forall i :: 0 <= i < |p| - 1 ==> p[1..][i] == p[i + 1];
    assert p[0 + 1] in units[p[0]].required && LayerDep(units, p[0], p[1]);
  }

  /** A unit of layer k with a requirement that is false before the layer is false from its end on. */
  lemma FailsNext(units: Table, order: seq<Name>, depths: map<Name, nat>, outcome: Name -> Outcome, run: seq<State>,
                  k: nat, n: Name, d: Name, l: nat)
    requires BootRun(units, order, depths, outcome, run) && k < l < |run| && InLayer(units, order, depths, k, n)
    requires d in units[n].required && RecordedFalse(run[k].ok, d)
    ensures RecordedFalse(run[l].ok, n)
  {
    assert LayerStep(units, order, depths, k, outcome, run[k], run[k + 1]);
    StepEntries(units, order, depths, outcome, k, run[k], run[k + 1], n);
    assert RequiredFailed(units[n], run[k].ok);
    FalseIsFinal(units, order, depths, outcome, run, n, k + 1, l);
  }

  // ----- the root

  lemma {:induction false} PathDescends(units: Table, root: Name, order: seq<Name>, depths: map<Name, nat>,
                                        p: seq<Name>, i: nat)
    requires StartOrder(SortGraph(units), root, order) && Ranked(units, order, depths)
    requires Path(SortGraph(units), p) && p[0] == root && p[|p| - 1] in units && i < |p|
    ensures root in order && p[i] in order && depths[p[i]] + i <= depths[root]
  {
    var g := SortGraph(units);
    assert i < |p| - 1 ==> Edge(g, p[i], p[i + 1]);
    assert PathBetween(g, p[..i + 1], root, p[i]);
    if i > 0 {
      PathDescends(units, root, order, depths, p, i - 1);
      assert Edge(g, p[i - 1], p[i]);
      SortEdge(units, p[i - 1], p[i]);
    }
  }

  /** The root is strictly the deepest unit, so it is alone in the last layer. */
  lemma RootIsDeepest(units: Table, root: Name, order: seq<Name>, depths: map<Name, nat>, n: Name)
    requires StartOrder(SortGraph(units), root, order) && Ranked(units, order, depths)
    requires n in order && n != root
    ensures root in order && depths[n] < depths[root]
  {
    var p :| PathBetween(SortGraph(units), p, root, n);
    PathDescends(units, root, order, depths, p, |p| - 1);
    PathDescends(units, root, order, depths, p, 0);
  }

  /** A loaded root target is reached exactly if none of its loaded Requires ends up false. */
  lemma RootReached(units: Table, root: Name, order: seq<Name>, depths: map<Name, nat>,
                    outcome: Name -> Outcome, run: seq<State>)
    requires StartOrder(SortGraph(units), root, order) && Ranked(units, order, depths)
    requires depths.Keys == Nodes(order, units)
    requires CompleteRun(units, order, depths, outcome, run)
    requires root in units && units[root].isTarget
    ensures var final := run[|run| - 1].ok;
            RecordedTrue(final, root) <==>
            forall d :: d in units[root].required && d in units ==> !RecordedFalse(final, d)
  {
    var k := depths[root];
    forall n | n in depths ensures depths[n] <= k && (depths[n] == k ==> n == root) {
      if n != root {
        RootIsDeepest(units, root, order, depths, n);
      }
    }
    assert |run| == k + 2;
    assert Needed(units, order, depths, k) == {};
    RunRecordsBelow(units, order, depths, outcome, run, k);
    StepEntries(units, order, depths, outcome, k, run[k], run[k + 1], root);
    forall d | d in units[root].required
      ensures RecordedFalse(run[k].ok, d) <==> d in units && RecordedFalse(run[k + 1].ok, d)
    {
      StepEntries(units, order, depths, outcome, k, run[k], run[k + 1], d);
      RequiredIsNotSelf(units, root, order, depths, d);
    }
  }

  lemma RequiredIsNotSelf(units: Table, root: Name, order: seq<Name>, depths: map<Name, nat>, d: Name)
    requires Ranked(units, order, depths) && root in order && root in units && d in units[root].required
    ensures d != root
  {
    assert d in order ==> LayerDep(units, root, d);
  }

  // ----- what is known when a unit is started

  /** Every unit of a finished layer has an entry, unless its start thread died. */
  ghost predicate Accounted(units: Table, depths: map<Name, nat>, outcome: Name -> Outcome, run: seq<State>,
                            k: nat, d: Name)
    requires k < |run| && d in units && d in depths && depths[d] < k
  {
    d in run[k].ok || (Starts(units[d], run[depths[d]].ok) && outcome(d).Panicked?)
  }

  lemma {:induction false} FinishedUnitsAccounted(units: Table, order: seq<Name>, depths: map<Name, nat>,
                                                  outcome: Name -> Outcome, run: seq<State>, k: nat, d: Name)
    requires Ranked(units, order, depths) && BootRun(units, order, depths, outcome, run)
    requires k < |run| && d in order && depths[d] < k
    ensures Accounted(units, depths, outcome, run, k, d)
  {
    StepEntries(units, order, depths, outcome, k - 1, run[k - 1], run[k], d);
    if depths[d] < k - 1 {
      FinishedUnitsAccounted(units, order, depths, outcome, run, k - 1, d);
    }
  }

  function NamesOf(services: seq<Instance>): (names: seq<Name>)
    ensures |names| == |services| && forall i :: 0 <= i < |services| ==> names[i] == services[i].name
  {
    seq(|services|, i requires 0 <= i < |services| => services[i].name)
  }

  /** The units started in layer `depth`. */
  function StartedIn(units: Table, order: seq<Name>, depths: map<Name, nat>, depth: nat, before: State): seq<Name> {
    Started(units, Layer(order, depths, depth), before.ok)
  }

  lemma StartedInLayer(units: Table, order: seq<Name>, depths: map<Name, nat>, depth: nat, before: State)
    requires Ranked(units, order, depths)
    ensures forall n :: n in StartedIn(units, order, depths, depth, before) <==>
      n in order && depths[n] == depth && Starts(units[n], before.ok)
    ensures NoDuplicates(StartedIn(units, order, depths, depth, before))
  {
    LayerMembers(order, depths, depth);
    StartedMembers(units, Layer(order, depths, depth), before.ok);
  }

  /** A layer appends to the vectors and removes nothing from them. */
  lemma StepAppends(units: Table, order: seq<Name>, depths: map<Name, nat>, outcome: Name -> Outcome,
                    depth: nat, before: State, after: State)
    requires LayerStep(units, order, depths, depth, outcome, before, after)
    ensures after.starts == before.starts + StartedIn(units, order, depths, depth, before)
    ensures NamesOf(after.services) == NamesOf(before.services)
              + NamesOf(Instances(units, StartedIn(units, order, depths, depth, before), outcome))
  {
    var mid :| LayerStarted(units, order, depths, depth, outcome, before, mid)
               && CrashesDetected(Needed(units, order, depths, depth), mid, after);
    assert forall i :: 0 <= i < |mid.services| ==> after.services[i].name == mid.services[i].name;
  }

  /** The calls of `start_unit` before layer k: one for each unit of an earlier layer that
      passed its checks, and no second one. */
  ghost predicate StartedOnce(units: Table, order: seq<Name>, depths: map<Name, nat>, run: seq<State>, k: nat)
    requires k < |run| && Ranked(units, order, depths)
  {
    && NoDuplicates(run[k].starts)
    && forall n :: n in run[k].starts <==> n in order && depths[n] < k && Starts(units[n], run[depths[n]].ok)
  }

  lemma {:induction false} StartsOnce(units: Table, order: seq<Name>, depths: map<Name, nat>,
                                      outcome: Name -> Outcome, run: seq<State>, k: nat)
    requires Ranked(units, order, depths) && BootRun(units, order, depths, outcome, run) && k < |run|
    ensures StartedOnce(units, order, depths, run, k)
  {
    if k > 0 {
      StartsOnce(units, order, depths, outcome, run, k - 1);
      StepAppends(units, order, depths, outcome, k - 1, run[k - 1], run[k]);
      StartedInLayer(units, order, depths, k - 1, run[k - 1]);
      OneMoreLayerStarted(units, order, depths, run, k);
    }
  }

  lemma OneMoreLayerStarted(units: Table, order: seq<Name>, depths: map<Name, nat>, run: seq<State>, k: nat)
    requires Ranked(units, order, depths) && 0 < k < |run| && StartedOnce(units, order, depths, run, k - 1)
    requires run[k].starts == run[k - 1].starts + StartedIn(units, order, depths, k - 1, run[k - 1])
    ensures StartedOnce(units, order, depths, run, k)
  {
    var earlier, started := run[k - 1].starts, StartedIn(units, order, depths, k - 1, run[k - 1]);
    StartedInLayer(units, order, depths, k - 1, run[k - 1]);
    StartsSplit(units, order, depths, run, k, earlier, started);
    NoDuplicatesConcat(earlier, started);
  }

  lemma StartsSplit(units: Table, order: seq<Name>, depths: map<Name, nat>, run: seq<State>, k: nat,
                    earlier: seq<Name>, started: seq<Name>)
    requires Ranked(units, order, depths) && 0 < k < |run|
    requires forall n :: n in earlier <==> n in order && depths[n] < k - 1 && Starts(units[n], run[depths[n]].ok)
    requires forall n :: n in started <==> n in order && depths[n] == k - 1 && Starts(units[n], run[k - 1].ok)
    ensures forall n :: n in earlier + started <==> n in order && depths[n] < k && Starts(units[n], run[depths[n]].ok)
    ensures forall n :: n in earlier ==> n !in started
  {
    assert forall n :: n in earlier + started <==> n in earlier || n in started;
  }

  /** The start of the unit was tried before layer k, and its thread died. */
  ghost predicate DiedStarting(outcome: Name -> Outcome, run: seq<State>, k: nat, d: Name)
    requires k < |run|
  {
    d in run[k].starts && outcome(d).Panicked?
  }

  /** A unit whose start thread died never gets an entry. */
  lemma DeadLeaveNoEntry(units: Table, order: seq<Name>, depths: map<Name, nat>, outcome: Name -> Outcome,
                         run: seq<State>, k: nat, d: Name)
    requires Ranked(units, order, depths) && BootRun(units, order, depths, outcome, run)
    requires k < |run| && d in order && depths[d] < k
    requires Starts(units[d], run[depths[d]].ok) && outcome(d).Panicked?
    ensures d !in run[k].ok
  {
    DeadFrom(units, order, depths, outcome, run, depths[d], k, d);
  }

  lemma {:induction false} DeadFrom(units: Table, order: seq<Name>, depths: map<Name, nat>, outcome: Name -> Outcome,
                                    run: seq<State>, layer: nat, k: nat, d: Name)
    requires BootRun(units, order, depths, outcome, run) && layer < k < |run|
    requires InLayer(units, order, depths, layer, d) && Starts(units[d], run[layer].ok) && outcome(d).Panicked?
    ensures d !in run[k].ok
    decreases k
  {
    var before := k - 1;
    assert LayerStep(units, order, depths, before, outcome, run[before], run[before + 1]);
    if layer < before {
      DeadFrom(units, order, depths, outcome, run, layer, before, d);
    }
    StaysWithoutEntry(units, order, depths, outcome, before, run[before], run[k], d);
  }

  lemma StaysWithoutEntry(units: Table, order: seq<Name>, depths: map<Name, nat>, outcome: Name -> Outcome,
                          k: nat, before: State, after: State, d: Name)
    requires LayerStep(units, order, depths, k, outcome, before, after)
    requires if InLayer(units, order, depths, k, d) then Starts(units[d], before.ok) && outcome(d).Panicked?
             else d !in before.ok
    ensures d !in after.ok
  {
    StepEntries(units, order, depths, outcome, k, before, after, d);
  }

  /** A unit of a finished layer has no entry exactly if its start thread died. */
  lemma NoEntryIffDied(units: Table, order: seq<Name>, depths: map<Name, nat>,
                       outcome: Name -> Outcome, run: seq<State>, k: nat, d: Name)
    requires Ranked(units, order, depths) && BootRun(units, order, depths, outcome, run)
    requires k < |run| && d in order && depths[d] < k
    ensures d !in run[k].ok <==> DiedStarting(outcome, run, k, d)
  {
    StartsOnce(units, order, depths, outcome, run, k);
    FinishedUnitsAccounted(units, order, depths, outcome, run, k, d);
    if DiedStarting(outcome, run, k, d) {
      DeadLeaveNoEntry(units, order, depths, outcome, run, k, d);
    }
  }

  lemma RequiredIsOrdered(units: Table, root: Name, order: seq<Name>, depths: map<Name, nat>, n: Name, d: Name)
    requires StartOrder(SortGraph(units), root, order) && Ranked(units, order, depths)
    requires n in order && n in units && d in units && d in units[n].required
    ensures d in order && depths[d] < depths[n]
  {
    SortEdge(units, n, d);
    EdgeExtends(SortGraph(units), root, n, d);
    assert LayerDep(units, n, d);
  }

  /** A loaded Requires that is not recorded false is recorded true unless its start thread died. */
  lemma TrueUnlessDied(units: Table, root: Name, order: seq<Name>, depths: map<Name, nat>,
                       outcome: Name -> Outcome, run: seq<State>, k: nat, n: Name, d: Name)
    requires StartOrder(SortGraph(units), root, order) && Ranked(units, order, depths)
    requires BootRun(units, order, depths, outcome, run) && k < |run|
    requires n in order && n in units && depths[n] <= k && d in units && d in units[n].required
    requires !RecordedFalse(run[k].ok, d)
    ensures RecordedTrue(run[k].ok, d) <==> !DiedStarting(outcome, run, k, d)
  {
    RequiredIsOrdered(units, root, order, depths, n, d);
    NoEntryIffDied(units, order, depths, outcome, run, k, d);
  }

  /** When a service is handed to `start_unit`, all it depends on lies in earlier layers and each
      Requisite is recorded true. None of its loaded Requires is recorded false; each of them is
      recorded true exactly if its start thread did not die. */
  lemma StartSafety(units: Table, root: Name, order: seq<Name>, depths: map<Name, nat>,
                    outcome: Name -> Outcome, run: seq<State>, n: Name, d: Name)
    requires StartOrder(SortGraph(units), root, order) && Ranked(units, order, depths)
    requires BootRun(units, order, depths, outcome, run)
    requires n in run[|run| - 1].starts && n in units && LayerDep(units, n, d)
    ensures n in order && !units[n].isTarget && depths[n] < |run|
    ensures d in order ==> depths[d] < depths[n] && Accounted(units, depths, outcome, run, depths[n], d)
    ensures d in units && d in units[n].required ==>
      && !RecordedFalse(run[depths[n]].ok, d)
      && (RecordedTrue(run[depths[n]].ok, d) <==> !DiedStarting(outcome, run, depths[n], d))
    ensures d in units[n].requisite ==> RecordedTrue(run[depths[n]].ok, d)
  {
    StartsOnce(units, order, depths, outcome, run, |run| - 1);
    if d in order {
      FinishedUnitsAccounted(units, order, depths, outcome, run, depths[n], d);
    }
    if d in units && d in units[n].required {
      TrueUnlessDied(units, root, order, depths, outcome, run, depths[n], n, d);
    }
  }

  lemma ReachedNoneFalse(units: Table, root: Name, order: seq<Name>, depths: map<Name, nat>,
                         outcome: Name -> Outcome, run: seq<State>, d: Name)
    requires StartOrder(SortGraph(units), root, order) && Ranked(units, order, depths)
    requires depths.Keys == Nodes(order, units) && CompleteRun(units, order, depths, outcome, run)
    requires root in units && units[root].isTarget && RecordedTrue(run[|run| - 1].ok, root)
    requires d in units && d in units[root].required
    ensures root in order && depths[root] + 2 <= |run| && !RecordedFalse(run[|run| - 1].ok, d)
  {
    ReachesSelf(SortGraph(units), root);
    assert root in order;
    RootReached(units, root, order, depths, outcome, run);
  }

  /** Of the loaded Requires of a root target that is reached, exactly those are not recorded true
      whose start thread died. */
  lemma ReachedUnlessDied(units: Table, root: Name, order: seq<Name>, depths: map<Name, nat>,
                          outcome: Name -> Outcome, run: seq<State>, d: Name)
    requires StartOrder(SortGraph(units), root, order) && Ranked(units, order, depths)
    requires depths.Keys == Nodes(order, units) && CompleteRun(units, order, depths, outcome, run)
    requires root in units && units[root].isTarget && RecordedTrue(run[|run| - 1].ok, root)
    requires d in units && d in units[root].required
    ensures RecordedTrue(run[|run| - 1].ok, d) <==> !DiedStarting(outcome, run, |run| - 1, d)
  {
    var last := |run| - 1;
    ReachedNoneFalse(units, root, order, depths, outcome, run, d);
    assert BootRun(units, order, depths, outcome, run) && depths[root] <= last;
    TrueUnlessDied(units, root, order, depths, outcome, run, last, root, d);
  }

  // ----- the services vector

  /** The instances belong to units of layers below k and stand in the order of the layers. */
  ghost predicate InLayerOrder(depths: map<Name, nat>, k: nat, services: seq<Name>) {
    && (forall i :: 0 <= i < |services| ==> services[i] in depths && depths[services[i]] < k)
    && (forall i, j :: 0 <= i < j < |services| ==>
          services[i] != services[j] && depths[services[i]] <= depths[services[j]])
  }

  lemma InstancesOfStarted(units: Table, started: seq<Name>, outcome: Name -> Outcome)
    requires NoDuplicates(started)
    ensures var s := NamesOf(Instances(units, started, outcome));
            NoDuplicates(s) && forall n :: n in s ==> n in started
  {
    if started != [] {
      var n := started[|started| - 1];
      var rest := started[..|started| - 1];
      InstancesOfStarted(units, rest, outcome);
      assert started == rest + [n] && n !in rest;
      assert NamesOf(Instances(units, started, outcome)) == NamesOf(Instances(units, rest, outcome))
        + if n in units && outcome(n).Spawned? then [n] else [];
    }
  }

  lemma {:induction false} InstancesMembers(units: Table, started: seq<Name>, outcome: Name -> Outcome, n: Name)
    ensures n in NamesOf(Instances(units, started, outcome)) <==> n in started && n in units && outcome(n).Spawned?
    decreases |started|
  {
    if started != [] {
      var last := started[|started| - 1];
      var rest := started[..|started| - 1];
      InstancesMembers(units, rest, outcome, n);
      assert started == rest + [last];
      InstancesGrow(units, started, outcome);
    }
  }

  lemma InstancesGrow(units: Table, started: seq<Name>, outcome: Name -> Outcome)
    requires started != []
    ensures var rest, last := started[..|started| - 1], started[|started| - 1];
      NamesOf(Instances(units, started, outcome))
      == NamesOf(Instances(units, rest, outcome)) + if last in units && outcome(last).Spawned? then [last] else []
  {
  }

  lemma LayerLists(units: Table, order: seq<Name>, depths: map<Name, nat>, outcome: Name -> Outcome,
                   depth: nat, before: State, after: State, n: Name)
    requires Ranked(units, order, depths) && LayerStep(units, order, depths, depth, outcome, before, after)
    requires n in NamesOf(before.services) <==> n in before.starts && outcome(n).Spawned?
    ensures n in NamesOf(after.services) <==> n in after.starts && outcome(n).Spawned?
  {
    var started := StartedIn(units, order, depths, depth, before);
    StepAppends(units, order, depths, outcome, depth, before, after);
    StartedInLayer(units, order, depths, depth, before);
    InstancesMembers(units, started, outcome, n);
    assert n in started ==> n in units;
  }

  /** The vector holds exactly the units whose start was tried and brought an instance. */
  lemma {:induction false} ListedIffSpawned(units: Table, order: seq<Name>, depths: map<Name, nat>,
                                            outcome: Name -> Outcome, run: seq<State>, k: nat, n: Name)
    requires Ranked(units, order, depths) && BootRun(units, order, depths, outcome, run) && k < |run|
    ensures n in NamesOf(run[k].services) <==> n in run[k].starts && outcome(n).Spawned?
  {
    if k > 0 {
      ListedIffSpawned(units, order, depths, outcome, run, k - 1, n);
      LayerLists(units, order, depths, outcome, k - 1, run[k - 1], run[k], n);
    }
  }

  /** A layer keeps the services in the order of the layers. */
  lemma LayerServices(units: Table, order: seq<Name>, depths: map<Name, nat>, outcome: Name -> Outcome,
                      k: nat, before: State, after: State)
    requires Ranked(units, order, depths) && LayerStep(units, order, depths, k, outcome, before, after)
    requires InLayerOrder(depths, k, NamesOf(before.services))
    ensures InLayerOrder(depths, k + 1, NamesOf(after.services))
  {
    var started := StartedIn(units, order, depths, k, before);
    StepAppends(units, order, depths, outcome, k, before, after);
    StartedInLayer(units, order, depths, k, before);
    InstancesOfStarted(units, started, outcome);
    AppendLayer(depths, k, NamesOf(before.services), NamesOf(Instances(units, started, outcome)));
  }

  lemma {:induction false} ServicesInLayerOrder(units: Table, order: seq<Name>, depths: map<Name, nat>,
                                                outcome: Name -> Outcome, run: seq<State>, k: nat)
    requires Ranked(units, order, depths) && BootRun(units, order, depths, outcome, run) && k < |run|
    ensures InLayerOrder(depths, k, NamesOf(run[k].services))
  {
    if k > 0 {
      ServicesInLayerOrder(units, order, depths, outcome, run, k - 1);
      LayerServices(units, order, depths, outcome, k - 1, run[k - 1], run[k]);
    }
  }

  lemma AppendLayer(depths: map<Name, nat>, k: nat, services: seq<Name>, more: seq<Name>)
    requires InLayerOrder(depths, k, services) && NoDuplicates(more)
    requires forall n :: n in more ==> n in depths && depths[n] == k
    ensures InLayerOrder(depths, k + 1, services + more)
  {
    assert forall i :: 0 <= i < |more| ==> more[i] in more;
  }

  lemma {:induction false} LayerPathDescends(units: Table, order: seq<Name>, depths: map<Name, nat>,
                                             p: seq<Name>, i: nat)
    requires Ranked(units, order, depths) && Path(LayerGraph(order, units), p) && p[0] in order && i < |p|
    ensures p[i] in order && depths[p[i]] + i <= depths[p[0]]
  {
    if i > 0 {
      LayerPathDescends(units, order, depths, p, i - 1);
      assert Edge(LayerGraph(order, units), p[i - 1], p[i]);
      LayerEdge(order, units, p[i - 1], p[i]);
    }
  }

  lemma SortEdgeDescends(units: Table, root: Name, order: seq<Name>, depths: map<Name, nat>, n: Name, d: Name)
    requires StartOrder(SortGraph(units), root, order) && Ranked(units, order, depths)
    requires n in order && d in units && Edge(SortGraph(units), n, d)
    ensures d in order && depths[d] < depths[n]
  {
    SortEdge(units, n, d);
    EdgeExtends(SortGraph(units), root, n, d);
    assert LayerDep(units, n, d);
  }

  /** Every node of a path to a loaded unit is loaded. */
  lemma PathIsLoaded(units: Table, p: seq<Name>, i: nat)
    requires Path(SortGraph(units), p) && p[|p| - 1] in units && i < |p|
    ensures p[i] in units && (i > 0 ==> Edge(SortGraph(units), p[i - 1], p[i]))
  {
    if i < |p| - 1 {
      assert Edge(SortGraph(units), p[i], p[i + 1]);
    }
  }

  lemma {:induction false} SortPathDescends(units: Table, root: Name, order: seq<Name>, depths: map<Name, nat>,
                                            p: seq<Name>, i: nat)
    requires StartOrder(SortGraph(units), root, order) && Ranked(units, order, depths)
    requires Path(SortGraph(units), p) && p[0] in order && p[|p| - 1] in units && i < |p|
    ensures p[i] in order && depths[p[i]] + i <= depths[p[0]]
  {
    if i > 0 {
      SortPathDescends(units, root, order, depths, p, i - 1);
      PathIsLoaded(units, p, i);
      SortEdgeDescends(units, root, order, depths, p[i - 1], p[i]);
    }
  }

  /** No service stands before one that it depends on, directly or through other units. */
  ghost predicate DependentsLater(g: Graph, services: seq<Name>) {
    forall i, j :: 0 <= i < j < |services| ==> !Reaches(g, services[i], services[j])
  }

  /** The vector that start-up leaves behind lists every service after all it depends on. */
  lemma ServicesAfterDependencies(units: Table, order: seq<Name>, depths: map<Name, nat>,
                                  outcome: Name -> Outcome, run: seq<State>)
    requires Ranked(units, order, depths) && BootRun(units, order, depths, outcome, run)
    ensures DependentsLater(LayerGraph(order, units), NamesOf(run[|run| - 1].services))
  {
    var g := LayerGraph(order, units);
    var services := NamesOf(run[|run| - 1].services);
    ServicesInLayerOrder(units, order, depths, outcome, run, |run| - 1);
    forall i, j, p | 0 <= i < j < |services| ensures !PathBetween(g, p, services[i], services[j]) {
      if PathBetween(g, p, services[i], services[j]) {
        if |p| > 1 {
          assert Edge(g, p[0], p[1]);
          LayerPathDescends(units, order, depths, p, |p| - 1);
        }
        assert false;
      }
    }
  }

  /** The same for the sorting dependencies of the whole table, on paths through units outside the
      order as well: a path between two units of the order does not leave it. */
  lemma ServicesAfterSortDeps(units: Table, root: Name, order: seq<Name>, depths: map<Name, nat>,
                              outcome: Name -> Outcome, run: seq<State>)
    requires StartOrder(SortGraph(units), root, order)
    requires Ranked(units, order, depths) && BootRun(units, order, depths, outcome, run)
    ensures DependentsLater(SortGraph(units), NamesOf(run[|run| - 1].services))
  {
    var services := NamesOf(run[|run| - 1].services);
    ServicesInLayerOrder(units, order, depths, outcome, run, |run| - 1);
    forall i, j, p | 0 <= i < j < |services| ensures !PathBetween(SortGraph(units), p, services[i], services[j]) {
      ListedIsOrdered(units, order, depths, outcome, run, services[i]);
      ListedIsOrdered(units, order, depths, outcome, run, services[j]);
      if PathBetween(SortGraph(units), p, services[i], services[j]) {
        SortPathDescends(units, root, order, depths, p, |p| - 1);
        assert false;
      }
    }
  }

  lemma ListedIsOrdered(units: Table, order: seq<Name>, depths: map<Name, nat>,
                        outcome: Name -> Outcome, run: seq<State>, n: Name)
    requires Ranked(units, order, depths) && BootRun(units, order, depths, outcome, run)
    requires n in NamesOf(run[|run| - 1].services)
    ensures n in order && n in units
  {
    ListedIffSpawned(units, order, depths, outcome, run, |run| - 1, n);
    StartsOnce(units, order, depths, outcome, run, |run| - 1);
  }

  // ----- which services are started

  /** By the end of layer `depths[n]` a service has been handed to `start_unit` exactly if none of its
      Requires was recorded false and each Requisite was recorded true when the layer began. */
  lemma StartedExactly(units: Table, order: seq<Name>, depths: map<Name, nat>, outcome: Name -> Outcome,
                       run: seq<State>, k: nat, n: Name)
    requires Ranked(units, order, depths) && BootRun(units, order, depths, outcome, run)
    requires k < |run| && n in order && depths[n] < k
    ensures n in run[k].starts
      <==> !units[n].isTarget
           && (forall d :: d in units[n].required && d in run[depths[n]].ok ==> run[depths[n]].ok[d])
           && (forall d :: d in units[n].requisite ==> d in run[depths[n]].ok && run[depths[n]].ok[d])
  {
    StartsOnce(units, order, depths, outcome, run, k);
  }
}
