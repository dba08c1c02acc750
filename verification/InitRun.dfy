/** `Init::run` from the loaded unit table to the main loop or the rescue shell, and the reverse
    stop loops (src/applets/core/init/mod.rs, src/applets/core/init/shutdown.rs). */
module InitRun {
  import opened Graphs
  import opened Prelude
  import opened Units
  import opened Depths
  import opened Boot
  import opened BootSafety

  datatype BootResult =
    | DependencyError(at: Name)
    | StillLayering
    | Rescue(stopped: seq<Name>)
    | MainLoop(services: seq<Instance>)

  /** The last `n` services, last one first. */
  function LastReversed(services: seq<Name>, n: nat): (r: seq<Name>)
    requires n <= |services|
    ensures |r| == n && forall t :: 0 <= t < n ==> r[t] == services[|services| - 1 - t]
  {
    seq(n, t requires 0 <= t < n => services[|services| - 1 - t])
  }

  /** The loop of `do_shutdown`: `late(t)` says whether the deadline has passed when the t-th
      stop is due. The services stopped are a suffix of the vector, in reverse. */
  method StopInReverse(services: seq<Instance>, late: nat -> bool) returns (stopped: seq<Name>)
    ensures |stopped| <= |services| && stopped == LastReversed(NamesOf(services), |stopped|)
    ensures |stopped| < |services| ==> late(|stopped|)
    ensures forall t :: 0 <= t < |stopped| ==> !late(t)
  {
    stopped := [];
    var i := |services|;
    while i > 0
      invariant 0 <= i <= |services| && |stopped| == |services| - i
      invariant stopped == LastReversed(NamesOf(services), |stopped|)
      invariant forall t :: 0 <= t < |stopped| ==> !late(t)
    {
      if late(|stopped|) {
        break;
      }
      i := i - 1;
      stopped := stopped + [services[i].name];
    }
  }

  /** Stopping in reverse never stops a service while one that depends on it is still to be
      stopped, wherever the deadline cuts. */
  lemma DependentsStoppedFirst(g: Graph, services: seq<Name>, n: nat, t: nat, dependent: Name)
    requires DependentsLater(g, services) && n <= |services| && t < n
    requires dependent in services && dependent != LastReversed(services, n)[t]
    requires Reaches(g, dependent, LastReversed(services, n)[t])
    ensures dependent in LastReversed(services, n)[..t]
  {
    var j :| 0 <= j < |services| && services[j] == dependent;
    assert j > |services| - 1 - t;
    assert LastReversed(services, n)[|services| - 1 - j] == dependent;
  }

  /** Start the layers, then fall back to the rescue shell if the root was not reached. */
  method StartOrRescue(units: Table, root: Name, order: seq<Name>, depths: map<Name, nat>,
                       outcome: Name -> Outcome, polls: nat, observe: (nat, nat, nat) -> Wait)
    returns (r: BootResult, ghost run: seq<State>)
    requires Ranked(units, order, depths)
    ensures CompleteRun(units, order, depths, outcome, run)
    ensures SweptRun(units, order, depths, outcome, polls, observe, run)
    ensures var final := run[|run| - 1];
      r == if RecordedTrue(final.ok, root) then MainLoop(final.services)
           else Rescue(LastReversed(NamesOf(final.services), |final.services|))
  {
    var final;
    final, run := StartAll(units, order, depths, outcome, polls, observe);
    if RecordedTrue(final.ok, root) {
      r := MainLoop(final.services);
    } else {
      var stopped := StopInReverse(final.services, t => false);
      r := Rescue(stopped);
    }
  }

  /** `Init::run`, with at most `passes` passes for the layering: what it comes to, and what the
      order, the depths and the run of the start-up loop were. */
  method Run(units: Table, root: Name, passes: nat, outcome: Name -> Outcome,
             polls: nat, observe: (nat, nat, nat) -> Wait)
    returns (r: BootResult, ghost order: seq<Name>, ghost depths: map<Name, nat>, ghost run: seq<State>)
    ensures r.DependencyError? <==> CyclicFrom(SortGraph(units), root)
    ensures r.DependencyError? ==> OnCycle(SortGraph(units), r.at)
    ensures !r.DependencyError? ==> StartOrder(SortGraph(units), root, order)
    ensures r.StillLayering? ==> passes <= |order| || !Acyclic(LayerGraph(order, units))
    ensures r.Rescue? || r.MainLoop? ==>
      && Layered(units, order, depths)
      && CompleteRun(units, order, depths, outcome, run)
      && SweptRun(units, order, depths, outcome, polls, observe, run)
      && (r.MainLoop? <==> RecordedTrue(run[|run| - 1].ok, root))
      && (r.MainLoop? ==> r.services == run[|run| - 1].services)
      && (r.Rescue? ==> r.stopped == LastReversed(NamesOf(run[|run| - 1].services), |run[|run| - 1].services|))
  {
    order, depths, run := [], map[], [];
    var start := ComputeStartOrder(units, root);
    if start.Err? {
      r := DependencyError(start.error);
    } else {
      order := start.value;
      var layers := ComputeDepths(start.value, units, passes);
      if layers.None? {
        r := StillLayering;
      } else {
        depths := layers.value;
        LayeredIsRanked(units, order, depths);
        r, run := StartOrRescue(units, root, start.value, layers.value, outcome, polls, observe);
      }
    }
  }

  /** Booting into the main loop means: no loaded Requires of the root target ended up false. */
  lemma MainLoopIffRequiresHold(units: Table, root: Name, order: seq<Name>, depths: map<Name, nat>,
                                outcome: Name -> Outcome, run: seq<State>)
    requires StartOrder(SortGraph(units), root, order) && Layered(units, order, depths)
    requires CompleteRun(units, order, depths, outcome, run)
    ensures root !in units ==> !RecordedTrue(run[|run| - 1].ok, root)
    ensures root in units && units[root].isTarget ==>
      (RecordedTrue(run[|run| - 1].ok, root) <==>
        forall d :: d in units[root].required && d in units ==> !RecordedFalse(run[|run| - 1].ok, d))
  {
    LayeredIsRanked(units, order, depths);
    if root !in units {
      RunRecordsBelow(units, order, depths, outcome, run, |run| - 1);
    } else if units[root].isTarget {
      RootReached(units, root, order, depths, outcome, run);
    }
  }

  /** The services that start-up leaves behind can be stopped in reverse, even in part, without
      pulling one out from under another. */
  lemma ShutdownIsSafe(units: Table, order: seq<Name>, depths: map<Name, nat>, outcome: Name -> Outcome,
                       run: seq<State>, n: nat, t: nat, dependent: Name)
    requires Layered(units, order, depths) && BootRun(units, order, depths, outcome, run)
    requires n <= |run[|run| - 1].services| && t < n
    requires var services := NamesOf(run[|run| - 1].services);
      && dependent in services && dependent != LastReversed(services, n)[t]
      && Reaches(LayerGraph(order, units), dependent, LastReversed(services, n)[t])
    ensures dependent in LastReversed(NamesOf(run[|run| - 1].services), n)[..t]
  {
    LayeredIsRanked(units, order, depths);
    ServicesAfterDependencies(units, order, depths, outcome, run);
    DependentsStoppedFirst(LayerGraph(order, units), NamesOf(run[|run| - 1].services), n, t, dependent);
  }
}
