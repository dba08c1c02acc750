/** Control requests and the order in which a shutdown stops: a start appends its unit at the end of
    the vector, whatever depends on it (src/applets/core/init/server.rs,
    src/applets/core/init/shutdown.rs). */
module StopOrder {
  import opened Graphs
  import opened Prelude
  import opened Units
  import opened BootSafety
  import opened Control
  import Boot
  import Depths
  import InitRun
  import Services

  function SvcNames(v: seq<Services.Svc>): (names: seq<Name>)
    ensures |names| == |v| && forall i :: 0 <= i < |v| ==> names[i] == v[i].name
  {
    seq(|v|, i requires 0 <= i < |v| => v[i].name)
  }

  /** The requests that change the vector; an isolate is a sequence of `StopInstance`, then of
      `StartUnit`. */
  datatype Request =
    | StopInstance(name: Name)
    | StopUnit(name: Name)
    | StartUnit(name: Name, w: World)
    | RestartUnit(name: Name, w: World)

  ghost predicate RequestStep(units: Table, before: seq<Services.Svc>, r: Request, after: seq<Services.Svc>) {
    match r
    case StopInstance(name) => after == StopOne(before, name)
    case StopUnit(name) => after == StopLinked(before, name)
    case StartUnit(name, w) => StartStep(units, w, before, name, after)
    case RestartUnit(name, w) => RestartStep(units, w, before, name, after)
  }

  /** The request adds an instance: it starts a unit that has none, and nothing keeps it from it. */
  predicate Appends(units: Table, v: seq<Services.Svc>, r: Request) {
    && r.StartUnit? && !Exists(v, r.name)
    && Refusal(v, r.name, units, r.w.conditionMet).None? && r.w.spawned.Some?
  }

  lemma StopsKeepNames(a: seq<Services.Svc>, b: seq<Services.Svc>)
    requires OnlyStops(a, b)
    ensures SvcNames(b) == SvcNames(a)
  {
    forall i | 0 <= i < |a| ensures b[i].name == a[i].name {
      assert Quieter(a[i], b[i]);
    }
  }

  lemma StartNames(units: Table, w: World, before: seq<Services.Svc>, name: Name, after: seq<Services.Svc>)
    requires StartStep(units, w, before, name, after)
    ensures SvcNames(after) == SvcNames(before) + if Appends(units, before, StartUnit(name, w)) then [name] else []
  {
    var i := Find(before, name);
    if i == |before| && Refusal(before, name, units, w.conditionMet).None? {
      var list :| ListsConflicts(units, name, list)
                  && after == StopConflicts(before, list) + NewInstances(name, units, w);
      StopConflictsOnlyStops(before, list);
      StopsKeepNames(before, StopConflicts(before, list));
    }
  }

  /** The names in the vector stay as they are, and a unit started anew comes last. */
  lemma RequestNames(units: Table, before: seq<Services.Svc>, r: Request, after: seq<Services.Svc>)
    requires RequestStep(units, before, r, after)
    ensures SvcNames(after) == SvcNames(before) + if Appends(units, before, r) then [r.name] else []
  {
    match r
    case StopInstance(name) =>
      StopOneOnlyStops(before, name);
      StopsKeepNames(before, after);
    case StopUnit(name) =>
      StopLinkedOnlyStops(before, name);
      StopsKeepNames(before, after);
    case StartUnit(name, w) => StartNames(units, w, before, name, after);
    case RestartUnit(name, w) =>
      var stopped := StopLinked(before, name);
      StopLinkedOnlyStops(before, name);
      StopsKeepNames(before, stopped);
      if !LooksUnknown(before, name) {
        LooksUnknownIff(before, name, "");
        FindSameNames(before, stopped, name);
        StartNames(units, w, stopped, name, after);
      }
  }

  /** `trace[k]` is the vector before request k. */
  ghost predicate RequestRun(units: Table, requests: seq<Request>, trace: seq<seq<Services.Svc>>) {
    && |trace| == |requests| + 1
    && forall k :: 0 <= k < |requests| ==> RequestStep(units, trace[k], requests[k], trace[k + 1])
  }

  /** The request appends a unit on which one that is listed already depends. */
  ghost predicate AppendsDependency(g: Graph, units: Table, v: seq<Services.Svc>, r: Request) {
    Appends(units, v, r) && exists i :: 0 <= i < |v| && Reaches(g, v[i].name, r.name)
  }

  lemma OneMoreLater(g: Graph, names: seq<Name>, n: Name)
    ensures DependentsLater(g, names + [n])
            <==> DependentsLater(g, names) && forall i :: 0 <= i < |names| ==> !Reaches(g, names[i], n)
  {
    var more := names + [n];
    if DependentsLater(g, more) {
      forall i, j | 0 <= i < j < |names| ensures !Reaches(g, names[i], names[j]) {
        assert more[i] == names[i] && more[j] == names[j];
      }
      forall i | 0 <= i < |names| ensures !Reaches(g, names[i], n) {
        assert more[i] == names[i] && more[|names|] == n;
      }
    }
  }

  lemma RequestOrder(g: Graph, units: Table, before: seq<Services.Svc>, r: Request, after: seq<Services.Svc>)
    requires RequestStep(units, before, r, after)
    ensures DependentsLater(g, SvcNames(after))
            <==> DependentsLater(g, SvcNames(before)) && !AppendsDependency(g, units, before, r)
  {
    RequestNames(units, before, r, after);
    if Appends(units, before, r) {
      OneMoreLater(g, SvcNames(before), r.name);
      assert AppendsDependency(g, units, before, r)
        <==> exists i :: 0 <= i < |before| && Reaches(g, SvcNames(before)[i], r.name);
    } else {
      assert SvcNames(after) == SvcNames(before);
    }
  }

  /** No request up to the k-th appended a dependency of a unit listed before. */
  ghost predicate NoneAppended(g: Graph, units: Table, requests: seq<Request>, trace: seq<seq<Services.Svc>>, k: nat)
    requires RequestRun(units, requests, trace) && k <= |requests|
  {
    forall j :: 0 <= j < k ==> !AppendsDependency(g, units, trace[j], requests[j])
  }

  lemma OneMoreAppended(g: Graph, units: Table, requests: seq<Request>, trace: seq<seq<Services.Svc>>, k: nat)
    requires RequestRun(units, requests, trace) && k < |requests|
    ensures NoneAppended(g, units, requests, trace, k + 1)
            <==> NoneAppended(g, units, requests, trace, k) && !AppendsDependency(g, units, trace[k], requests[k])
  {
  }

  lemma OrderOfOne(g: Graph, units: Table, requests: seq<Request>, trace: seq<seq<Services.Svc>>, k: nat)
    requires RequestRun(units, requests, trace) && k < |requests|
    ensures DependentsLater(g, SvcNames(trace[k + 1]))
            <==> DependentsLater(g, SvcNames(trace[k])) && !AppendsDependency(g, units, trace[k], requests[k])
  {
    RequestOrder(g, units, trace[k], requests[k], trace[k + 1]);
  }

  lemma {:induction false} OrderSoFar(g: Graph, units: Table, requests: seq<Request>, trace: seq<seq<Services.Svc>>,
                                      k: nat)
    requires RequestRun(units, requests, trace) && k <= |requests|
    ensures DependentsLater(g, SvcNames(trace[k]))
            <==> DependentsLater(g, SvcNames(trace[0])) && NoneAppended(g, units, requests, trace, k)
  {
    if k > 0 {
      OrderSoFar(g, units, requests, trace, k - 1);
      OrderOfOne(g, units, requests, trace, k - 1);
      OneMoreAppended(g, units, requests, trace, k - 1);
    }
  }

  /** Over every run of requests: each service stands after all it depends on at the end, exactly if
      it did at the beginning and no request appended a dependency of a unit listed before. */
  lemma RequestsKeepOrder(g: Graph, units: Table, requests: seq<Request>, trace: seq<seq<Services.Svc>>)
    requires RequestRun(units, requests, trace)
    ensures DependentsLater(g, SvcNames(trace[|requests|]))
            <==> DependentsLater(g, SvcNames(trace[0]))
                 && forall k :: 0 <= k < |requests| ==> !AppendsDependency(g, units, trace[k], requests[k])
  {
    OrderSoFar(g, units, requests, trace, |requests|);
  }

  /** What a shutdown may take as the dependencies of a boot: those by which the whole table is sorted,
      or those between the units of the boot's order, Requisite included. */
  ghost predicate BootGraph(g: Graph, units: Table, order: seq<Name>) {
    g == SortGraph(units) || g == Depths.LayerGraph(order, units)
  }

  /** So the vector of a boot can still be stopped in reverse, even in part, after any requests that
      start no dependency of a unit listed before; the units that the requests bring in count, with
      the dependencies that the table gives them. */
  lemma ShutdownStaysSafe(g: Graph, units: Table, root: Name, order: seq<Name>, depths: map<Name, nat>,
                          outcome: Name -> Boot.Outcome, run: seq<Boot.State>, requests: seq<Request>,
                          trace: seq<seq<Services.Svc>>, n: nat, t: nat, dependent: Name)
    requires BootGraph(g, units, order) && (g == SortGraph(units) ==> StartOrder(g, root, order))
    requires Boot.Layered(units, order, depths) && Boot.BootRun(units, order, depths, outcome, run)
    requires RequestRun(units, requests, trace) && SvcNames(trace[0]) == NamesOf(run[|run| - 1].services)
    requires forall k :: 0 <= k < |requests| ==> !AppendsDependency(g, units, trace[k], requests[k])
    requires n <= |trace[|requests|]| && t < n
    requires var services := SvcNames(trace[|requests|]);
      && dependent in services && dependent != InitRun.LastReversed(services, n)[t]
      && Reaches(g, dependent, InitRun.LastReversed(services, n)[t])
    ensures dependent in InitRun.LastReversed(SvcNames(trace[|requests|]), n)[..t]
  {
    Boot.LayeredIsRanked(units, order, depths);
    if g == SortGraph(units) {
      ServicesAfterSortDeps(units, root, order, depths, outcome, run);
    } else {
      ServicesAfterDependencies(units, order, depths, outcome, run);
    }
    RequestsKeepOrder(g, units, requests, trace);
    InitRun.DependentsStoppedFirst(g, SvcNames(trace[|requests|]), n, t, dependent);
  }

  /** "a" requires "b". */
  function Pair(): Table {
    map["a" := Unit(false, [], ["b"], [], [], [], [], [], [], PLAIN_SERVICE),
        "b" := Unit(false, [], [], [], [], [], [], [], [], PLAIN_SERVICE)]
  }

  /** A unit without an instance and without conflicts, of the table above. */
  lemma StartsLast(v: seq<Services.Svc>, name: Name, pid: nat)
    requires name in Pair() && !Exists(v, name)
    ensures StartStep(Pair(), World(true, Some(pid), 0), v, name,
                      v + [Services.NewSvc(name, Pair()[name], Some(pid), 0)])
  {
    assert ListsConflicts(Pair(), name, []);
    assert StopConflicts(v, []) == v;
  }

  lemma TwoRequests(units: Table, r: Request, q: Request, a: seq<Services.Svc>, b: seq<Services.Svc>,
                    c: seq<Services.Svc>)
    requires RequestStep(units, a, r, b) && RequestStep(units, b, q, c)
    ensures RequestRun(units, [r, q], [a, b, c])
  {
    forall k | 0 <= k < 2 ensures RequestStep(units, [a, b, c][k], [r, q][k], [a, b, c][k + 1]) {
      assert k == 0 || k == 1;
    }
  }

  function Running(name: Name, pid: nat): Services.Svc
    requires name in Pair()
  {
    Services.NewSvc(name, Pair()[name], Some(pid), 0)
  }

  lemma BothStarted()
    ensures StartStep(Pair(), World(true, Some(2), 0), [], "a", [Running("a", 2)])
    ensures StartStep(Pair(), World(true, Some(3), 0), [Running("a", 2)], "b", [Running("a", 2), Running("b", 3)])
  {
    var a, b := Running("a", 2), Running("b", 3);
    StartsLast([], "a", 2);
    assert [] + [a] == [a];
    assert [a][1..] == [] && Find([a], "b") == 1;
    StartsLast([a], "b", 3);
    assert [a] + [b] == [a, b];
  }

  lemma StopsBFirst()
    ensures InitRun.LastReversed(SvcNames([Running("a", 2), Running("b", 3)]), 2) == ["b", "a"]
  {
    assert SvcNames([Running("a", 2), Running("b", 3)]) == ["a", "b"];
    assert InitRun.LastReversed(["a", "b"], 2) == ["b", "a"];
  }

  /** Started by hand in the wrong order, "b" is stopped first, under "a". */
  lemma LateDependencyStopsFirst()
    ensures RequestRun(Pair(), [StartUnit("a", World(true, Some(2), 0)), StartUnit("b", World(true, Some(3), 0))],
                       [[], [Running("a", 2)], [Running("a", 2), Running("b", 3)]])
    ensures Reaches(SortGraph(Pair()), "a", "b")
    ensures InitRun.LastReversed(SvcNames([Running("a", 2), Running("b", 3)]), 2) == ["b", "a"]
  {
    BothStarted();
    TwoRequests(Pair(), StartUnit("a", World(true, Some(2), 0)), StartUnit("b", World(true, Some(3), 0)),
                [], [Running("a", 2)], [Running("a", 2), Running("b", 3)]);
    SortEdge(Pair(), "a", "b");
    EdgeReaches(SortGraph(Pair()), "a", "b");
    StopsBFirst();
  }
}
