/** Unit files and the start order: `sort_deps` and the three-colour depth-first
    search of `compute_start_order` (src/applets/core/init/units.rs). */
module Units {
  import opened Graphs
  import opened Prelude

  datatype RestartPolicy = RestartNo | RestartOnFailure | RestartAlways | RestartOnSuccess

  /** The `[Service]` keys that starting and running an instance depend on; of ExecStartPre,
      ExecStartPost and ExecStopPost the numbers of commands. */
  datatype Service = Service(
    execStart: bool,
    forking: bool,
    restart: RestartPolicy,
    restartSec: nat,
    startLimitBurst: nat,
    startLimitIntervalSec: nat,
    timeoutStartSec: nat,
    pidFile: bool,
    remainAfterExit: bool,
    successExitStatus: seq<int>,
    killModeNone: bool,
    oneshot: bool,
    execStartPre: nat,
    execStartPost: nat,
    timeoutStopSec: nat,
    execStop: bool,
    execStopPost: nat)

  datatype Unit = Unit(
    isTarget: bool,
    after: seq<Name>,
    required: seq<Name>,
    wants: seq<Name>,
    requisite: seq<Name>,
    before: seq<Name>,
    conflicts: seq<Name>,
    partOf: seq<Name>,
    wantedBy: seq<Name>,
    service: Service)

  type Table = map<Name, Unit>

  /** A service without special settings, for the example tables. */
  const PLAIN_SERVICE :=
    Service(true, false, RestartNo, 1, 5, 10, 10, false, false, [], false, false, 0, 0, 5, false, 0)

  // ----- the sorting dependencies

  /** `d` must be started before the loaded unit `n`. */
  predicate SortDep(units: Table, n: Name, d: Name)
    requires n in units
  {
    || d in units[n].required
    || d in units[n].after
    || d in units[n].wants
    || (d in units && n in units[d].before)
    || (units[n].isTarget && d in units && n in units[d].wantedBy)
  }

  function Names(s: seq<Name>): set<Name> {
    set d | d in s
  }

  /** The names a loaded unit mentions, plus every loaded name. */
  function Mentioned(units: Table, n: Name): set<Name>
    requires n in units
  {
    Names(units[n].required) + Names(units[n].after) + Names(units[n].wants) + units.Keys
  }

  ghost function SortGraph(units: Table): Graph {
    map n | n in units :: set d | d in Mentioned(units, n) && SortDep(units, n, d)
  }

  lemma SortEdge(units: Table, n: Name, d: Name)
    ensures Edge(SortGraph(units), n, d) <==> n in units && SortDep(units, n, d)
  {
  }

  /** The vector of sorting dependencies. The two passes over the unit table visit it in an
      arbitrary order each, as iterating over a `HashMap` does. */
  method SortDeps(name: Name, u: Unit, units: Table) returns (deps: seq<Name>)
    requires name in units && units[name] == u
    ensures forall d :: d in deps <==> SortDep(units, name, d)
    ensures u.required + u.after + u.wants <= deps
  {
    deps := u.required + u.after + u.wants;
    ghost var listed := deps;
    var rest := units.Keys;
    while rest != {}
      invariant rest <= units.Keys && listed <= deps
      invariant forall d :: d in deps <==>
        d in listed || (d in units && d !in rest && name in units[d].before)
    {
      var other :| other in rest;
      rest := rest - {other};
      if name in units[other].before {
        deps := deps + [other];
      }
    }
    if u.isTarget {
      ghost var before := deps;
      rest := units.Keys;
      while rest != {}
        invariant rest <= units.Keys && listed <= deps
        invariant forall d :: d in deps <==>
          d in before || (d in units && d !in rest && name in units[d].wantedBy)
      {
        var other :| other in rest;
        rest := rest - {other};
        if name in units[other].wantedBy {
          deps := deps + [other];
        }
      }
    }
  }

  // ----- the start order

  /** Every node stands after all of its successors that are nodes. */
  ghost predicate SuccessorsFirst(g: Graph, order: seq<Name>) {
    forall j, d :: 0 <= j < |order| && d in g && Edge(g, order[j], d) ==> d in order[..j]
  }

  /** What a start order for `root` has to be: the reachable nodes, each once, each after its
      dependencies, the root last. */
  ghost predicate StartOrder(g: Graph, root: Name, order: seq<Name>) {
    && NoDuplicates(order)
    && (forall n :: n in order <==> n in g && Reaches(g, root, n))
    && SuccessorsFirst(g, order)
    && (root in g ==> order != [] && order[|order| - 1] == root)
  }

  /** All names the search can meet. */
  ghost function Universe(units: Table, root: Name): (all: set<Name>)
    ensures root in all && ClosedUnder(SortGraph(units), all)
  {
    {root} + units.Keys + set n, d | n in units && d in Mentioned(units, n) :: d
  }

  /** The colours of `visited`. */
  const UNSEEN := 0
  const ACTIVE := 1
  const DONE := 2

  ghost predicate Coloured(visited: map<Name, int>, n: Name, colour: int) {
    n in visited && visited[n] == colour
  }

  /** Names whose visit has begun. */
  ghost function Seen(visited: map<Name, int>): set<Name> {
    set n | n in visited && visited[n] != UNSEEN
  }

  /** What is done stays done. */
  ghost predicate Grew(before: map<Name, int>, after: map<Name, int>) {
    && (forall n :: Coloured(before, n, DONE) ==> Coloured(after, n, DONE))
    && Seen(before) <= Seen(after)
  }

  /** The active names are exactly those on the path of the recursion. */
  ghost predicate ActivePath(g: Graph, root: Name, visited: map<Name, int>, path: seq<Name>) {
    && (forall n :: n in visited ==> visited[n] == UNSEEN || visited[n] == ACTIVE || visited[n] == DONE)
    && (forall n :: Coloured(visited, n, ACTIVE) <==> n in path)
    && (path != [] ==> Path(g, path) && path[0] == root)
  }

  /** What is done is reachable and closed under dependencies; its nodes are the order built
      so far. */
  ghost predicate DoneOrdered(g: Graph, root: Name, visited: map<Name, int>, order: seq<Name>) {
    && (forall n, d :: Coloured(visited, n, DONE) && Edge(g, n, d) ==> Coloured(visited, d, DONE))
    && (forall n :: Coloured(visited, n, DONE) ==> Reaches(g, root, n))
    && (forall n :: n in order <==> n in g && Coloured(visited, n, DONE))
    && NoDuplicates(order)
    && SuccessorsFirst(g, order)
  }

  ghost predicate SearchState(g: Graph, all: set<Name>, root: Name,
                              order: seq<Name>, visited: map<Name, int>, path: seq<Name>) {
    && ActivePath(g, root, visited, path)
    && DoneOrdered(g, root, visited, order)
    && Seen(visited) <= all
  }

  /** The next name of the recursion is the root or a dependency of the last one. */
  ghost predicate NextOnPath(g: Graph, root: Name, path: seq<Name>, name: Name) {
    if path == [] then name == root else Edge(g, path[|path| - 1], name)
  }

  lemma EnterActive(g: Graph, root: Name, visited: map<Name, int>, path: seq<Name>, name: Name)
    requires ActivePath(g, root, visited, path) && NextOnPath(g, root, path, name)
    ensures ActivePath(g, root, visited[name := ACTIVE], path + [name])
  {
    var after := visited[name := ACTIVE];
    var here := path + [name];
    assert forall n :: n in here <==> n in path || n == name;
    assert forall n :: Coloured(after, n, ACTIVE) <==> Coloured(visited, n, ACTIVE) || n == name;
    forall i | 0 <= i < |here| - 1 ensures Edge(g, here[i], here[i + 1]) {
      if i + 1 < |path| {
        assert Edge(g, path[i], path[i + 1]);
      }
    }
  }

  lemma EnterUnit(g: Graph, all: set<Name>, root: Name,
                  order: seq<Name>, visited: map<Name, int>, path: seq<Name>, name: Name)
    requires SearchState(g, all, root, order, visited, path) && NextOnPath(g, root, path, name)
    requires name in all - Seen(visited)
    ensures SearchState(g, all, root, order, visited[name := ACTIVE], path + [name])
    ensures |all - Seen(visited[name := ACTIVE])| < |all - Seen(visited)|
    ensures Grew(visited, visited[name := ACTIVE])
    ensures name !in path
  {
    assert !Coloured(visited, name, ACTIVE) && !Coloured(visited, name, DONE);
    EnterActive(g, root, visited, path, name);
    EnterDone(g, root, visited, order, name);
    EnterSeen(all, visited, name);
    EnterGrew(visited, name);
  }

  lemma EnterGrew(visited: map<Name, int>, name: Name)
    requires name !in Seen(visited)
    ensures Grew(visited, visited[name := ACTIVE])
  {
  }

  lemma EnterDone(g: Graph, root: Name, visited: map<Name, int>, order: seq<Name>, name: Name)
    requires DoneOrdered(g, root, visited, order) && !Coloured(visited, name, DONE)
    ensures DoneOrdered(g, root, visited[name := ACTIVE], order)
  {
    assert forall n :: Coloured(visited[name := ACTIVE], n, DONE) <==> Coloured(visited, n, DONE);
  }

  lemma EnterSeen(all: set<Name>, visited: map<Name, int>, name: Name)
    requires name in all - Seen(visited)
    ensures Seen(visited[name := ACTIVE]) == Seen(visited) + {name}
    ensures |all - Seen(visited[name := ACTIVE])| < |all - Seen(visited)|
  {
    assert Seen(visited[name := ACTIVE]) == Seen(visited) + {name};
    SmallerRest(all, Seen(visited), name);
  }

  lemma SmallerRest(all: set<Name>, seen: set<Name>, name: Name)
    requires name in all - seen
    ensures |all - (seen + {name})| < |all - seen|
  {
    assert all - (seen + {name}) == all - seen - {name};
  }

  lemma LeaveActive(g: Graph, root: Name, visited: map<Name, int>, path: seq<Name>, name: Name)
    requires ActivePath(g, root, visited, path + [name]) && name !in path
    ensures ActivePath(g, root, visited[name := DONE], path)
  {
    var after := visited[name := DONE];
    var here := path + [name];
    assert forall n :: n in here <==> n in path || n == name;
    assert forall n :: Coloured(after, n, ACTIVE) <==> Coloured(visited, n, ACTIVE) && n != name;
    if path != [] {
      forall i | 0 <= i < |path| - 1 ensures Edge(g, path[i], path[i + 1]) {
        assert Edge(g, here[i], here[i + 1]);
      }
      assert here[0] == path[0];
    }
  }

  lemma LeaveDone(g: Graph, root: Name, visited: map<Name, int>, order: seq<Name>, name: Name)
    requires DoneOrdered(g, root, visited, order)
    requires !Coloured(visited, name, DONE) && Reaches(g, root, name)
    requires forall d :: Edge(g, name, d) ==> Coloured(visited, d, DONE)
    ensures DoneOrdered(g, root, visited[name := DONE], if name in g then order + [name] else order)
  {
    var after := visited[name := DONE];
    assert forall n :: Coloured(after, n, DONE) <==> Coloured(visited, n, DONE) || n == name;
    if name in g {
      var longer := order + [name];
      assert forall n :: n in longer <==> n in order || n == name;
      forall j, d | 0 <= j < |longer| && d in g && Edge(g, longer[j], d) ensures d in longer[..j] {
        if j < |order| {
          assert Edge(g, order[j], d);
          assert longer[..j] == order[..j];
        } else {
          assert longer[..j] == order;
        }
      }
    }
  }

  lemma LeaveUnit(g: Graph, all: set<Name>, root: Name,
                  order: seq<Name>, visited: map<Name, int>, path: seq<Name>, name: Name)
    requires SearchState(g, all, root, order, visited, path + [name])
    requires name !in path && Reaches(g, root, name)
    requires forall d :: Edge(g, name, d) ==> Coloured(visited, d, DONE)
    ensures SearchState(g, all, root, if name in g then order + [name] else order, visited[name := DONE], path)
    ensures Grew(visited, visited[name := DONE])
  {
    assert (path + [name])[|path|] == name;
    assert Coloured(visited, name, ACTIVE);
    LeaveActive(g, root, visited, path, name);
    LeaveDone(g, root, visited, order, name);
    assert Seen(visited[name := DONE]) == Seen(visited);
  }

  lemma PathReaches(g: Graph, root: Name, path: seq<Name>, name: Name)
    requires path != [] ==> Path(g, path) && path[0] == root
    requires NextOnPath(g, root, path, name)
    ensures Reaches(g, root, name)
  {
    if path == [] {
      ReachesSelf(g, root);
    } else {
      assert PathBetween(g, path + [name], root, name);
    }
  }

  class Search {
    const units: Table
    ghost const g: Graph
    ghost const all: set<Name>
    ghost const root: Name
    var order: seq<Name>
    var visited: map<Name, int>

    constructor (units: Table, ghost root: Name)
      ensures this.units == units && this.root == root
      ensures Valid([]) && order == [] && visited == map[]
    {
      this.units := units;
      this.g := SortGraph(units);
      this.all := Universe(units, root);
      this.root := root;
      order := [];
      visited := map[];
    }

    ghost predicate Valid(path: seq<Name>)
      reads this
    {
      && g == SortGraph(units)
      && root in all && ClosedUnder(g, all)
      && SearchState(g, all, root, order, visited, path)
    }

    /** One call of the inner `visit`; `path` is the chain of callers. */
    method Visit(name: Name, ghost path: seq<Name>) returns (r: Result<(), Name>)
      requires Valid(path) && NextOnPath(g, root, path, name)
      modifies this
      ensures r.Ok? ==> Valid(path) && Coloured(visited, name, DONE) && Grew(old(visited), visited)
      ensures r.Ok? && name in units && name !in old(order) ==>
        order != [] && order[|order| - 1] == name
      ensures r.Err? ==> Reaches(g, root, r.error) && OnCycle(g, r.error)
      decreases |all - Seen(visited)|, 1
    {
      PathReaches(g, root, path, name);
      ClosedContainsReachable(g, all, root, name);
      var st := if name in visited then visited[name] else UNSEEN;
      if st == UNSEEN {
        r := Expand(name, path);
      } else if st == ACTIVE {
        CallerIsOnCycle(g, path, name);
        r := Err(name);
      } else {
        r := Ok(());
      }
    }

    /** The rest of `visit` for a name met for the first time. */
    method Expand(name: Name, ghost path: seq<Name>) returns (r: Result<(), Name>)
      requires Valid(path) && NextOnPath(g, root, path, name)
      requires name in all - Seen(visited) && Reaches(g, root, name)
      modifies this
      ensures r.Ok? ==> Valid(path) && Coloured(visited, name, DONE) && Grew(old(visited), visited)
      ensures r.Ok? && name in units ==> order != [] && order[|order| - 1] == name
      ensures r.Err? ==> Reaches(g, root, r.error) && OnCycle(g, r.error)
      decreases |all - Seen(visited)|, 0
    {
      EnterUnit(g, all, root, order, visited, path, name);
      visited := visited[name := ACTIVE];
      r := Ok(());
      if name in units {
        var deps := SortDeps(name, units[name], units);
        forall d ensures d in deps <==> Edge(g, name, d) {
          SortEdge(units, name, d);
        }
        r := VisitAll(deps, name, path);
      }
      if r.Ok? {
        LeaveUnit(g, all, root, order, visited, path, name);
        order := if name in units then order + [name] else order;
        visited := visited[name := DONE];
      }
    }

    /** The loop over the dependencies of `name`, which has become active. */
    method VisitAll(deps: seq<Name>, name: Name, ghost path: seq<Name>) returns (r: Result<(), Name>)
      requires Valid(path + [name])
      requires forall d :: d in deps ==> Edge(g, name, d)
      modifies this
      ensures r.Ok? ==> Valid(path + [name]) && Grew(old(visited), visited)
      ensures r.Ok? ==> forall d :: d in deps ==> Coloured(visited, d, DONE)
      ensures r.Err? ==> Reaches(g, root, r.error) && OnCycle(g, r.error)
      decreases |all - Seen(visited)|, 2
    {
      r := Ok(());
      var k := 0;
      while k < |deps|
        invariant k <= |deps| && r.Ok? && Valid(path + [name]) && Grew(old(visited), visited)
        invariant forall i :: 0 <= i < k ==> Coloured(visited, deps[i], DONE)
      {
        SubsetSize(all - Seen(visited), all - Seen(old(visited)));
        r := Visit(deps[k], path + [name]);
        if r.Err? {
          return;
        }
        k := k + 1;
      }
    }
  }

  lemma SubsetSize(a: set<Name>, b: set<Name>)
    requires a <= b
    ensures |a| <= |b|
  {
    if a != {} {
      var x :| x in a;
      SubsetSize(a - {x}, b - {x});
    }
  }

  /** Meeting a name of the current path closes a cycle. */
  lemma CallerIsOnCycle(g: Graph, path: seq<Name>, name: Name)
    requires name in path && Path(g, path) && Edge(g, path[|path| - 1], name)
    ensures OnCycle(g, name)
  {
    var i :| 0 <= i < |path| && path[i] == name;
    var c := path[i..] + [name];
    assert forall k :: 0 <= k < |path| - i ==> c[k] == path[i + k];
    assert PathBetween(g, c, name, name);
  }

  /** Walking a path from a listed name only goes down the list. */
  lemma {:induction false} PathGoesDown(g: Graph, order: seq<Name>, p: seq<Name>, i: nat) returns (j: nat)
    requires NoDuplicates(order) && SuccessorsFirst(g, order)
    requires Path(g, p) && i < |p| && p[i] in g && p[0] in order
    ensures j < |order| && order[j] == p[i] && (i > 0 ==> forall k :: 0 <= k <= j ==> order[k] != p[0])
  {
    if i == 0 {
      j :| 0 <= j < |order| && order[j] == p[0];
    } else {
      assert Edge(g, p[i - 1], p[i]);
      var k := PathGoesDown(g, order, p, i - 1);
      assert p[i] in order[..k];
      j :| 0 <= j < k && order[j] == p[i];
    }
  }

  lemma ListedNotOnCycle(g: Graph, order: seq<Name>, a: Name, p: seq<Name>)
    requires NoDuplicates(order) && SuccessorsFirst(g, order) && a in order
    requires PathBetween(g, p, a, a)
    ensures |p| == 1
  {
    if |p| > 1 {
      assert Edge(g, p[0], p[1]);
      var j := PathGoesDown(g, order, p, |p| - 1);
      assert false;
    }
  }

  /** A start order exists only if no cycle is reachable. */
  lemma StartOrderAcyclic(g: Graph, root: Name, order: seq<Name>)
    requires StartOrder(g, root, order)
    ensures !CyclicFrom(g, root)
  {
    forall a | Reaches(g, root, a) ensures !OnCycle(g, a) {
      forall p | PathBetween(g, p, a, a) ensures |p| < 2 {
        if |p| >= 2 {
          assert Edge(g, p[0], p[1]);
          ListedNotOnCycle(g, order, a, p);
          assert false;
        }
      }
    }
  }

  /** `compute_start_order`: an error names a unit on a reachable cycle, and occurs exactly
      when there is one; otherwise the result is a start order. */
  method ComputeStartOrder(units: Table, root: Name) returns (r: Result<seq<Name>, Name>)
    ensures r.Ok? ==> StartOrder(SortGraph(units), root, r.value)
    ensures r.Err? <==> CyclicFrom(SortGraph(units), root)
    ensures r.Err? ==> Reaches(SortGraph(units), root, r.error) && OnCycle(SortGraph(units), r.error)
  {
    var search := new Search(units, root);
    var outcome := search.Visit(root, []);
    if outcome.Err? {
      return Err(outcome.error);
    }
    ghost var g := search.g;
    ghost var done := set n | n in search.visited && search.visited[n] == DONE;
    assert ClosedUnder(g, done) by {
      assert forall n :: n in done <==> Coloured(search.visited, n, DONE);
    }
    forall n ensures n in search.order <==> n in g && Reaches(g, root, n) {
      if Reaches(g, root, n) {
        ClosedContainsReachable(g, done, root, n);
      }
    }
    StartOrderAcyclic(g, root, search.order);
    r := Ok(search.order);
  }

  // ----- the keys of unit files

  /** In a start order every unit stands after the loaded ones that it names in Requires, After or Wants
      and after those that name it in Before; a target also after those that are WantedBy it. */
  lemma OrderFollowsKeys(units: Table, root: Name, order: seq<Name>, i: nat, d: Name)
    requires StartOrder(SortGraph(units), root, order) && i < |order| && order[i] in units && d in units
    requires var u := units[order[i]];
      || d in u.required || d in u.after || d in u.wants
      || order[i] in units[d].before
      || (u.isTarget && order[i] in units[d].wantedBy)
    ensures d in order[..i]
  {
    SortEdge(units, order[i], d);
    assert Edge(SortGraph(units), order[i], d) && d in SortGraph(units);
  }

  /** Nothing else puts one unit before another: Requisite, Conflicts and PartOf do not, and Before and
      WantedBy only of the unit that has the key. */
  lemma OnlyKeysOrder(units: Table, n: Name, d: Name)
    requires n in units && d in units && Edge(SortGraph(units), n, d)
    ensures var u := units[n];
      || d in u.required || d in u.after || d in u.wants
      || n in units[d].before
      || (u.isTarget && n in units[d].wantedBy)
  {
    SortEdge(units, n, d);
  }
}
