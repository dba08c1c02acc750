/** The dependency closure that `isolate` works with (src/applets/core/init/server.rs). */
module Isolate {
  import opened Graphs
  import opened Prelude
  import opened Units

  /** `n` pulls in `d`: by Requires or Wants of a loaded unit, or because `d` is WantedBy `n`. */
  predicate PullsIn(units: Table, n: Name, d: Name) {
    || (n in units && (d in units[n].required || d in units[n].wants))
    || (d in units && n in units[d].wantedBy)
  }

  ghost function IsolateNames(units: Table, target: Name): set<Name> {
    {target} + units.Keys + set n, d | n in units && d in units[n].required + units[n].wants + units[n].wantedBy :: d
  }

  ghost function IsolateGraph(units: Table, target: Name): Graph {
    map n | n in IsolateNames(units, target) :: set d | d in IsolateNames(units, target) && PullsIn(units, n, d)
  }

  lemma IsolateEdge(units: Table, target: Name, n: Name, d: Name)
    ensures Edge(IsolateGraph(units, target), n, d) <==> PullsIn(units, n, d)
  {
    if PullsIn(units, n, d) {
      var names := set m, e | m in units && e in units[m].required + units[m].wants + units[m].wantedBy :: e;
      if n in units && (d in units[n].required || d in units[n].wants) {
        assert d in units[n].required + units[n].wants + units[n].wantedBy;
        assert d in names;
      } else {
        assert n in units[d].required + units[d].wants + units[d].wantedBy;
        assert n in names;
      }
    }
  }

  /** What the worklist pushes for one name; the unit table is visited in an arbitrary order. */
  method PulledIn(units: Table, n: Name) returns (more: seq<Name>)
    ensures forall d :: d in more <==> PullsIn(units, n, d)
  {
    more := if n in units then units[n].required + units[n].wants else [];
    ghost var direct := more;
    var rest := units.Keys;
    while rest != {}
      invariant rest <= units.Keys
      invariant forall d :: d in more <==> d in direct || (d in units && d !in rest && n in units[d].wantedBy)
    {
      var other :| other in rest;
      rest := rest - {other};
      if n in units[other].wantedBy {
        more := more + [other];
      }
    }
  }

  /** The state of the worklist: everything seen is reachable, and what a finished name pulls in
      has been seen. */
  ghost predicate Worklist(g: Graph, target: Name, closure: set<Name>, stack: seq<Name>) {
    && (target in closure || target in stack)
    && (forall n :: n in closure || n in stack ==> Reaches(g, target, n))
    && (forall n, d :: n in closure && Edge(g, n, d) ==> d in closure || d in stack)
  }

  lemma PopSeen(g: Graph, target: Name, closure: set<Name>, stack: seq<Name>)
    requires Worklist(g, target, closure, stack) && stack != [] && stack[|stack| - 1] in closure
    ensures Worklist(g, target, closure, stack[..|stack| - 1])
  {
    assert stack == stack[..|stack| - 1] + [stack[|stack| - 1]];
  }

  lemma PopNew(g: Graph, target: Name, closure: set<Name>, stack: seq<Name>, more: seq<Name>)
    requires Worklist(g, target, closure, stack) && stack != []
    requires forall d :: d in more <==> Edge(g, stack[|stack| - 1], d)
    ensures Worklist(g, target, closure + {stack[|stack| - 1]}, stack[..|stack| - 1] + more)
  {
    var n := stack[|stack| - 1];
    var rest := stack[..|stack| - 1];
    assert stack == rest + [n];
    assert forall d :: d in rest + more <==> d in rest || d in more;
    forall d | d in more ensures Reaches(g, target, d) {
      EdgeExtends(g, target, n, d);
    }
  }

  /** The closure loop of `do_isolate`: it ends, with the least set that contains the target and
      everything its members pull in. */
  method Closure(units: Table, target: Name) returns (closure: set<Name>)
    ensures forall n :: n in closure <==> Reaches(IsolateGraph(units, target), target, n)
    ensures target in closure && ClosedUnder(IsolateGraph(units, target), closure)
    ensures forall s :: target in s && ClosedUnder(IsolateGraph(units, target), s) ==> closure <= s
  {
    ghost var g := IsolateGraph(units, target);
    ghost var all := IsolateNames(units, target);
    assert ClosedUnder(g, all) && target in all;
    closure := {};
    var stack := [target];
    ReachesSelf(g, target);
    while stack != []
      invariant Worklist(g, target, closure, stack) && closure <= all
      decreases |all - closure|, |stack|
    {
      var n := stack[|stack| - 1];
      ClosedContainsReachable(g, all, target, n);
      if n in closure {
        PopSeen(g, target, closure, stack);
        stack := stack[..|stack| - 1];
      } else {
        var more := PulledIn(units, n);
        forall d ensures d in more <==> Edge(g, n, d) {
          IsolateEdge(units, target, n, d);
        }
        PopNew(g, target, closure, stack, more);
        SmallerRest(all, closure, n);
        closure := closure + {n};
        stack := stack[..|stack| - 1] + more;
      }
    }
    forall n ensures n in closure <==> Reaches(g, target, n) {
      if Reaches(g, target, n) {
        ClosedContainsReachable(g, closure, target, n);
      }
    }
    forall s | target in s && ClosedUnder(g, s) ensures closure <= s {
      forall n | n in closure ensures n in s {
        ClosedContainsReachable(g, s, target, n);
      }
    }
  }

  /** `d` is WantedBy a unit of the closure that is no loaded target: isolating follows this edge,
      booting does not. */
  ghost predicate WantedByOther(units: Table, target: Name, d: Name) {
    d in units && exists w :: w in units[d].wantedBy && !(w in units && units[w].isTarget)
                              && Reaches(IsolateGraph(units, target), target, w)
  }

  /** All loaded units of the closure are ordered. */
  ghost predicate ClosureOrdered(units: Table, target: Name, order: seq<Name>) {
    forall n :: n in units && Reaches(IsolateGraph(units, target), target, n) ==> n in order
  }

  lemma {:induction false} PathOrdered(units: Table, target: Name, order: seq<Name>, p: seq<Name>, i: nat)
    requires target in units && StartOrder(SortGraph(units), target, order)
    requires forall d :: WantedByOther(units, target, d) ==> d in order
    requires Path(IsolateGraph(units, target), p) && p[0] == target && i < |p|
    ensures p[i] in units ==> p[i] in order
  {
    var g := SortGraph(units);
    if i == 0 {
      ReachesSelf(g, target);
    } else if p[i] in units {
      PathOrdered(units, target, order, p, i - 1);
      assert Edge(IsolateGraph(units, target), p[i - 1], p[i]);
      IsolateEdge(units, target, p[i - 1], p[i]);
      if p[i - 1] in units && SortDep(units, p[i - 1], p[i]) {
        SortEdge(units, p[i - 1], p[i]);
        EdgeExtends(g, target, p[i - 1], p[i]);
      } else {
        assert p[i - 1] in units[p[i]].wantedBy;
        assert PathBetween(IsolateGraph(units, target), p[..i], target, p[i - 1]);
        assert WantedByOther(units, target, p[i]);
      }
    }
  }

  /** What isolating starts lies within the start order of the same target exactly if booting
      orders, for other reasons, every unit that is WantedBy a member which is no loaded target. */
  lemma ClosureOrderedIff(units: Table, target: Name, order: seq<Name>)
    requires target in units && StartOrder(SortGraph(units), target, order)
    ensures ClosureOrdered(units, target, order)
            <==> forall d :: WantedByOther(units, target, d) ==> d in order
  {
    var g := IsolateGraph(units, target);
    if ClosureOrdered(units, target, order) {
      forall d | WantedByOther(units, target, d) ensures d in order {
        var w :| w in units[d].wantedBy && !(w in units && units[w].isTarget) && Reaches(g, target, w);
        IsolateEdge(units, target, w, d);
        EdgeExtends(g, target, w, d);
      }
    }
    if forall d :: WantedByOther(units, target, d) ==> d in order {
      forall n | n in units && Reaches(g, target, n) ensures n in order {
        var p :| PathBetween(g, p, target, n);
        PathOrdered(units, target, order, p, |p| - 1);
      }
    }
  }

  /** WantedBy names loaded targets only. */
  predicate WantedByTargets(units: Table) {
    forall u, w :: u in units && w in units[u].wantedBy ==> w in units && units[w].isTarget
  }

  /** In particular if WantedBy names loaded targets only. */
  lemma IsolatedAreOrdered(units: Table, target: Name, order: seq<Name>, n: Name)
    requires WantedByTargets(units) && target in units && n in units
    requires StartOrder(SortGraph(units), target, order)
    requires Reaches(IsolateGraph(units, target), target, n)
    ensures n in order
  {
    ClosureOrderedIff(units, target, order);
  }

  /** "b" is WantedBy the service "a", which the target wants. */
  function WantedByService(): Table {
    map["root" := Unit(true, [], [], ["a"], [], [], [], [], [], PLAIN_SERVICE),
        "a" := Unit(false, [], [], [], [], [], [], [], [], PLAIN_SERVICE),
        "b" := Unit(false, [], [], [], [], [], [], [], ["a"], PLAIN_SERVICE)]
  }

  /** Without that condition the two differ: isolating starts "b", booting does not order it. */
  lemma WantedByServiceDiffers()
    ensures Reaches(IsolateGraph(WantedByService(), "root"), "root", "b")
    ensures !Reaches(SortGraph(WantedByService()), "root", "b")
  {
    var units := WantedByService();
    var g := IsolateGraph(units, "root");
    IsolateEdge(units, "root", "root", "a");
    IsolateEdge(units, "root", "a", "b");
    EdgeReaches(g, "root", "a");
    EdgeExtends(g, "root", "a", "b");
    var reached := {"root", "a"};
    forall n, d | n in reached && Edge(SortGraph(units), n, d) ensures d in reached {
      SortEdge(units, n, d);
    }
    if Reaches(SortGraph(units), "root", "b") {
      ClosedContainsReachable(SortGraph(units), reached, "root", "b");
    }
  }

  /** The closure follows Requires and Wants from a loaded unit, and WantedBy back to any; nothing else. */
  lemma ClosureKeys(units: Table, target: Name, n: Name, d: Name)
    requires Reaches(IsolateGraph(units, target), target, n)
    ensures (n in units && (d in units[n].required || d in units[n].wants))
            || (d in units && n in units[d].wantedBy)
            ==> Reaches(IsolateGraph(units, target), target, d)
    ensures Edge(IsolateGraph(units, target), n, d)
            ==> (n in units && (d in units[n].required || d in units[n].wants))
                || (d in units && n in units[d].wantedBy)
  {
    IsolateEdge(units, target, n, d);
    if Edge(IsolateGraph(units, target), n, d) {
      EdgeExtends(IsolateGraph(units, target), target, n, d);
    }
  }
}
