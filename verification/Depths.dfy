/** The start layers: the repeat-until-stable loop of `compute_depths`
    (src/applets/core/init/mod.rs). */
module Depths {
  import opened Graphs
  import opened Prelude
  import opened Units

  /** The loaded units of the order: those that can get a depth. */
  function Nodes(order: seq<Name>, units: Table): set<Name> {
    set n | n in order && n in units
  }

  /** `n` is layered after `d`: the sorting dependencies and `Requisite=`. */
  predicate LayerDep(units: Table, n: Name, d: Name)
    requires n in units
  {
    SortDep(units, n, d) || d in units[n].requisite
  }

  /** The layering dependencies between the loaded units of the order. */
  ghost function LayerGraph(order: seq<Name>, units: Table): Graph {
    map n | n in Nodes(order, units) :: set d | d in Nodes(order, units) && LayerDep(units, n, d)
  }

  lemma LayerEdge(order: seq<Name>, units: Table, n: Name, d: Name)
    ensures Edge(LayerGraph(order, units), n, d) <==>
            n in Nodes(order, units) && d in Nodes(order, units) && LayerDep(units, n, d)
  {
  }

  /** `depth` is one more than the largest recorded depth of a successor, 0 if none has one. */
  ghost predicate OneAboveSuccessors(g: Graph, depths: map<Name, nat>, n: Name, depth: nat) {
    && (forall d :: Edge(g, n, d) && d in depths ==> depths[d] < depth)
    && (depth > 0 ==> exists d :: Edge(g, n, d) && d in depths && depths[d] == depth - 1)
  }

  /** A depth map that one more pass would not change. */
  ghost predicate Stable(g: Graph, depths: map<Name, nat>) {
    && depths.Keys == g.Keys
    && forall n :: n in g ==> OneAboveSuccessors(g, depths, n, depths[n])
  }

  /** The nodes whose chains have at most `k` edges carry their final depth. */
  ghost predicate SettledTo(g: Graph, depths: map<Name, nat>, k: int) {
    forall n :: n in g && ChainsBounded(g, n, k) ==> SettledAt(g, depths, n)
  }

  ghost predicate SettledAt(g: Graph, depths: map<Name, nat>, n: Name) {
    n in depths && LongestChain(g, n, depths[n])
  }

  ghost predicate AllSettled(g: Graph, depths: map<Name, nat>) {
    forall n :: n in g ==> SettledAt(g, depths, n)
  }

  /** One more than the largest depth recorded for a dependency, 0 if none is. */
  method DepthAbove(deps: seq<Name>, depths: map<Name, nat>) returns (depth: nat)
    ensures forall d :: d in deps && d in depths ==> depths[d] < depth
    ensures depth > 0 ==> exists d :: d in deps && d in depths && depths[d] == depth - 1
  {
    depth := 0;
    for i := 0 to |deps|
      invariant forall j :: 0 <= j < i && deps[j] in depths ==> depths[deps[j]] < depth
      invariant depth > 0 ==> exists d :: d in deps && d in depths && depths[d] == depth - 1
    {
      if deps[i] in depths && depth <= depths[deps[i]] {
        depth := depths[deps[i]] + 1;
      }
    }
  }

  /** The depth that the loop body computes for one unit of the order. */
  method DepthOf(name: Name, units: Table, depths: map<Name, nat>, ghost order: seq<Name>) returns (depth: nat)
    requires name in Nodes(order, units) && depths.Keys <= Nodes(order, units)
    ensures OneAboveSuccessors(LayerGraph(order, units), depths, name, depth)
  {
    var deps := SortDeps(name, units[name], units);
    depth := DepthAbove(deps + units[name].requisite, depths);
    ghost var all := deps + units[name].requisite;
    forall d | d in depths ensures d in all <==> Edge(LayerGraph(order, units), name, d) {
      LayerEdge(order, units, name, d);
    }
  }

  /** A node whose successors are settled gets its final depth. */
  lemma DepthSettles(g: Graph, depths: map<Name, nat>, n: Name, depth: nat, k: nat)
    requires SelfContained(g) && n in g && depths.Keys <= g.Keys
    requires ChainsBounded(g, n, k) && SettledTo(g, depths, k - 1)
    requires OneAboveSuccessors(g, depths, n, depth)
    ensures LongestChain(g, n, depth)
  {
    forall d | Edge(g, n, d) ensures SettledAt(g, depths, d) {
      SuccessorChainsShorter(g, n, d, k);
    }
    if depth == 0 {
      LongestChainOfSink(g, n);
    } else {
      var best :| Edge(g, n, best) && best in depths && depths[best] == depth - 1;
      LongestChainFromSuccessors(g, n, best, depth - 1);
    }
  }

  /** One `for name in order` pass: nodes settle one chain length further, a pass without
      change proves the map stable, and a settled map is not changed. */
  method Pass(order: seq<Name>, units: Table, before: map<Name, nat>, ghost g: Graph, ghost k: nat)
    returns (depths: map<Name, nat>, changed: bool)
    requires g == LayerGraph(order, units) && SelfContained(g)
    requires before.Keys <= g.Keys && SettledTo(g, before, k - 1)
    ensures depths.Keys <= g.Keys && SettledTo(g, depths, k)
    ensures !changed ==> depths == before && Stable(g, depths)
    ensures AllSettled(g, before) ==> !changed
  {
    depths, changed := before, false;
    for i := 0 to |order|
      invariant PassedOver(g, order[..i], before, depths, changed, k)
    {
      var name := order[i];
      assert order[..i + 1] == order[..i] + [name];
      if name in units {
        var depth := DepthOf(name, units, depths, order);
        PassStep(g, order[..i], before, depths, changed, name, depth, k);
        if name !in depths || depths[name] != depth {
          depths := depths[name := depth];
          changed := true;
        } else {
          assert depths[name := depth] == depths;
        }
      }
    }
    assert order[..|order|] == order;
  }

  /** What a pass has done when it has gone over the names in `done`. */
  ghost predicate PassedOver(g: Graph, done: seq<Name>, before: map<Name, nat>, depths: map<Name, nat>,
                             changed: bool, k: nat) {
    && depths.Keys <= g.Keys && SettledTo(g, depths, k - 1)
    && (forall n :: n in done && n in g && ChainsBounded(g, n, k) ==> SettledAt(g, depths, n))
    && (!changed ==> depths == before)
    && (!changed ==> forall n :: n in done && n in g ==> n in depths && OneAboveSuccessors(g, depths, n, depths[n]))
    && (AllSettled(g, before) ==> !changed)
  }

  lemma PassStep(g: Graph, done: seq<Name>, before: map<Name, nat>, depths: map<Name, nat>, changed: bool,
                 name: Name, depth: nat, k: nat)
    requires SelfContained(g) && name in g && PassedOver(g, done, before, depths, changed, k)
    requires OneAboveSuccessors(g, depths, name, depth)
    ensures PassedOver(g, done + [name], before, depths[name := depth],
                       changed || name !in depths || depths[name] != depth, k)
  {
    StepSettles(g, depths, name, depth, k);
    assert name in depths && depths[name] == depth ==> depths[name := depth] == depths;
    assert forall n :: n in done + [name] <==> n in done || n == name;
  }

  /** Writing one computed depth keeps what is settled and settles `name` if it is due; where
      everything was settled already, it writes what was there. */
  lemma StepSettles(g: Graph, depths: map<Name, nat>, name: Name, depth: nat, k: nat)
    requires SelfContained(g) && name in g && depths.Keys <= g.Keys
    requires SettledTo(g, depths, k - 1)
    requires OneAboveSuccessors(g, depths, name, depth)
    ensures SettledTo(g, depths[name := depth], k - 1)
    ensures ChainsBounded(g, name, k) ==> SettledAt(g, depths[name := depth], name)
    ensures forall n :: ChainsBounded(g, n, k) && SettledAt(g, depths, n) ==> SettledAt(g, depths[name := depth], n)
    ensures AllSettled(g, depths) ==> name in depths && depths[name] == depth
  {
    if ChainsBounded(g, name, k) {
      DepthSettles(g, depths, name, depth, k);
    }
    forall n | n in g && ChainsBounded(g, n, k - 1) ensures SettledAt(g, depths[name := depth], n) {
      assert ChainsBounded(g, n, k);
    }
    if AllSettled(g, depths) {
      assert SettledAt(g, depths, name);
      DepthSettles(g, depths, name, depth, depths[name]);
      LongestChainUnique(g, name, depth, depths[name]);
    }
  }

  lemma LayerGraphSelfContained(order: seq<Name>, units: Table)
    ensures SelfContained(LayerGraph(order, units))
  {
  }

  /** A stable map holds chain lengths: every depth is reached by a chain... */
  lemma {:induction false} StableHasChain(g: Graph, depths: map<Name, nat>, n: Name)
    requires Stable(g, depths) && n in g
    ensures exists p :: ChainFrom(g, p, n, depths[n])
    decreases depths[n]
  {
    if depths[n] == 0 {
      assert ChainFrom(g, [n], n, 0);
    } else {
      var d :| Edge(g, n, d) && d in depths && depths[d] == depths[n] - 1;
      StableHasChain(g, depths, d);
      var p :| ChainFrom(g, p, d, depths[d]);
      var q := [n] + p;
      assert forall i :: 1 <= i < |q| ==> q[i] == p[i - 1];
      assert ChainFrom(g, q, n, depths[n]);
    }
  }

  /** ... and none exceeds it ... */
  lemma StableBoundsPath(g: Graph, depths: map<Name, nat>, p: seq<Name>)
    requires SelfContained(g) && Stable(g, depths) && Path(g, p) && p[0] in g
    ensures p[|p| - 1] in depths && |p| - 1 + depths[p[|p| - 1]] <= depths[p[0]]
  {
    var rank: map<Name, int> := map n | n in depths :: depths[n] as int;
    assert ClosedUnder(g, g.Keys);
    forall k: nat | k < |p| ensures p[k] in rank {
      ClosedContainsPath(g, g.Keys, p, k);
    }
    RankDropsAlongPath(g, rank, p, 0, |p| - 1);
  }

  /** ... so that there is no cycle. */
  lemma StableIsLongest(g: Graph, depths: map<Name, nat>)
    requires SelfContained(g) && Stable(g, depths)
    ensures Acyclic(g) && AllSettled(g, depths)
  {
    forall n | n in g ensures SettledAt(g, depths, n) {
      StableHasChain(g, depths, n);
      forall p | Path(g, p) && p[0] == n ensures |p| <= depths[n] + 1 {
        StableBoundsPath(g, depths, p);
      }
    }
    forall p, a | PathBetween(g, p, a, a) ensures |p| < 2 {
      if a in g {
        StableBoundsPath(g, depths, p);
      } else {
        assert |p| >= 2 ==> Edge(g, p[0], p[1]);
      }
    }
  }

  /** `compute_depths`, cut off after `passes` passes; `None` stands for still looping.
      The loop is left only on an acyclic graph, and then with the longest chain lengths;
      on an acyclic graph it is left after at most |order| + 1 passes, in whatever order the
      units stand. */
  method ComputeDepths(order: seq<Name>, units: Table, passes: nat) returns (r: Option<map<Name, nat>>)
    ensures r.Some? ==> Acyclic(LayerGraph(order, units))
    ensures r.Some? ==> r.value.Keys == Nodes(order, units)
                        && forall n :: n in r.value ==> LongestChain(LayerGraph(order, units), n, r.value[n])
    ensures Acyclic(LayerGraph(order, units)) && passes > |order| ==> r.Some?
  {
    ghost var g := LayerGraph(order, units);
    LayerGraphSelfContained(order, units);
    NodesFit(order, units);
    assert g.Keys == Nodes(order, units);
    var depths: map<Name, nat> := map[];
    NoChainIsEmpty(g, depths);
    var k := 0;
    while k < passes
      invariant k <= passes
      invariant depths.Keys <= g.Keys && SettledTo(g, depths, k - 1)
      invariant Acyclic(g) ==> k <= |order|
    {
      if Acyclic(g) && k == |order| {
        EverythingSettled(g, depths, k - 1);
      }
      var changed;
      depths, changed := Pass(order, units, depths, g, k);
      if !changed {
        StableIsLongest(g, depths);
        assert forall n :: n in depths ==> SettledAt(g, depths, n);
        return Some(depths);
      }
      k := k + 1;
    }
    r := None;
  }

  lemma NoChainIsEmpty(g: Graph, depths: map<Name, nat>)
    ensures SettledTo(g, depths, -1)
  {
    forall n | n in g ensures !ChainsBounded(g, n, -1) {
      assert Path(g, [n]) && [n][0] == n;
    }
  }

  lemma EverythingSettled(g: Graph, depths: map<Name, nat>, k: int)
    requires Acyclic(g) && SelfContained(g) && |g.Keys| - 1 <= k && SettledTo(g, depths, k)
    ensures AllSettled(g, depths)
  {
    forall n | n in g ensures ChainsBounded(g, n, k) {
      AcyclicChainsBounded(g, n);
    }
  }

  lemma {:induction false} NodesFit(order: seq<Name>, units: Table)
    ensures |Nodes(order, units)| <= |order|
  {
    if order == [] {
      assert Nodes(order, units) == {};
    } else {
      var rest := order[1..];
      NodesFit(rest, units);
      assert Nodes(order, units) <= Nodes(rest, units) + {order[0]};
      SubsetSize(Nodes(order, units), Nodes(rest, units) + {order[0]});
    }
  }

  // ----- Requisite= and the start order

  /** Two services that are each other's Requisite, both wanted by the root target. */
  function MutualRequisites(): Table {
    map["root" := Unit(true, [], [], ["a", "b"], [], [], [], [], [], PLAIN_SERVICE),
        "a" := Unit(false, [], [], [], ["b"], [], [], [], [], PLAIN_SERVICE),
        "b" := Unit(false, [], [], [], ["a"], [], [], [], [], PLAIN_SERVICE)]
  }

  lemma MutualEdges(n: Name, d: Name)
    ensures Edge(SortGraph(MutualRequisites()), n, d) <==> n == "root" && (d == "a" || d == "b")
  {
    SortEdge(MutualRequisites(), n, d);
  }

  /** The start order does not look at `Requisite=`, the layers do: this table is accepted by
      `compute_start_order`, and then `compute_depths` never returns. */
  lemma AcceptedOrderMayLoop()
    ensures !CyclicFrom(SortGraph(MutualRequisites()), "root")
    ensures forall order :: StartOrder(SortGraph(MutualRequisites()), "root", order)
              ==> !Acyclic(LayerGraph(order, MutualRequisites()))
  {
    var units := MutualRequisites();
    var g := SortGraph(units);
    forall a, p | PathBetween(g, p, a, a) ensures |p| < 2 {
      if |p| >= 2 {
        assert Edge(g, p[0], p[1]);
        MutualEdges(p[0], p[1]);
        if |p| > 2 {
          assert Edge(g, p[1], p[2]);
          MutualEdges(p[1], p[2]);
        }
        assert false;
      }
    }
    forall order | StartOrder(g, "root", order) ensures !Acyclic(LayerGraph(order, units)) {
      MutualEdges("root", "a");
      MutualEdges("root", "b");
      EdgeReaches(g, "root", "a");
      EdgeReaches(g, "root", "b");
      MutualCycle(order);
    }
  }

  lemma MutualCycle(order: seq<Name>)
    requires "a" in order && "b" in order
    ensures !Acyclic(LayerGraph(order, MutualRequisites()))
  {
    var g := LayerGraph(order, MutualRequisites());
    LayerEdge(order, MutualRequisites(), "a", "b");
    LayerEdge(order, MutualRequisites(), "b", "a");
    assert PathBetween(g, ["a", "b", "a"], "a", "a");
    assert OnCycle(g, "a");
  }

  /** It does return when every Requisite that is in the order stands before the unit naming it. */
  lemma EarlierRequisitesTerminate(units: Table, root: Name, order: seq<Name>)
    requires StartOrder(SortGraph(units), root, order)
    requires forall j, d :: 0 <= j < |order| && order[j] in units && d in order && d in units[order[j]].requisite
               ==> d in order[..j]
    ensures Acyclic(LayerGraph(order, units))
  {
    var g := LayerGraph(order, units);
    assert SuccessorsFirst(g, order) by {
      forall j, d | 0 <= j < |order| && d in g && Edge(g, order[j], d) ensures d in order[..j] {
        LayerEdge(order, units, order[j], d);
        SortEdge(units, order[j], d);
      }
    }
    forall p, a | PathBetween(g, p, a, a) ensures |p| < 2 {
      if |p| >= 2 {
        assert Edge(g, p[0], p[1]);
        ListedNotOnCycle(g, order, a, p);
      }
    }
  }
}
