/** Finite directed graphs over names: paths, reachability, cycles and chain lengths.
    A node is a key of the map; an edge may lead to a name that is not a node. */
module Graphs {
  import opened Prelude

  type Name = string

  type Graph = map<Name, set<Name>>

  ghost predicate Edge(g: Graph, a: Name, b: Name) {
    a in g && b in g[a]
  }

  ghost predicate Path(g: Graph, p: seq<Name>) {
    && |p| > 0
    && forall i :: 0 <= i < |p| - 1 ==> Edge(g, p[i], p[i + 1])
  }

  ghost predicate PathBetween(g: Graph, p: seq<Name>, a: Name, b: Name) {
    Path(g, p) && p[0] == a && p[|p| - 1] == b
  }

  ghost predicate Reaches(g: Graph, a: Name, b: Name) {
    exists p :: PathBetween(g, p, a, b)
  }

  ghost predicate OnCycle(g: Graph, a: Name) {
    exists p :: PathBetween(g, p, a, a) && |p| >= 2
  }

  ghost predicate Acyclic(g: Graph) {
    forall a :: !OnCycle(g, a)
  }

  ghost predicate CyclicFrom(g: Graph, root: Name) {
    exists a :: Reaches(g, root, a) && OnCycle(g, a)
  }

  ghost predicate ClosedUnder(g: Graph, s: set<Name>) {
    forall a, b :: a in s && Edge(g, a, b) ==> b in s
  }

  /** A chain of `h` edges starts at `n`, and no longer one does. */
  ghost predicate LongestChain(g: Graph, n: Name, h: nat) {
    && (exists p :: ChainFrom(g, p, n, h))
    && ChainsBounded(g, n, h)
  }

  ghost predicate ChainFrom(g: Graph, p: seq<Name>, n: Name, h: nat) {
    Path(g, p) && p[0] == n && |p| == h + 1
  }

  ghost predicate ChainsBounded(g: Graph, n: Name, h: int) {
    forall p :: Path(g, p) && p[0] == n ==> |p| <= h + 1
  }

  // ----- paths

  lemma ReachesSelf(g: Graph, a: Name)
    ensures Reaches(g, a, a)
  {
    assert PathBetween(g, [a], a, a);
  }

  lemma EdgeExtends(g: Graph, a: Name, b: Name, c: Name)
    requires Reaches(g, a, b) && Edge(g, b, c)
    ensures Reaches(g, a, c)
  {
    var p :| PathBetween(g, p, a, b);
    assert PathBetween(g, p + [c], a, c);
  }

  lemma EdgeReaches(g: Graph, a: Name, b: Name)
    requires Edge(g, a, b)
    ensures Reaches(g, a, b)
  {
    assert PathBetween(g, [a, b], a, b);
  }

  /** A closed set containing the start of a path contains all of it. */
  lemma {:induction false} ClosedContainsPath(g: Graph, s: set<Name>, p: seq<Name>, i: nat)
    requires ClosedUnder(g, s) && Path(g, p) && p[0] in s && i < |p|
    ensures p[i] in s
  {
    if i > 0 {
      ClosedContainsPath(g, s, p, i - 1);
      assert Edge(g, p[i - 1], p[i]);
    }
  }

  lemma ClosedContainsReachable(g: Graph, s: set<Name>, a: Name, b: Name)
    requires ClosedUnder(g, s) && a in s && Reaches(g, a, b)
    ensures b in s
  {
    var p :| PathBetween(g, p, a, b);
    ClosedContainsPath(g, s, p, |p| - 1);
  }

  // ----- cycles and chain lengths

  /** A rank that drops along every edge leaves no room for a cycle. */
  lemma {:induction false} RankDropsAlongPath(g: Graph, rank: map<Name, int>, p: seq<Name>, i: nat, j: nat)
    requires Path(g, p) && i <= j < |p|
    requires forall k :: 0 <= k < |p| ==> p[k] in rank
    requires forall a, b :: Edge(g, a, b) && a in rank && b in rank ==> rank[b] < rank[a]
    ensures rank[p[j]] <= rank[p[i]] - (j - i)
    decreases j
  {
    if i < j {
      RankDropsAlongPath(g, rank, p, i, j - 1);
      assert Edge(g, p[j - 1], p[j]);
    }
  }

  /** In a graph without cycles a path never meets a name twice. */
  lemma AcyclicPathIsSimple(g: Graph, p: seq<Name>)
    requires Acyclic(g) && Path(g, p)
    ensures NoDuplicates(p)
  {
    forall i, j | 0 <= i < j < |p| ensures p[i] != p[j] {
      if p[i] == p[j] {
        var c := p[i..j + 1];
        assert forall k :: 0 <= k < |c| ==> c[k] == p[i + k];
        assert PathBetween(g, c, p[i], p[i]);
        assert OnCycle(g, p[i]);
      }
    }
  }

  lemma {:induction false} SimpleSequenceFits(p: seq<Name>, s: set<Name>)
    requires NoDuplicates(p) && forall i :: 0 <= i < |p| ==> p[i] in s
    ensures |p| <= |s|
  {
    if p != [] {
      var last := p[|p| - 1];
      SimpleSequenceFits(p[..|p| - 1], s - {last});
    }
  }

  /** Every edge ends at a node. */
  ghost predicate SelfContained(g: Graph) {
    forall a, b :: Edge(g, a, b) ==> b in g
  }

  /** Chains of an acyclic graph have fewer edges than the graph has nodes. */
  lemma AcyclicChainsBounded(g: Graph, n: Name)
    requires Acyclic(g) && SelfContained(g) && n in g
    ensures ChainsBounded(g, n, |g.Keys| - 1)
  {
    forall p | Path(g, p) && p[0] == n ensures |p| <= |g.Keys| {
      AcyclicPathIsSimple(g, p);
      assert ClosedUnder(g, g.Keys);
      forall i | 0 <= i < |p| ensures p[i] in g.Keys {
        ClosedContainsPath(g, g.Keys, p, i);
      }
      SimpleSequenceFits(p, g.Keys);
    }
  }

  lemma LongestChainUnique(g: Graph, n: Name, h: nat, k: nat)
    requires LongestChain(g, n, h) && LongestChain(g, n, k)
    ensures h == k
  {
    var p :| ChainFrom(g, p, n, h);
    var q :| ChainFrom(g, q, n, k);
  }

  lemma SuccessorChainsShorter(g: Graph, a: Name, b: Name, h: int)
    requires ChainsBounded(g, a, h) && Edge(g, a, b)
    ensures ChainsBounded(g, b, h - 1)
  {
    forall p | Path(g, p) && p[0] == b ensures |p| <= h {
      var q := [a] + p;
      assert forall i :: 1 <= i < |q| ==> q[i] == p[i - 1];
      assert Path(g, q);
    }
  }

  /** The longest chain from `n` is one edge more than the longest from a successor. */
  lemma LongestChainFromSuccessors(g: Graph, n: Name, best: Name, h: nat)
    requires Edge(g, n, best) && LongestChain(g, best, h)
    requires forall d :: Edge(g, n, d) ==> ChainsBounded(g, d, h)
    ensures LongestChain(g, n, h + 1)
  {
    var p :| ChainFrom(g, p, best, h);
    var q := [n] + p;
    assert forall i :: 1 <= i < |q| ==> q[i] == p[i - 1];
    assert ChainFrom(g, q, n, h + 1);
    forall r | Path(g, r) && r[0] == n ensures |r| <= h + 2 {
      if |r| > 1 {
        assert Edge(g, r[0], r[1]);
        assert forall i :: 0 <= i < |r| - 1 ==> r[1..][i] == r[i + 1];
        assert Path(g, r[1..]);
      }
    }
  }

  lemma LongestChainOfSink(g: Graph, n: Name)
    requires forall d :: !Edge(g, n, d)
    ensures LongestChain(g, n, 0)
  {
    assert ChainFrom(g, [n], n, 0);
    forall p | Path(g, p) && |p| > 1 ensures p[0] != n {
      assert Edge(g, p[0], p[1]);
    }
  }
}
