/** The process tree: a virtual root over all processes without a listed parent, children in order
    of their pids, and its rendering (src/applets/sys/processes.rs). */
module ProcessTree {
  import opened Prelude

  /** A process; `info` is all that is only displayed. */
  datatype Proc = Proc(pid: nat, ppid: nat, info: string)

  datatype ProcTree = ProcTree(pid: nat, ppid: nat, info: string, children: seq<ProcTree>)

  // ----- the list of processes

  predicate Listed(procs: seq<Proc>, pid: nat) {
    exists p :: p in procs && p.pid == pid
  }

  /** Pids as the kernel gives them: distinct and not zero. */
  predicate Sound(procs: seq<Proc>) {
    && (forall p :: p in procs ==> p.pid != 0)
    && (forall i, j :: 0 <= i < j < |procs| ==> procs[i].pid != procs[j].pid)
  }

  predicate IsRoot(procs: seq<Proc>, p: Proc) {
    p.ppid == 0 || !Listed(procs, p.ppid)
  }

  function Filter(procs: seq<Proc>, keep: Proc -> bool): (kept: seq<Proc>)
    ensures forall p :: p in kept <==> p in procs && keep(p)
  {
    if procs == [] then []
    else
      assert procs == [procs[0]] + procs[1..];
      if keep(procs[0]) then [procs[0]] + Filter(procs[1..], keep) else Filter(procs[1..], keep)
  }

  predicate Ascending(s: seq<Proc>) {
    forall i, j :: 0 <= i < j < |s| ==> s[i].pid <= s[j].pid
  }

  function Insert(p: Proc, s: seq<Proc>): (t: seq<Proc>)
    ensures forall q :: q in t <==> q == p || q in s
    ensures Ascending(s) ==> Ascending(t)
  {
    if s == [] || p.pid <= s[0].pid then [p] + s
    else
      assert s == [s[0]] + s[1..];
      var rest := Insert(p, s[1..]);
      assert Ascending(s) ==> forall q :: q in rest ==> s[0].pid <= q.pid;
      [s[0]] + rest
  }

  function SortByPid(s: seq<Proc>): (t: seq<Proc>)
    ensures Ascending(t) && forall q :: q in t <==> q in s
  {
    if s == [] then []
    else
      assert s == [s[0]] + s[1..];
      Insert(s[0], SortByPid(s[1..]))
  }

  lemma {:induction false} InsertPermutes(p: Proc, s: seq<Proc>)
    ensures multiset(Insert(p, s)) == multiset{p} + multiset(s)
    decreases |s|
  {
    if s != [] && p.pid > s[0].pid {
      InsertPermutes(p, s[1..]);
      assert s == [s[0]] + s[1..];
    }
  }

  lemma FirstCounted(s: seq<Proc>)
    requires s != []
    ensures multiset(s) == multiset{s[0]} + multiset(s[1..])
  {
    assert s == [s[0]] + s[1..];
  }

  /** Sorting keeps every process as often as it was there. */
  lemma {:induction false} SortPermutes(s: seq<Proc>)
    ensures multiset(SortByPid(s)) == multiset(s)
    decreases |s|
  {
    if s != [] {
      var first, rest := s[0], s[1..];
      SortPermutes(rest);
      InsertPermutes(first, SortByPid(rest));
      FirstCounted(s);
    }
  }

  function Roots(procs: seq<Proc>): (rs: seq<Proc>)
    ensures forall p :: p in rs <==> p in procs && IsRoot(procs, p)
  {
    var kept := Filter(procs, (p: Proc) => IsRoot(procs, p));
    SortByPid(kept)
  }

  function ChildrenOf(procs: seq<Proc>, pid: nat): (cs: seq<Proc>)
    ensures forall p :: p in cs <==> p in procs && p.ppid == pid
  {
    var kept := Filter(procs, (p: Proc) => p.ppid == pid);
    SortByPid(kept)
  }

  // ----- chains of parents

  /** From a root down, each the parent of the next. */
  predicate Chain(procs: seq<Proc>, path: seq<Proc>) {
    && path != [] && IsRoot(procs, path[0])
    && (forall i :: 0 <= i < |path| ==> path[i] in procs)
    && (forall i :: 0 < i < |path| ==> path[i].ppid == path[i - 1].pid)
  }

  function Last(path: seq<Proc>): Proc
    requires path != []
  {
    path[|path| - 1]
  }

  lemma SamePid(procs: seq<Proc>, p: Proc, q: Proc)
    requires Sound(procs) && p in procs && q in procs && p.pid == q.pid
    ensures p == q
  {
  }

  /** A process is at the end of at most one chain. */
  lemma {:induction false} ChainIsUnique(procs: seq<Proc>, a: seq<Proc>, b: seq<Proc>)
    requires Sound(procs) && Chain(procs, a) && Chain(procs, b) && Last(a).pid == Last(b).pid
    ensures a == b
    decreases |a|
  {
    SamePid(procs, Last(a), Last(b));
    if |a| > 1 && |b| > 1 {
      ChainIsUnique(procs, a[..|a| - 1], b[..|b| - 1]);
      assert a == a[..|a| - 1] + [Last(a)] && b == b[..|b| - 1] + [Last(b)];
    } else if |a| > 1 {
      assert Listed(procs, a[|a| - 2].pid);
      assert false;
    } else if |b| > 1 {
      assert Listed(procs, b[|b| - 2].pid);
      assert false;
    }
  }

  lemma ChainPrefix(procs: seq<Proc>, path: seq<Proc>, n: nat)
    requires Chain(procs, path) && 0 < n <= |path|
    ensures Chain(procs, path[..n])
  {
  }

  predicate Distinct(path: seq<Proc>) {
    forall i, j :: 0 <= i < j < |path| ==> path[i].pid != path[j].pid
  }

  lemma ChainDistinct(procs: seq<Proc>, path: seq<Proc>)
    requires Sound(procs) && Chain(procs, path)
    ensures Distinct(path)
  {
    forall i, j | 0 <= i < j < |path| ensures path[i].pid != path[j].pid {
      if path[i].pid == path[j].pid {
        ChainPrefix(procs, path, i + 1);
        ChainPrefix(procs, path, j + 1);
        assert |path[..i + 1]| < |path[..j + 1]|;
        ChainIsUnique(procs, path[..i + 1], path[..j + 1]);
      }
    }
  }

  lemma {:induction false} DistinctIsShort(procs: seq<Proc>, path: seq<Proc>)
    requires Distinct(path) && forall i :: 0 <= i < |path| ==> path[i] in procs
    ensures |path| <= |procs|
    decreases |path|
  {
    if path != [] {
      var p := path[0];
      var k :| 0 <= k < |procs| && procs[k] == p;
      var rest := procs[..k] + procs[k + 1..];
      forall i | 0 <= i < |path[1..]| ensures path[1..][i] in rest {
        var m :| 0 <= m < |procs| && procs[m] == path[i + 1];
        assert m != k;
        assert rest[if m < k then m else m - 1] == path[i + 1];
      }
      DistinctIsShort(rest, path[1..]);
    }
  }

  lemma ChainIsShort(procs: seq<Proc>, path: seq<Proc>)
    requires Sound(procs) && Chain(procs, path)
    ensures |path| <= |procs|
  {
    ChainDistinct(procs, path);
    DistinctIsShort(procs, path);
  }

  // ----- building the tree

  /** The processes `cs` may hang below the chain `path`; below none if they are roots. */
  predicate Below(procs: seq<Proc>, path: seq<Proc>, cs: seq<Proc>) {
    forall c :: c in cs ==> Chain(procs, path + [c])
  }

  lemma ChildrenBelow(procs: seq<Proc>, path: seq<Proc>)
    requires Chain(procs, path)
    ensures Below(procs, path, ChildrenOf(procs, Last(path).pid))
  {
  }

  lemma RootsBelow(procs: seq<Proc>)
    ensures Below(procs, [], Roots(procs))
  {
    forall c | c in Roots(procs) ensures Chain(procs, [] + [c]) {
      assert [] + [c] == [c];
    }
  }

  /** The subtree of the process at the end of a chain. The recursion ends because no chain is
      longer than the list. */
  function BuildNode(procs: seq<Proc>, p: Proc, ghost path: seq<Proc>): ProcTree
    requires Sound(procs) && Chain(procs, path) && Last(path) == p
    decreases |procs| - |path|, 1, 0
  {
    ChainIsShort(procs, path);
    ChildrenBelow(procs, path);
    ProcTree(p.pid, p.ppid, p.info, BuildAll(procs, ChildrenOf(procs, p.pid), path))
  }

  function BuildAll(procs: seq<Proc>, cs: seq<Proc>, ghost path: seq<Proc>): seq<ProcTree>
    requires Sound(procs) && Below(procs, path, cs)
    decreases |procs| - |path|, 0, |cs|
  {
    if cs == [] then []
    else
      ChainIsShort(procs, path + [cs[0]]);
      [BuildNode(procs, cs[0], path + [cs[0]])] + BuildAll(procs, cs[1..], path)
  }

  function BuildProcessTree(procs: seq<Proc>): ProcTree
    requires Sound(procs)
  {
    RootsBelow(procs);
    ProcTree(0, 0, "system", BuildAll(procs, Roots(procs), []))
  }

  // ----- the nodes of the tree

  /** The subtrees of a tree in the order of rendering, the tree itself first. */
  function Nodes(t: ProcTree): seq<ProcTree> {
    [t] + NodesOf(t.children)
  }

  function NodesOf(ts: seq<ProcTree>): seq<ProcTree> {
    if ts == [] then [] else Nodes(ts[0]) + NodesOf(ts[1..])
  }

  function Pids(ts: seq<ProcTree>): (pids: seq<nat>)
    ensures |pids| == |ts|
  {
    seq(|ts|, k requires 0 <= k < |ts| => ts[k].pid)
  }

  /** The process `pid` is at the end of a chain that starts with `path`. */
  ghost predicate Through(procs: seq<Proc>, path: seq<Proc>, pid: nat) {
    exists full :: Chain(procs, full) && path <= full && Last(full).pid == pid
  }

  ghost predicate ThroughAny(procs: seq<Proc>, path: seq<Proc>, cs: seq<Proc>, pid: nat) {
    exists c :: c in cs && Through(procs, path + [c], pid)
  }

  /** A chain through a process ends there or goes on through one of its children. */
  lemma ThroughSplits(procs: seq<Proc>, path: seq<Proc>, pid: nat)
    requires Chain(procs, path)
    ensures Through(procs, path, pid)
            <==> pid == Last(path).pid || ThroughAny(procs, path, ChildrenOf(procs, Last(path).pid), pid)
  {
    var cs := ChildrenOf(procs, Last(path).pid);
    if Through(procs, path, pid) {
      var full :| Chain(procs, full) && path <= full && Last(full).pid == pid;
      if |full| > |path| {
        var c := full[|path|];
        assert full[|path| - 1] == Last(path);
        assert path + [c] <= full;
        assert c in cs && Through(procs, path + [c], pid);
      } else {
        assert full == path;
      }
    }
    if pid == Last(path).pid {
      assert path <= path;
    }
    if ThroughAny(procs, path, cs, pid) {
      var c :| c in cs && Through(procs, path + [c], pid);
      var full :| Chain(procs, full) && path + [c] <= full && Last(full).pid == pid;
      assert path <= path + [c];
    }
  }

  lemma {:induction false} NodeMembers(procs: seq<Proc>, p: Proc, path: seq<Proc>, pid: nat)
    requires Sound(procs) && Chain(procs, path) && Last(path) == p
    ensures pid in Pids(Nodes(BuildNode(procs, p, path))) <==> Through(procs, path, pid)
    decreases |procs| - |path|, 1, 0
  {
    ChainIsShort(procs, path);
    ChildrenBelow(procs, path);
    var cs := ChildrenOf(procs, p.pid);
    var ts := BuildAll(procs, cs, path);
    NodeMembersOf(procs, cs, path, pid);
    ThroughSplits(procs, path, pid);
    PidsConcat([BuildNode(procs, p, path)], NodesOf(ts));
    assert Pids([BuildNode(procs, p, path)]) == [p.pid];
  }

  lemma {:induction false} NodeMembersOf(procs: seq<Proc>, cs: seq<Proc>, path: seq<Proc>, pid: nat)
    requires Sound(procs) && Below(procs, path, cs)
    ensures pid in Pids(NodesOf(BuildAll(procs, cs, path))) <==> ThroughAny(procs, path, cs, pid)
    decreases |procs| - |path|, 0, |cs|
  {
    if cs != [] {
      var c := cs[0];
      ChainIsShort(procs, path + [c]);
      NodeMembers(procs, c, path + [c], pid);
      NodeMembersOf(procs, cs[1..], path, pid);
      PidsConcat(Nodes(BuildNode(procs, c, path + [c])), NodesOf(BuildAll(procs, cs[1..], path)));
      assert forall d :: d in cs <==> d == c || d in cs[1..];
    }
  }

  lemma PidsConcat(a: seq<ProcTree>, b: seq<ProcTree>)
    ensures Pids(a + b) == Pids(a) + Pids(b)
  {
  }

  // ----- every process once

  lemma {:induction false} FilterDistinct(procs: seq<Proc>, keep: Proc -> bool)
    requires Distinct(procs)
    ensures Distinct(Filter(procs, keep))
    decreases |procs|
  {
    if procs != [] {
      FilterDistinct(procs[1..], keep);
      var rest := Filter(procs[1..], keep);
      forall j | 0 <= j < |rest| ensures rest[j].pid != procs[0].pid {
        assert rest[j] in procs[1..];
        var k :| 0 <= k < |procs[1..]| && procs[1..][k] == rest[j];
        assert procs[k + 1] == rest[j];
      }
    }
  }

  lemma InsertDistinct(p: Proc, s: seq<Proc>)
    requires Distinct(s) && forall q :: q in s ==> q.pid != p.pid
    ensures Distinct(Insert(p, s))
    decreases |s|
  {
    if s != [] && p.pid > s[0].pid {
      var rest := Insert(p, s[1..]);
      InsertDistinct(p, s[1..]);
      forall j | 0 <= j < |rest| ensures rest[j].pid != s[0].pid {
        assert rest[j] in rest;
      }
    } else {
      assert forall j :: 0 <= j < |s| ==> s[j] in s;
    }
  }

  lemma {:induction false} SortDistinct(s: seq<Proc>)
    requires Distinct(s)
    ensures Distinct(SortByPid(s))
    decreases |s|
  {
    if s != [] {
      SortDistinct(s[1..]);
      forall q | q in SortByPid(s[1..]) ensures q.pid != s[0].pid {
        assert q in s[1..];
      }
      InsertDistinct(s[0], SortByPid(s[1..]));
    }
  }

  lemma ListsDistinct(procs: seq<Proc>, pid: nat)
    requires Sound(procs)
    ensures Distinct(Roots(procs)) && Distinct(ChildrenOf(procs, pid))
  {
    FilterDistinct(procs, (p: Proc) => IsRoot(procs, p));
    SortDistinct(Filter(procs, (p: Proc) => IsRoot(procs, p)));
    FilterDistinct(procs, (p: Proc) => p.ppid == pid);
    SortDistinct(Filter(procs, (p: Proc) => p.ppid == pid));
  }

  /** Chains through different processes of one level end differently. */
  lemma LevelsApart(procs: seq<Proc>, path: seq<Proc>, c: Proc, d: Proc, pid: nat)
    requires Sound(procs) && Through(procs, path + [c], pid) && Through(procs, path + [d], pid)
    ensures c == d
  {
    var a :| Chain(procs, a) && path + [c] <= a && Last(a).pid == pid;
    var b :| Chain(procs, b) && path + [d] <= b && Last(b).pid == pid;
    ChainIsUnique(procs, a, b);
    assert a[|path|] == c && a[|path|] == d;
  }

  lemma {:induction false} NodeOnce(procs: seq<Proc>, p: Proc, path: seq<Proc>)
    requires Sound(procs) && Chain(procs, path) && Last(path) == p
    ensures NoDuplicates(Pids(Nodes(BuildNode(procs, p, path))))
    decreases |procs| - |path|, 1, 0
  {
    ChainIsShort(procs, path);
    ChildrenBelow(procs, path);
    var cs := ChildrenOf(procs, p.pid);
    var node, below := BuildNode(procs, p, path), NodesOf(BuildAll(procs, cs, path));
    ListsDistinct(procs, p.pid);
    NodesOnce(procs, cs, path);
    if p.pid in Pids(below) {
      NodeMembersOf(procs, cs, path, p.pid);
      NotBelowItself(procs, path);
      assert false;
    }
    PidsConcat([node], below);
    NoDuplicatesConcat(Pids([node]), Pids(below));
  }

  lemma NotBelowItself(procs: seq<Proc>, path: seq<Proc>)
    requires Sound(procs) && Chain(procs, path)
    ensures !ThroughAny(procs, path, ChildrenOf(procs, Last(path).pid), Last(path).pid)
  {
    forall c, full | Chain(procs, full) && path + [c] <= full ensures Last(full).pid != Last(path).pid {
      if Last(full).pid == Last(path).pid {
        assert |full| > |path|;
        ChainIsUnique(procs, full, path);
      }
    }
  }

  lemma FirstApart(procs: seq<Proc>, cs: seq<Proc>, path: seq<Proc>, pid: nat)
    requires Sound(procs) && Below(procs, path, cs) && Distinct(cs) && cs != [] && |path| < |procs|
    requires pid in Pids(Nodes(BuildNode(procs, cs[0], path + [cs[0]])))
    ensures pid !in Pids(NodesOf(BuildAll(procs, cs[1..], path)))
  {
    var c := cs[0];
    NodeMembers(procs, c, path + [c], pid);
    NodeMembersOf(procs, cs[1..], path, pid);
    if pid in Pids(NodesOf(BuildAll(procs, cs[1..], path))) {
      var d :| d in cs[1..] && Through(procs, path + [d], pid);
      LevelsApart(procs, path, c, d, pid);
      assert false;
    }
  }

  lemma {:induction false} NodesOnce(procs: seq<Proc>, cs: seq<Proc>, path: seq<Proc>)
    requires Sound(procs) && Below(procs, path, cs) && Distinct(cs)
    ensures NoDuplicates(Pids(NodesOf(BuildAll(procs, cs, path))))
    decreases |procs| - |path|, 0, |cs|
  {
    if cs != [] {
      var c := cs[0];
      ChainIsShort(procs, path + [c]);
      NodeOnce(procs, c, path + [c]);
      NodesOnce(procs, cs[1..], path);
      var first, rest := Nodes(BuildNode(procs, c, path + [c])), NodesOf(BuildAll(procs, cs[1..], path));
      forall pid | pid in Pids(first) ensures pid !in Pids(rest) {
        FirstApart(procs, cs, path, pid);
      }
      PidsConcat(first, rest);
      NoDuplicatesConcat(Pids(first), Pids(rest));
    }
  }

  // ----- the main results

  /** The chain of parents of a process ends at 0 or at an unlisted pid. */
  ghost predicate Rooted(procs: seq<Proc>, pid: nat) {
    exists path :: Chain(procs, path) && Last(path).pid == pid
  }

  /** Below the virtual root stand exactly the rooted processes, each once. */
  lemma TreeIsForest(procs: seq<Proc>)
    requires Sound(procs)
    ensures var shown := Pids(NodesOf(BuildProcessTree(procs).children));
            NoDuplicates(shown) && forall pid :: pid in shown <==> Rooted(procs, pid)
  {
    var roots := Roots(procs);
    RootsBelow(procs);
    ListsDistinct(procs, 0);
    NodesOnce(procs, roots, []);
    forall pid ensures ThroughAny(procs, [], roots, pid) <==> Rooted(procs, pid) {
      RootedFromRoot(procs, pid);
    }
    forall pid ensures pid in Pids(NodesOf(BuildAll(procs, roots, []))) <==> Rooted(procs, pid) {
      NodeMembersOf(procs, roots, [], pid);
    }
  }

  lemma RootedFromRoot(procs: seq<Proc>, pid: nat)
    ensures ThroughAny(procs, [], Roots(procs), pid) <==> Rooted(procs, pid)
  {
    if Rooted(procs, pid) {
      var path :| Chain(procs, path) && Last(path).pid == pid;
      assert [] + [path[0]] <= path;
      assert Through(procs, [] + [path[0]], pid);
      assert path[0] in Roots(procs);
    }
  }

  /** Processes that are each other's ancestors. */
  ghost predicate ParentCycle(procs: seq<Proc>, cycle: seq<Proc>) {
    && cycle != [] && (forall i :: 0 <= i < |cycle| ==> cycle[i] in procs)
    && (forall i :: 0 < i < |cycle| ==> cycle[i].ppid == cycle[i - 1].pid)
    && cycle[0].ppid == Last(cycle).pid
  }

  /** From a process upwards: without a cycle a root is found. */
  lemma {:induction false} ClimbsToRoot(procs: seq<Proc>, path: seq<Proc>)
    requires Sound(procs) && path != [] && Distinct(path)
    requires forall i :: 0 <= i < |path| ==> path[i] in procs
    requires forall i :: 0 < i < |path| ==> path[i].ppid == path[i - 1].pid
    requires forall cycle :: !ParentCycle(procs, cycle)
    ensures Rooted(procs, Last(path).pid)
    decreases |procs| - |path|
  {
    if IsRoot(procs, path[0]) {
      assert Chain(procs, path);
    } else {
      var q :| q in procs && q.pid == path[0].ppid;
      forall k | 0 <= k < |path| ensures path[k].pid != q.pid {
        assert path[k].pid == q.pid ==> ParentCycle(procs, path[..k + 1]);
      }
      DistinctIsShort(procs, [q] + path);
      ClimbsToRoot(procs, [q] + path);
    }
  }

  /** Without a cycle of parents every process is shown. */
  lemma AllShown(procs: seq<Proc>, p: Proc)
    requires Sound(procs) && p in procs && forall cycle :: !ParentCycle(procs, cycle)
    ensures p.pid in Pids(NodesOf(BuildProcessTree(procs).children))
  {
    ClimbsToRoot(procs, [p]);
    TreeIsForest(procs);
  }

  // ----- rendering

  function Connector(last: bool): string {
    if last then "└── " else "├── "
  }

  function Indent(last: bool): string {
    if last then "    " else "│   "
  }

  /** The lines for some children that are the last of their parent's. */
  function LinesFor(ts: seq<ProcTree>, prefix: string, fields: ProcTree -> string): seq<string>
    decreases ts
  {
    if ts == [] then []
    else
      var last := |ts| == 1;
      [prefix + Connector(last) + fields(ts[0])]
      + LinesFor(ts[0].children, prefix + Indent(last), fields) + LinesFor(ts[1..], prefix, fields)
  }

  class Output {
    var lines: seq<string>

    constructor ()
      ensures lines == []
    {
      lines := [];
    }

    /** `render_children` appends to the shared output. */
    method RenderChildren(node: ProcTree, prefix: string, fields: ProcTree -> string)
      modifies this
      ensures lines == old(lines) + LinesFor(node.children, prefix, fields)
      decreases node
    {
      var n := |node.children|;
      var i := 0;
      while i < n
        invariant i <= n
        invariant lines + LinesFor(node.children[i..], prefix, fields)
               == old(lines) + LinesFor(node.children, prefix, fields)
      {
        var child, last := node.children[i], i == n - 1;
        assert node.children[i..][1..] == node.children[i + 1..] && node.children[i..][0] == child;
        ghost var before := lines;
        lines := lines + [prefix + Connector(last) + fields(child)];
        RenderChildren(child, prefix + Indent(last), fields);
        RenderStep(before, node.children[i..], prefix, fields);
        i := i + 1;
      }
    }

    method RenderProcessTree(root: ProcTree, fields: ProcTree -> string)
      modifies this
      ensures lines == [root.info] + LinesFor(root.children, "", fields)
    {
      lines := [root.info];
      RenderChildren(root, "", fields);
    }
  }

  lemma RenderStep(before: seq<string>, ts: seq<ProcTree>, prefix: string, fields: ProcTree -> string)
    requires ts != []
    ensures var last := |ts| == 1;
            before + LinesFor(ts, prefix, fields)
            == before + [prefix + Connector(last) + fields(ts[0])]
               + LinesFor(ts[0].children, prefix + Indent(last), fields) + LinesFor(ts[1..], prefix, fields)
  {
  }

  predicate EndsWith(line: string, end: string) {
    |line| >= |end| && line[|line| - |end|..] == end
  }

  /** One line for every node, in order, ending in the fields of that node. */
  lemma {:induction false} OneLineEach(ts: seq<ProcTree>, prefix: string, fields: ProcTree -> string)
    ensures |LinesFor(ts, prefix, fields)| == |NodesOf(ts)|
    ensures forall k :: 0 <= k < |NodesOf(ts)| ==> EndsWith(LinesFor(ts, prefix, fields)[k], fields(NodesOf(ts)[k]))
    decreases ts
  {
    if ts != [] {
      var last := |ts| == 1;
      OneLineEach(ts[0].children, prefix + Indent(last), fields);
      OneLineEach(ts[1..], prefix, fields);
      var below, rest := NodesOf(ts[0].children), NodesOf(ts[1..]);
      assert NodesOf(ts) == [ts[0]] + below + rest;
    }
  }

  // ----- the order of siblings

  /** At every node the children stand in strictly ascending order of their pids. */
  predicate Ordered(t: ProcTree) {
    AllOrdered(t.children)
  }

  predicate AllOrdered(ts: seq<ProcTree>) {
    (forall i, j :: 0 <= i < j < |ts| ==> ts[i].pid < ts[j].pid) && forall t :: t in ts ==> Ordered(t)
  }

  predicate Strict(s: seq<Proc>) {
    forall i, j :: 0 <= i < j < |s| ==> s[i].pid < s[j].pid
  }

  lemma ListsAscend(procs: seq<Proc>, pid: nat)
    requires Sound(procs)
    ensures Strict(Roots(procs)) && Strict(ChildrenOf(procs, pid))
  {
    ListsDistinct(procs, pid);
    var rs, cs := Roots(procs), ChildrenOf(procs, pid);
    assert Ascending(rs) && Ascending(cs);
  }

  predicate SamePids(ts: seq<ProcTree>, cs: seq<Proc>) {
    |ts| == |cs| && forall k :: 0 <= k < |cs| ==> ts[k].pid == cs[k].pid
  }

  lemma {:induction false} AllBuiltOrdered(procs: seq<Proc>, cs: seq<Proc>, path: seq<Proc>)
    requires Sound(procs) && Below(procs, path, cs) && Strict(cs)
    ensures AllOrdered(BuildAll(procs, cs, path)) && SamePids(BuildAll(procs, cs, path), cs)
    decreases |procs| - |path|, 0, |cs|
  {
    if cs != [] {
      ChainIsShort(procs, path + [cs[0]]);
      NodeOrdered(procs, cs[0], path + [cs[0]]);
      AllBuiltOrdered(procs, cs[1..], path);
      OrderedBefore(BuildNode(procs, cs[0], path + [cs[0]]), BuildAll(procs, cs[1..], path), cs);
    }
  }

  lemma OrderedBefore(first: ProcTree, rest: seq<ProcTree>, cs: seq<Proc>)
    requires cs != [] && Strict(cs) && Ordered(first) && AllOrdered(rest)
    requires first.pid == cs[0].pid && SamePids(rest, cs[1..])
    ensures AllOrdered([first] + rest) && SamePids([first] + rest, cs)
  {
    forall k | 0 <= k < |rest| ensures rest[k].pid == cs[k + 1].pid > first.pid {
      assert rest[k].pid == cs[1..][k].pid;
    }
    FirstOrdered(first, rest);
  }

  lemma FirstOrdered(first: ProcTree, rest: seq<ProcTree>)
    requires Ordered(first) && AllOrdered(rest) && forall k :: 0 <= k < |rest| ==> first.pid < rest[k].pid
    ensures AllOrdered([first] + rest)
  {
  }

  lemma {:induction false} NodeOrdered(procs: seq<Proc>, p: Proc, path: seq<Proc>)
    requires Sound(procs) && Chain(procs, path) && Last(path) == p
    ensures Ordered(BuildNode(procs, p, path))
    decreases |procs| - |path|, 1, 0
  {
    ChainIsShort(procs, path);
    ChildrenBelow(procs, path);
    ListsAscend(procs, p.pid);
    AllBuiltOrdered(procs, ChildrenOf(procs, p.pid), path);
  }

  /** Everywhere in the tree siblings are shown in the order of their pids. */
  lemma TreeIsOrdered(procs: seq<Proc>)
    requires Sound(procs)
    ensures Ordered(BuildProcessTree(procs))
  {
    RootsBelow(procs);
    ListsAscend(procs, 0);
    AllBuiltOrdered(procs, Roots(procs), []);
  }

  /** The lines of a list of siblings: each has the branch sign but the last, which has the corner; what
      stands below it is moved in, under a bar as long as a sibling follows. */
  lemma {:induction false} SiblingLines(ts: seq<ProcTree>, last: ProcTree, prefix: string, fields: ProcTree -> string)
    ensures LinesFor(ts + [last], prefix, fields)
      == BranchLines(ts, prefix, fields)
         + ([prefix + "└── " + fields(last)] + LinesFor(last.children, prefix + "    ", fields))
    decreases |ts|
  {
    if ts == [] {
      assert ts + [last] == [last] && [last][1..] == [];
    } else {
      assert (ts + [last])[1..] == ts[1..] + [last];
      SiblingLines(ts[1..], last, prefix, fields);
    }
  }

  /** The lines of siblings that are not the last. */
  function BranchLines(ts: seq<ProcTree>, prefix: string, fields: ProcTree -> string): seq<string> {
    if ts == [] then []
    else [prefix + "├── " + fields(ts[0])] + LinesFor(ts[0].children, prefix + "│   ", fields)
         + BranchLines(ts[1..], prefix, fields)
  }
}
