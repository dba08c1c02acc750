/** How far `continue N` goes. POSIX.1-2017, XCU section 2.14 has it go on with the N-th loop from the
    inside, or the outermost if there are fewer; the executor always goes on with the innermost
    (src/applets/core/shell/compound.rs). */
module ContinueLevels {
  import opened ShellLines
  import opened Compound

  /** The two readings of `continue N`. */
  function Posix(w: World): World {
    w.(reach := Counted)
  }

  function Executed(w: World): World {
    w.(reach := Innermost)
  }

  /** The level that counts below `depth` loops. */
  function Clamped(n: nat, depth: nat): nat {
    if depth == 0 then if n > 1 then 1 else n else if n > depth then depth else n
  }

  /** The commands with every level of `continue` cut off at the number of loops around it. */
  function ClampCmds(cs: Cmds, depth: nat): Cmds {
    match cs case End => End case Next(c, rest) => Next(ClampCmd(c, depth), ClampCmds(rest, depth))
  }

  function ClampCmd(c: Cmd, depth: nat): Cmd {
    match c
    case Simple(_) => c
    case Flow(l) =>
      if l.reading.ContinueOf? then Flow(Line(l.text, ContinueOf(Clamped(l.reading.levels, depth)))) else c
    case If(h, m, b, arms) => If(h, m, ClampCmds(b, depth), ClampArms(arms, depth))
    case Loop(k, h, m, b) => Loop(k, h, m, ClampCmds(b, depth + 1))
  }

  function ClampArms(arms: Arms, depth: nat): Arms {
    match arms
    case NoElse => NoElse
    case Else(b) => Else(ClampCmds(b, depth))
    case Elif(h, m, b, rest) => Elif(h, m, ClampCmds(b, depth), ClampArms(rest, depth))
  }

  /** Every `continue` below `depth` loops has level 1 at most, or no more than one loop around it. */
  predicate OneLevel(cs: Cmds, depth: nat) {
    match cs case End => true case Next(c, rest) => OneLevelCmd(c, depth) && OneLevel(rest, depth)
  }

  predicate OneLevelCmd(c: Cmd, depth: nat) {
    match c
    case Simple(_) => true
    case Flow(l) => l.reading.ContinueOf? ==> l.reading.levels <= 1 || depth <= 1
    case If(_, _, b, arms) => OneLevel(b, depth) && OneLevelArms(arms, depth)
    case Loop(_, _, _, b) => OneLevel(b, depth + 1)
  }

  predicate OneLevelArms(arms: Arms, depth: nat) {
    match arms
    case NoElse => true
    case Else(b) => OneLevel(b, depth)
    case Elif(_, _, b, rest) => OneLevel(b, depth) && OneLevelArms(rest, depth)
  }

  /** The same state and the same ending, up to the level that the executor does not look at. */
  predicate Agrees(posix: Done, executed: Done) {
    && posix.state == executed.state
    && (posix.ending == executed.ending
        || (posix.ending.ToNextRound? && executed.ending.ToNextRound? && posix.ending.levels <= 1))
  }

  lemma LeavesAgree(w: World, p: Done, e: Done)
    requires Agrees(p, e) && (p.ending.ToNextRound? ==> p.ending.levels <= 1)
    ensures LeaveLoop(Posix(w), p) == LeaveLoop(Executed(w), e)
  {
  }

  // ----- agreement

  predicate Low(d: Done) {
    d.ending.ToNextRound? ==> d.ending.levels <= 1
  }

  /** The executor means what POSIX means, for every program in which each `continue` has level 1 or
      at most one loop around it. */
  lemma {:induction false} ContinueAgrees(w: World, cs: Cmds, depth: nat, st: State, fuel: nat)
    requires OneLevel(cs, depth)
    ensures Agrees(RunCmds(Posix(w), ClampCmds(cs, depth), st, fuel), RunCmds(Executed(w), cs, st, fuel))
    ensures Low(RunCmds(Posix(w), ClampCmds(cs, depth), st, fuel))
    decreases fuel, cs, 0
  {
    if cs.Next? {
      CmdAgrees(w, cs.head, depth, st, fuel);
      var d := RunCmd(Executed(w), cs.head, st, fuel);
      if d.ending.Normal? {
        ContinueAgrees(w, cs.tail, depth, d.state, fuel);
      }
    }
  }

  lemma {:induction false} CmdAgrees(w: World, c: Cmd, depth: nat, st: State, fuel: nat)
    requires OneLevelCmd(c, depth)
    ensures Agrees(RunCmd(Posix(w), ClampCmd(c, depth), st, fuel), RunCmd(Executed(w), c, st, fuel))
    ensures Low(RunCmd(Posix(w), ClampCmd(c, depth), st, fuel))
    decreases fuel, c, 0
  {
    match c
    case Simple(l) =>
    case Flow(l) =>
    case If(h, m, b, arms) =>
      if h.reading.Opens? {
        var tested := RunLine(w, Condition(h.reading.rest, m), st);
        if tested.rc == 0 {
          ContinueAgrees(w, b, depth, tested, fuel);
        } else {
          ArmsAgree(w, arms, depth, tested, fuel);
        }
      }
    case Loop(k, h, m, b) =>
      if h.reading.Opens? {
        if k == For {
          var words := w.expand(st.trace, ForWords(h.reading.rest), st.rc);
          ForAgrees(w, ForName(h.reading.rest), words, b, depth, st, fuel);
        } else {
          WhileAgrees(w, k == While, Condition(h.reading.rest, m), b, depth, st, fuel);
        }
      }
  }

  lemma {:induction false} ArmsAgree(w: World, arms: Arms, depth: nat, st: State, fuel: nat)
    requires OneLevelArms(arms, depth)
    ensures Agrees(RunArms(Posix(w), ClampArms(arms, depth), st, fuel), RunArms(Executed(w), arms, st, fuel))
    ensures Low(RunArms(Posix(w), ClampArms(arms, depth), st, fuel))
    decreases fuel, arms, 0
  {
    match arms
    case NoElse =>
    case Else(b) => ContinueAgrees(w, b, depth, st, fuel);
    case Elif(h, m, b, rest) =>
      if h.reading.ElifLine? {
        var tested := RunLine(w, Condition(h.reading.cond, m), st);
        if tested.rc == 0 {
          ContinueAgrees(w, b, depth, tested, fuel);
        } else {
          ArmsAgree(w, rest, depth, tested, fuel);
        }
      }
  }

  lemma {:induction false} ForAgrees(w: World, name: string, words: seq<string>, b: Cmds, depth: nat,
                                     st: State, fuel: nat)
    requires OneLevel(b, depth + 1)
    ensures RunFor(Posix(w), name, words, ClampCmds(b, depth + 1), st, fuel)
            == RunFor(Executed(w), name, words, b, st, fuel)
    ensures !RunFor(Executed(w), name, words, b, st, fuel).ending.ToNextRound?
    decreases fuel, b, 1 + |words|
  {
    if words != [] {
      var entry := st.(trace := st.trace + [SetVar(name, words[0])]);
      ContinueAgrees(w, b, depth + 1, entry, fuel);
      var p := RunCmds(Posix(w), ClampCmds(b, depth + 1), entry, fuel);
      var e := RunCmds(Executed(w), b, entry, fuel);
      LeavesAgree(w, p, e);
      if LeaveLoop(Executed(w), e).None? {
        ForAgrees(w, name, words[1..], b, depth, e.state, fuel);
      }
    }
  }

  lemma {:induction false} WhileAgrees(w: World, whileTrue: bool, cond: string, b: Cmds, depth: nat,
                                       st: State, fuel: nat)
    requires OneLevel(b, depth + 1)
    ensures RunWhile(Posix(w), whileTrue, cond, ClampCmds(b, depth + 1), st, fuel)
            == RunWhile(Executed(w), whileTrue, cond, b, st, fuel)
    ensures !RunWhile(Executed(w), whileTrue, cond, b, st, fuel).ending.ToNextRound?
    decreases fuel, b, 1
  {
    if fuel > 0 {
      var tested := RunLine(w, cond, st);
      if (tested.rc == 0) == whileTrue {
        ContinueAgrees(w, b, depth + 1, tested, fuel - 1);
        var p := RunCmds(Posix(w), ClampCmds(b, depth + 1), tested, fuel - 1);
        var e := RunCmds(Executed(w), b, tested, fuel - 1);
        LeavesAgree(w, p, e);
        if LeaveLoop(Executed(w), e).None? {
          WhileAgrees(w, whileTrue, cond, b, depth, e.state, fuel - 1);
        }
      }
    }
  }

  // ----- two loops

  function Only(c: Cmd): Cmds {
    Next(c, End)
  }

  /** Two nested `for` loops whose body is a `continue`. */
  function TwoLoops(outer: Line, inner: Line, flow: Line): Cmds {
    Only(Loop(For, outer, [], Only(Loop(For, inner, [], Only(Flow(flow))))))
  }

  /** The loops run over the words `us` and `vs`, whatever has happened before. */
  ghost predicate RunsOver(w: World, outer: Line, inner: Line, us: seq<string>, vs: seq<string>) {
    && outer.reading.Opens? && inner.reading.Opens?
    && (forall trace, rc :: w.expand(trace, ForWords(outer.reading.rest), rc) == us)
    && (forall trace, rc :: w.expand(trace, ForWords(inner.reading.rest), rc) == vs)
  }

  function Sets(name: string, words: seq<string>): seq<Event> {
    if words == [] then [] else [SetVar(name, words[0])] + Sets(name, words[1..])
  }

  /** For each outer word the variable is set, then the inner one for each inner word. */
  function Rounds(x: string, us: seq<string>, y: string, vs: seq<string>): seq<Event> {
    if us == [] then [] else [SetVar(x, us[0])] + Sets(y, vs) + Rounds(x, us[1..], y, vs)
  }

  lemma FlowRuns(w: World, flow: Line, st: State, fuel: nat)
    requires flow.reading.ContinueOf?
    ensures RunCmds(w, Only(Flow(flow)), st, fuel) == Done(ToNextRound(flow.reading.levels), st.(rc := 0))
  {
    assert RunCmd(w, Flow(flow), st, fuel) == Done(ToNextRound(flow.reading.levels), st.(rc := 0));
  }

  lemma SetsStep(trace: seq<Event>, y: string, vs: seq<string>)
    requires vs != []
    ensures trace + [SetVar(y, vs[0])] + Sets(y, vs[1..]) == trace + Sets(y, vs)
  {
  }

  lemma RoundsStep(trace: seq<Event>, x: string, us: seq<string>, y: string, vs: seq<string>)
    requires us != []
    ensures trace + [SetVar(x, us[0])] + Sets(y, vs) + Rounds(x, us[1..], y, vs) == trace + Rounds(x, us, y, vs)
  {
  }

  /** Executed, every inner round is run. */
  lemma {:induction false} InnerExecuted(w: World, y: string, vs: seq<string>, flow: Line, st: State, fuel: nat)
    requires flow.reading.ContinueOf?
    ensures RunFor(Executed(w), y, vs, Only(Flow(flow)), st, fuel)
            == Done(Normal, State(st.trace + Sets(y, vs), if vs == [] then st.rc else 0))
    decreases |vs|
  {
    if vs == [] {
      assert st.trace + [] == st.trace;
    } else {
      var entry := st.(trace := st.trace + [SetVar(y, vs[0])]);
      FlowRuns(Executed(w), flow, entry, fuel);
      InnerExecuted(w, y, vs[1..], flow, entry.(rc := 0), fuel);
      SetsStep(st.trace, y, vs);
    }
  }

  function Upto(vs: seq<string>, n: nat): seq<string> {
    if |vs| <= n then vs else vs[..n]
  }

  /** By POSIX the first inner round goes on with the outer loop. */
  lemma InnerPosix(w: World, y: string, vs: seq<string>, flow: Line, st: State, fuel: nat)
    requires flow.reading == ContinueOf(2)
    ensures RunFor(Posix(w), y, vs, Only(Flow(flow)), st, fuel)
            == Done(if vs == [] then Normal else ToNextRound(1),
                    State(st.trace + Sets(y, Upto(vs, 1)), if vs == [] then st.rc else 0))
  {
    if vs == [] {
      assert st.trace + [] == st.trace;
    } else {
      var entry := st.(trace := st.trace + [SetVar(y, vs[0])]);
      FlowRuns(Posix(w), flow, entry, fuel);
      assert Upto(vs, 1) == [vs[0]] && [vs[0]][1..] == [];
      assert Sets(y, [vs[0]]) == [SetVar(y, vs[0])] + Sets(y, []);
    }
  }

  lemma FirstRound(w: World, x: string, us: seq<string>, b: Cmds, st: State, fuel: nat)
    requires us != []
    ensures var d := RunCmds(w, b, st.(trace := st.trace + [SetVar(x, us[0])]), fuel);
      LeaveLoop(w, d).None? ==> RunFor(w, x, us, b, st, fuel) == RunFor(w, x, us[1..], b, d.state, fuel)
  {
  }

  /** The outer loop, given what its body does each time. */
  lemma {:induction false} OuterRounds(w: World, x: string, us: seq<string>, y: string, vs: seq<string>, b: Cmds,
                                       st: State, fuel: nat)
    requires forall s :: BodySets(w, b, s, fuel, y, vs)
    ensures RunFor(w, x, us, b, st, fuel).ending.Normal?
    ensures RunFor(w, x, us, b, st, fuel).state.trace == st.trace + Rounds(x, us, y, vs)
    decreases |us|
  {
    if us == [] {
      assert st.trace + [] == st.trace;
    } else {
      var entry := st.(trace := st.trace + [SetVar(x, us[0])]);
      assert BodySets(w, b, entry, fuel, y, vs);
      var d := RunCmds(w, b, entry, fuel);
      OuterRounds(w, x, us[1..], y, vs, b, d.state, fuel);
      FirstRound(w, x, us, b, st, fuel);
      RoundsStep(st.trace, x, us, y, vs);
    }
  }

  ghost predicate BodySets(w: World, b: Cmds, s: State, fuel: nat, y: string, vs: seq<string>) {
    var d := RunCmds(w, b, s, fuel);
    LeaveLoop(w, d).None? && d.state.trace == s.trace + Sets(y, vs)
  }

  lemma {:induction false} SetsLength(y: string, vs: seq<string>)
    ensures |Sets(y, vs)| == |vs|
    decreases |vs|
  {
    if vs != [] {
      SetsLength(y, vs[1..]);
    }
  }

  lemma {:induction false} RoundsDiffer(x: string, us: seq<string>, y: string, vs: seq<string>)
    requires |vs| > 1
    ensures |Rounds(x, us, y, Upto(vs, 1))| <= |Rounds(x, us, y, vs)|
    ensures us != [] ==> |Rounds(x, us, y, Upto(vs, 1))| < |Rounds(x, us, y, vs)|
    decreases |us|
  {
    if us != [] {
      SetsLength(y, vs);
      SetsLength(y, Upto(vs, 1));
      RoundsDiffer(x, us[1..], y, vs);
    }
  }

  /** The traces of two loops around `continue N`, N being at least 2. */
  lemma TwoLoopTraces(w: World, outer: Line, inner: Line, us: seq<string>, vs: seq<string>, flow: Line,
                      st: State, fuel: nat)
    requires RunsOver(w, outer, inner, us, vs) && flow.reading.ContinueOf? && flow.reading.levels >= 2
    ensures var p := TwoLoops(outer, inner, flow);
      var x, y := ForName(outer.reading.rest), ForName(inner.reading.rest);
      && RunCmds(Executed(w), p, st, fuel).state.trace == st.trace + Rounds(x, us, y, vs)
      && RunCmds(Posix(w), ClampCmds(p, 0), st, fuel).state.trace == st.trace + Rounds(x, us, y, Upto(vs, 1))
  {
    var x, y := ForName(outer.reading.rest), ForName(inner.reading.rest);
    var cut := Line(flow.text, ContinueOf(2));
    var body, cutBody := Only(Loop(For, inner, [], Only(Flow(flow)))), Only(Loop(For, inner, [], Only(Flow(cut))));
    assert ClampCmds(Only(Flow(flow)), 2) == Only(Flow(cut));
    assert ClampCmds(body, 1) == cutBody;
    assert ClampCmds(TwoLoops(outer, inner, flow), 0) == Only(Loop(For, outer, [], cutBody));
    forall s ensures BodySets(Executed(w), body, s, fuel, y, vs) {
      InnerExecuted(w, y, vs, flow, s, fuel);
      assert s.trace + [] == s.trace;
    }
    forall s ensures BodySets(Posix(w), cutBody, s, fuel, y, Upto(vs, 1)) {
      InnerPosix(w, y, vs, cut, s, fuel);
      assert s.trace + [] == s.trace;
    }
    OuterRounds(Executed(w), x, us, y, vs, body, st, fuel);
    OuterRounds(Posix(w), x, us, y, Upto(vs, 1), cutBody, st, fuel);
    assert st.trace + [] == st.trace;
  }

  lemma OnlyOneLevel(c: Cmd, depth: nat)
    requires OneLevelCmd(c, depth)
    ensures OneLevel(Only(c), depth)
  {
    assert OneLevel(End, depth);
  }

  /** Two loops around `continue N` leave the trace that POSIX asks for exactly if N is 1 at most, or
      the inner loop has no second word, or the outer loop has none at all. */
  lemma TwoLoopsAgreeIff(w: World, outer: Line, inner: Line, us: seq<string>, vs: seq<string>, flow: Line,
                         st: State, fuel: nat)
    requires RunsOver(w, outer, inner, us, vs) && flow.reading.ContinueOf?
    ensures var p := TwoLoops(outer, inner, flow);
      RunCmds(Posix(w), ClampCmds(p, 0), st, fuel).state.trace == RunCmds(Executed(w), p, st, fuel).state.trace
      <==> flow.reading.levels <= 1 || |vs| <= 1 || us == []
  {
    var p := TwoLoops(outer, inner, flow);
    if flow.reading.levels <= 1 {
      OnlyOneLevel(Flow(flow), 2);
      OnlyOneLevel(Loop(For, inner, [], Only(Flow(flow))), 1);
      OnlyOneLevel(Loop(For, outer, [], Only(Loop(For, inner, [], Only(Flow(flow))))), 0);
      ContinueAgrees(w, p, 0, st, fuel);
    } else {
      var x, y := ForName(outer.reading.rest), ForName(inner.reading.rest);
      TwoLoopTraces(w, outer, inner, us, vs, flow, st, fuel);
      if |vs| > 1 {
        RoundsDiffer(x, us, y, vs);
      }
    }
  }
}
