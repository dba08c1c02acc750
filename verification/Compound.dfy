/** Compound commands of the shell: the tree that a block of lines stands for, what it means, and
    how a block and its branches are found again in the lines
    (src/applets/core/shell/compound.rs). */
module Compound {
  import opened Prelude
  import opened ShellLines

  // ----- trees

  datatype LoopKind = For | While | Until

  datatype Cmds = End | Next(head: Cmd, tail: Cmds)

  /** A condition may go on over further lines after its header. */
  datatype Cmd =
    | Simple(line: Line)
    | Flow(line: Line)
    | If(header: Line, more: seq<Line>, body: Cmds, arms: Arms)
    | Loop(kind: LoopKind, header: Line, more: seq<Line>, body: Cmds)

  datatype Arms =
    | NoElse
    | Else(body: Cmds)
    | Elif(header: Line, more: seq<Line>, body: Cmds, arms: Arms)

  // ----- the lines of a tree

  function CmdsLines(cs: Cmds): seq<Line> {
    match cs case End => [] case Next(c, rest) => CmdLines(c) + CmdsLines(rest)
  }

  function CmdLines(c: Cmd): (lines: seq<Line>)
    ensures lines != []
  {
    match c
    case Simple(l) => [l]
    case Flow(l) => [l]
    case If(h, m, b, arms) => [h] + m + [THEN] + CmdsLines(b) + ArmsLines(arms)
    case Loop(_, h, m, b) => [h] + m + [DO] + CmdsLines(b) + [DONE]
  }

  function ArmsLines(arms: Arms): (lines: seq<Line>)
    ensures lines != []
  {
    match arms
    case NoElse => [FI]
    case Else(b) => [ELSE] + CmdsLines(b) + [FI]
    case Elif(h, m, b, rest) => [h] + m + [THEN] + CmdsLines(b) + ArmsLines(rest)
  }

  // ----- which lines may stand where

  /** Lines of a condition: none opens or closes a block or ends the condition. */
  predicate ConditionLines(m: seq<Line>, stop: Reading) {
    forall i :: 0 <= i < |m| ==> Neutral(m[i]) && m[i].reading != stop
  }

  predicate Neutral(l: Line) {
    !l.reading.Opens? && !l.reading.Closes?
  }

  /** The text of a condition. */
  function Condition(cond: string, more: seq<Line>): string
    decreases |more|
  {
    if more == [] then cond else Condition(cond + "; " + more[0].text, more[1..])
  }

  predicate CmdsValid(cs: Cmds) {
    match cs case End => true case Next(c, rest) => CmdValid(c) && CmdsValid(rest)
  }

  predicate CmdValid(c: Cmd) {
    match c
    case Simple(l) => l.reading.Command?
    case Flow(l) => l.reading.BreakOf? || l.reading.ContinueOf?
    case If(h, m, b, arms) =>
      && h.reading.Opens? && h.reading.block == IfBlock && ConditionLines(m, ThenLine)
      && !Blank(Condition(h.reading.rest, m)) && CmdsValid(b) && ArmsValid(arms)
    case Loop(k, h, m, b) =>
      && h.reading.Opens? && h.reading.block == BlockOf(k) && ConditionLines(m, DoLine)
      && (if k == For then ForName(h.reading.rest) != "" else !Blank(Condition(h.reading.rest, m)))
      && CmdsValid(b)
  }

  predicate ArmsValid(arms: Arms) {
    match arms
    case NoElse => true
    case Else(b) => CmdsValid(b)
    case Elif(h, m, b, rest) =>
      && h.reading.ElifLine? && ConditionLines(m, ThenLine)
      && Condition(h.reading.cond, m) != "" && CmdsValid(b) && ArmsValid(rest)
  }

  function BlockOf(k: LoopKind): Block {
    match k case For => ForBlock case While => WhileBlock case Until => UntilBlock
  }

  // ----- what a tree means

  /** What happens, in order: lines run and loop variables set. */
  datatype Event = Ran(line: string, code: int) | SetVar(name: string, word: string)

  /** The loop that `continue N` goes on with: the innermost, or the N-th from the inside. */
  datatype Reach = Innermost | Counted

  /** What running a line yields, and what words a `for` header expands to (the positional
      parameters if it has no `in`), each depending on all that happened before; and how far
      `continue N` reaches. */
  datatype World = World(
    run: (seq<Event>, string, int) -> int,
    expand: (seq<Event>, Option<string>, int) -> seq<string>,
    reach: Reach)

  datatype State = State(trace: seq<Event>, rc: int)

  /** How a command ends: normally, on its way out of `levels` loops, on its way to the next
      round of a loop, or cut off. */
  datatype Ending = Normal | BreakOut(levels: nat) | ToNextRound(levels: nat) | OutOfFuel

  datatype Done = Done(ending: Ending, state: State)

  function RunLine(w: World, line: string, st: State): State {
    var code := w.run(st.trace, line, st.rc);
    State(st.trace + [Ran(line, code)], code)
  }

  function RunCmds(w: World, cs: Cmds, st: State, fuel: nat): Done
    decreases fuel, cs, 0
  {
    match cs
    case End => Done(Normal, st)
    case Next(c, rest) =>
      var d := RunCmd(w, c, st, fuel);
      if d.ending.Normal? then RunCmds(w, rest, d.state, fuel) else d
  }

  function RunCmd(w: World, c: Cmd, st: State, fuel: nat): Done
    decreases fuel, c, 0
  {
    match c
    case Simple(l) => Done(Normal, RunLine(w, l.text, st))
    case Flow(l) =>
      var ending :=
        if l.reading.BreakOf? then BreakOut(l.reading.levels)
        else if l.reading.ContinueOf? then ToNextRound(l.reading.levels)
        else Normal;
      Done(ending, st.(rc := 0))
    case If(h, m, b, arms) =>
      if h.reading.Opens? then
        var tested := RunLine(w, Condition(h.reading.rest, m), st);
        if tested.rc == 0 then RunCmds(w, b, tested, fuel) else RunArms(w, arms, tested, fuel)
      else Done(Normal, st)
    case Loop(k, h, m, b) =>
      if !h.reading.Opens? then Done(Normal, st)
      else if k == For then
        var words := w.expand(st.trace, ForWords(h.reading.rest), st.rc);
        if words == [] then Done(Normal, st.(rc := 0)) else RunFor(w, ForName(h.reading.rest), words, b, st, fuel)
      else RunWhile(w, k == While, Condition(h.reading.rest, m), b, st, fuel)
  }

  function RunArms(w: World, arms: Arms, st: State, fuel: nat): Done
    decreases fuel, arms, 0
  {
    match arms
    case NoElse => Done(Normal, st.(rc := 0))
    case Else(b) => if b.End? then Done(Normal, st.(rc := 0)) else RunCmds(w, b, st, fuel)
    case Elif(h, m, b, rest) =>
      if h.reading.ElifLine? then
        var tested := RunLine(w, Condition(h.reading.cond, m), st);
        if tested.rc == 0 then RunCmds(w, b, tested, fuel) else RunArms(w, rest, tested, fuel)
      else Done(Normal, st)
  }

  /** What a loop makes of the way its body ended: `None` to go on with the next round. */
  function LeaveLoop(w: World, d: Done): Option<Done> {
    match d.ending
    case Normal => None
    case ToNextRound(n) =>
      if w.reach.Counted? && n > 1 then Some(Done(ToNextRound(n - 1), d.state)) else None
    case BreakOut(n) => Some(Done(if n > 1 then BreakOut(n - 1) else Normal, d.state))
    case OutOfFuel => Some(d)
  }

  function RunFor(w: World, name: string, words: seq<string>, b: Cmds, st: State, fuel: nat): Done
    decreases fuel, b, 1 + |words|
  {
    if words == [] then Done(Normal, st)
    else
      var d := RunCmds(w, b, st.(trace := st.trace + [SetVar(name, words[0])]), fuel);
      match LeaveLoop(w, d)
      case Some(left) => left
      case None => RunFor(w, name, words[1..], b, d.state, fuel)
  }

  /** Each round of a while or until loop uses up one unit of fuel. */
  function RunWhile(w: World, whileTrue: bool, cond: string, b: Cmds, st: State, fuel: nat): Done
    decreases fuel, b, 1
  {
    if fuel == 0 then Done(OutOfFuel, st)
    else
      var tested := RunLine(w, cond, st);
      if (tested.rc == 0) != whileTrue then Done(Normal, tested.(rc := 0))
      else
        var d := RunCmds(w, b, tested, fuel - 1);
        match LeaveLoop(w, d)
        case Some(left) => left
        case None => RunWhile(w, whileTrue, cond, b, d.state, fuel - 1)
  }

  // ----- finding the end of a block

  /** The scan of `find_block_end` over the rest of the lines, the first of which has index `at`. */
  function FindEnd(rest: seq<Line>, stack: seq<Closer>, at: nat): Option<nat>
    requires stack != []
    decreases |rest|
  {
    if rest == [] then None
    else match rest[0].reading
      case Opens(block, _) => FindEnd(rest[1..], stack + [Terminator(block)], at + 1)
      case Closes(closer) =>
        if closer != stack[|stack| - 1] then FindEnd(rest[1..], stack, at + 1)
        else if |stack| == 1 then Some(at)
        else FindEnd(rest[1..], stack[..|stack| - 1], at + 1)
      case _ => FindEnd(rest[1..], stack, at + 1)
  }

  method FindBlockEnd(lines: seq<Line>, start: nat, terminator: Closer) returns (end: Option<nat>)
    requires start < |lines|
    ensures end == FindEnd(lines[start + 1..], [terminator], start + 1)
    ensures end.Some? ==> start < end.value < |lines| && lines[end.value].reading == Closes(terminator)
  {
    var stack := [terminator];
    var i := start + 1;
    while i < |lines|
      invariant start < i <= |lines| && stack != [] && stack[0] == terminator
      invariant FindEnd(lines[start + 1..], [terminator], start + 1) == FindEnd(lines[i..], stack, i)
    {
      var l := lines[i];
      assert lines[i..][1..] == lines[i + 1..];
      if l.reading.Opens? {
        stack := stack + [Terminator(l.reading.block)];
      } else if l.reading.Closes? {
        if l.reading.closer == stack[|stack| - 1] {
          if |stack| == 1 {
            return Some(i);
          }
          stack := stack[..|stack| - 1];
        }
      }
      i := i + 1;
    }
    end := None;
  }

  lemma FindEndSkipsLine(l: Line, rest: seq<Line>, stack: seq<Closer>, at: nat)
    requires stack != [] && Neutral(l)
    ensures FindEnd([l] + rest, stack, at) == FindEnd(rest, stack, at + 1)
  {
    assert ([l] + rest)[1..] == rest;
  }

  lemma FindEndPushes(l: Line, rest: seq<Line>, stack: seq<Closer>, at: nat)
    requires stack != [] && l.reading.Opens?
    ensures FindEnd([l] + rest, stack, at) == FindEnd(rest, stack + [Terminator(l.reading.block)], at + 1)
  {
    assert ([l] + rest)[1..] == rest;
  }

  /** What remains after a block has been closed by its own terminator at index `at`. */
  function Closed(rest: seq<Line>, stack: seq<Closer>, at: nat): Option<nat> {
    if stack == [] then Some(at) else FindEnd(rest, stack, at + 1)
  }

  lemma FindEndPops(l: Line, rest: seq<Line>, stack: seq<Closer>, at: nat)
    requires l.reading.Closes?
    ensures FindEnd([l] + rest, stack + [l.reading.closer], at) == Closed(rest, stack, at)
  {
    assert ([l] + rest)[1..] == rest;
    assert (stack + [l.reading.closer])[..|stack|] == stack;
  }

  lemma {:induction false} FindEndSkipsLines(m: seq<Line>, rest: seq<Line>, stack: seq<Closer>, at: nat)
    requires stack != [] && forall i :: 0 <= i < |m| ==> Neutral(m[i])
    ensures FindEnd(m + rest, stack, at) == FindEnd(rest, stack, at + |m|)
    decreases |m|
  {
    if m == [] {
      assert m + rest == rest;
    } else {
      assert m + rest == [m[0]] + (m[1..] + rest);
      FindEndSkipsLine(m[0], m[1..] + rest, stack, at);
      FindEndSkipsLines(m[1..], rest, stack, at + 1);
    }
  }

  lemma {:induction false} FindEndSkipsCmds(cs: Cmds, rest: seq<Line>, stack: seq<Closer>, at: nat)
    requires stack != [] && CmdsValid(cs)
    ensures FindEnd(CmdsLines(cs) + rest, stack, at) == FindEnd(rest, stack, at + |CmdsLines(cs)|)
    decreases cs, 0
  {
    match cs
    case End =>
      assert CmdsLines(cs) + rest == rest;
    case Next(c, tail) =>
      assert CmdsLines(cs) + rest == CmdLines(c) + (CmdsLines(tail) + rest);
      FindEndSkipsCmd(c, CmdsLines(tail) + rest, stack, at);
      FindEndSkipsCmds(tail, rest, stack, at + |CmdLines(c)|);
  }

  lemma {:induction false} FindEndSkipsCmd(c: Cmd, rest: seq<Line>, stack: seq<Closer>, at: nat)
    requires stack != [] && CmdValid(c)
    ensures FindEnd(CmdLines(c) + rest, stack, at) == FindEnd(rest, stack, at + |CmdLines(c)|)
    decreases c, 1
  {
    if IsBlock(c) {
      assert CmdLines(c) + rest == [c.header] + (CmdLines(c)[1..] + rest);
      FindEndPushes(c.header, CmdLines(c)[1..] + rest, stack, at);
      OwnEnd(c, rest, stack, at);
    } else {
      FindEndSkipsLine(c.line, rest, stack, at);
    }
  }

  /** Neutral lines and the body after them are scanned over. */
  lemma {:induction false} FindEndSkipsBody(m: seq<Line>, b: Cmds, rest: seq<Line>, stack: seq<Closer>, at: nat)
    requires stack != [] && CmdsValid(b) && forall i :: 0 <= i < |m| ==> Neutral(m[i])
    ensures FindEnd(m + CmdsLines(b) + rest, stack, at) == FindEnd(rest, stack, at + |m| + |CmdsLines(b)|)
    decreases b, 1
  {
    assert m + CmdsLines(b) + rest == m + (CmdsLines(b) + rest);
    FindEndSkipsLines(m, CmdsLines(b) + rest, stack, at);
    FindEndSkipsCmds(b, rest, stack, at + |m|);
  }

  predicate IsBlock(c: Cmd) {
    c.If? || c.Loop?
  }

  /** From the header of a block on, the scan reaches exactly the block's own terminator. */
  lemma {:induction false} OwnEnd(c: Cmd, rest: seq<Line>, stack: seq<Closer>, at: nat)
    requires CmdValid(c) && IsBlock(c)
    ensures FindEnd(CmdLines(c)[1..] + rest, stack + [Terminator(c.header.reading.block)], at + 1)
            == Closed(rest, stack, at + |CmdLines(c)| - 1)
    decreases c, 0
  {
    BlockTail(c);
    if c.If? {
      IfEnd(c, c.more + [THEN], c.body, c.arms, rest, stack, at);
    } else {
      LoopEnd(c.more + [DO], c.body, rest, stack, at);
    }
  }

  lemma BlockTail(c: Cmd)
    requires c.If? || c.Loop?
    ensures c.If? ==> CmdLines(c)[1..] == (c.more + [THEN]) + CmdsLines(c.body) + ArmsLines(c.arms)
    ensures c.Loop? ==> CmdLines(c)[1..] == (c.more + [DO]) + CmdsLines(c.body) + [DONE]
  {
  }

  lemma {:induction false} IfEnd(c: Cmd, m: seq<Line>, b: Cmds, arms: Arms, rest: seq<Line>, stack: seq<Closer>,
                                 at: nat)
    requires c.If? && c.body == b && c.arms == arms
    requires CmdsValid(b) && ArmsValid(arms) && forall i :: 0 <= i < |m| ==> Neutral(m[i])
    ensures FindEnd(m + CmdsLines(b) + ArmsLines(arms) + rest, stack + [Fi], at + 1)
            == Closed(rest, stack, at + |m| + |CmdsLines(b)| + |ArmsLines(arms)|)
    decreases c, -1
  {
    HeadScanned(m, b, ArmsLines(arms), rest, stack + [Fi], at + 1);
    ArmsEnd(arms, rest, stack, at + 1 + |m| + |CmdsLines(b)|);
  }

  lemma {:induction false} LoopEnd(m: seq<Line>, b: Cmds, rest: seq<Line>, stack: seq<Closer>, at: nat)
    requires CmdsValid(b) && forall i :: 0 <= i < |m| ==> Neutral(m[i])
    ensures FindEnd(m + CmdsLines(b) + [DONE] + rest, stack + [DoneCloser], at + 1)
            == Closed(rest, stack, at + |m| + |CmdsLines(b)| + 1)
    decreases b, 3
  {
    HeadScanned(m, b, [DONE], rest, stack + [DoneCloser], at + 1);
    FindEndPops(DONE, rest, stack, at + 1 + |m| + |CmdsLines(b)|);
  }

  lemma {:induction false} HeadScanned(m: seq<Line>, b: Cmds, tail: seq<Line>, rest: seq<Line>, stack: seq<Closer>,
                                       at: nat)
    requires stack != [] && CmdsValid(b) && forall i :: 0 <= i < |m| ==> Neutral(m[i])
    ensures FindEnd(m + CmdsLines(b) + tail + rest, stack, at)
            == FindEnd(tail + rest, stack, at + |m| + |CmdsLines(b)|)
    decreases b, 2
  {
    var head := m + CmdsLines(b);
    assert head + tail + rest == head + (tail + rest);
    FindEndSkipsBody(m, b, tail + rest, stack, at);
  }

  lemma {:induction false} ArmsEnd(arms: Arms, rest: seq<Line>, stack: seq<Closer>, at: nat)
    requires ArmsValid(arms)
    ensures FindEnd(ArmsLines(arms) + rest, stack + [Fi], at) == Closed(rest, stack, at + |ArmsLines(arms)| - 1)
    decreases arms, 0
  {
    match arms
    case NoElse =>
      FindEndPops(FI, rest, stack, at);
    case Else(b) =>
      HeadScanned([ELSE], b, [FI], rest, stack + [Fi], at);
      FindEndPops(FI, rest, stack, at + 1 + |CmdsLines(b)|);
    case Elif(h, m, b, more) =>
      HeadScanned([h] + m + [THEN], b, ArmsLines(more), rest, stack + [Fi], at);
      ArmsEnd(more, rest, stack, at + 2 + |m| + |CmdsLines(b)|);
  }
}
