/** The executor of compound commands: lines are run one by one, `break` and `continue` travel as
    special exit codes, and the number of loops still to leave is kept aside
    (src/applets/core/shell/compound.rs). Run on the lines of a tree it does what the tree means. */
module CompoundExec {
  import opened Prelude
  import opened ShellLines
  import opened Compound
  import opened Branches

  const RC_BREAK := 200
  const RC_CONTINUE := 201
  const RC_RETURN := 202
  const RC_INTERRUPT := 130

  predicate TameCode(rc: int) {
    rc != RC_BREAK && rc != RC_CONTINUE && rc != RC_RETURN && rc != RC_INTERRUPT
  }

  /** No line yields one of the codes that the executor uses for itself, and `continue` goes on
      with the innermost loop, which is what the executor does whatever its level. */
  ghost predicate Tame(w: World) {
    w.reach.Innermost? && forall trace, line, rc :: TameCode(w.run(trace, line, rc))
  }

  /** The code `r`, the state and the loop level say what `d` says; no code means out of fuel. */
  predicate Reports(r: Option<int>, st: State, loopLevel: nat, d: Done) {
    && st == d.state && TameCode(st.rc)
    && match d.ending
       case Normal => r == Some(st.rc)
       case BreakOut(k) => r == Some(RC_BREAK) && loopLevel == (if k > 1 then k else 1)
       case ToNextRound(_) => r == Some(RC_CONTINUE)
       case OutOfFuel => r == None
  }

  /** `lines` are those of the program, if one is given, and no line yields a special code. */
  ghost predicate Stands(w: World, prog: Option<Cmds>, lines: seq<Line>, rc: int) {
    prog.Some? ==> CmdsValid(prog.value) && lines == CmdsLines(prog.value) && Tame(w) && TameCode(rc)
  }

  ghost predicate StandsBlock(w: World, c: Option<Cmd>, lines: seq<Line>, rc: int) {
    c.Some? ==> CmdValid(c.value) && IsBlock(c.value) && lines == CmdLines(c.value) && Tame(w) && TameCode(rc)
  }

  lemma FirstCmd(lines: seq<Line>, i: nat, rest: Cmds)
    requires i < |lines| && lines[i..] == CmdsLines(rest)
    ensures rest.Next? && lines[i] == CmdLines(rest.head)[0] && i + |CmdLines(rest.head)| <= |lines|
    ensures lines[i..i + |CmdLines(rest.head)|] == CmdLines(rest.head)
    ensures lines[i + |CmdLines(rest.head)|..] == CmdsLines(rest.tail)
  {
    var n := |CmdLines(rest.head)|;
    assert lines[i..] == CmdLines(rest.head) + CmdsLines(rest.tail);
    assert lines[i..][..n] == lines[i..i + n] && lines[i..][n..] == lines[i + n..];
    assert lines[i..][0] == lines[i];
  }

  lemma FirstLine(c: Cmd)
    requires CmdValid(c)
    ensures IsBlock(c) ==> CmdLines(c)[0] == c.header
    ensures !IsBlock(c) ==> CmdLines(c) == [c.line]
  {
  }

  /** In the lines of a command followed by others, the block ends where the command ends. */
  lemma BlockEnd(lines: seq<Line>, i: nat, rest: Cmds)
    requires i < |lines| && lines[i..] == CmdsLines(rest) && CmdsValid(rest) && rest.Next? && IsBlock(rest.head)
    ensures lines[i].reading.Opens?
    ensures FindEnd(lines[i + 1..], [Terminator(lines[i].reading.block)], i + 1) == Some(i + |CmdLines(rest.head)| - 1)
  {
    var c := rest.head;
    FirstCmd(lines, i, rest);
    FirstLine(c);
    assert lines[i + 1..] == lines[i..][1..];
    assert lines[i..][1..] == CmdLines(c)[1..] + CmdsLines(rest.tail);
    OwnEnd(c, CmdsLines(rest.tail), [], i);
    assert [] + [Terminator(c.header.reading.block)] == [Terminator(c.header.reading.block)];
  }

  /** After one command of a list: go on if it ended normally, otherwise stop and report. */
  predicate StepReports(stop: bool, r: Option<int>, st: State, loopLevel: nat, d: Done) {
    if d.ending.Normal? then !stop && st == d.state && TameCode(st.rc)
    else stop && Reports(r, st, loopLevel, d)
  }

  predicate Unclosed(lines: seq<Line>, i: nat)
    requires i < |lines|
  {
    lines[i].reading.Opens? && FindEnd(lines[i + 1..], [Terminator(lines[i].reading.block)], i + 1).None?
  }

  /** A block with its own last line. */
  predicate BlockSlice(slice: seq<Line>) {
    |slice| >= 2 && slice[0].reading.Opens? && slice[|slice| - 1].reading.Closes?
  }

  /** No `do` between the header and the last line. */
  predicate NoDo(slice: seq<Line>)
    requires BlockSlice(slice)
  {
    LinesBefore(slice[1..], DoLine) == |slice| - 1
  }

  function LoopCondition(slice: seq<Line>): string
    requires BlockSlice(slice)
  {
    Condition(slice[0].reading.rest, slice[1..1 + LinesBefore(slice[1..], DoLine)])
  }

  /** The branches of an `if` block; `None` for each of its syntax errors. */
  function IfCut(slice: seq<Line>): Option<Cut>
    requires BlockSlice(slice)
  {
    var n := LinesBefore(slice[1..], ThenLine);
    if n == |slice| - 1 then None
    else
      var cond := Condition(slice[0].reading.rest, slice[1..n + 1]);
      if Blank(cond) then None else CutBranches(slice[n + 2..], cond)
  }

  lemma HeaderParts(h: Line, m: seq<Line>, kw: Line, tail: seq<Line>)
    requires forall k :: 0 <= k < |m| ==> m[k].reading != kw.reading
    ensures var lines := [h] + (m + [kw] + tail);
            && LinesBefore(lines[1..], kw.reading) == |m| && lines[0] == h
            && lines[1..|m| + 1] == m && lines[|m| + 2..] == tail
  {
    var lines := [h] + (m + [kw] + tail);
    assert lines[1..] == m + [kw] + tail;
    LinesBeforeStop(m, kw, tail, kw.reading);
  }

  /** Where the parts of an `if` block are. */
  lemma IfHeader(c: Cmd)
    requires CmdValid(c) && c.If?
    ensures var lines, n := CmdLines(c), |c.more|;
            && LinesBefore(lines[1..], ThenLine) == n && n + 2 < |lines| && lines[0] == c.header
            && lines[1..n + 1] == c.more && lines[n + 2..] == CmdsLines(c.body) + ArmsLines(c.arms)
  {
    var tail := CmdsLines(c.body) + ArmsLines(c.arms);
    assert CmdLines(c) == [c.header] + (c.more + [THEN] + tail);
    HeaderParts(c.header, c.more, THEN, tail);
  }

  lemma LoopHeader(c: Cmd)
    requires CmdValid(c) && c.Loop?
    ensures var lines, n := CmdLines(c), |c.more|;
            && LinesBefore(lines[1..], DoLine) == n && n + 2 < |lines| && lines[0] == c.header
            && lines[1..n + 1] == c.more && lines[n + 2..|lines| - 1] == CmdsLines(c.body)
  {
    var tail := CmdsLines(c.body) + [DONE];
    assert CmdLines(c) == [c.header] + (c.more + [DO] + tail);
    HeaderParts(c.header, c.more, DO, tail);
    assert CmdLines(c)[|c.more| + 2..|CmdLines(c)| - 1] == tail[..|tail| - 1];
  }

  ghost predicate ArmListValid(arms: seq<Arm>, orelse: Cmds) {
    CmdsValid(orelse) && forall k :: 0 <= k < |arms| ==> CmdsValid(arms[k].body)
  }

  lemma {:induction false} ArmsOfValid(arms: Arms)
    requires ArmsValid(arms)
    ensures ArmListValid(ArmsOf(arms), ElseOf(arms))
    decreases arms
  {
    if arms.Elif? {
      ArmsOfValid(arms.arms);
    }
  }

  lemma IfTree(c: Cmd, cond: string)
    requires CmdValid(c) && c.If? && cond == Condition(c.header.reading.rest, c.more)
    ensures var arms := [Arm(cond, c.body)] + ArmsOf(c.arms);
            && ArmListValid(arms, ElseOf(c.arms))
            && CutBranches(CmdsLines(c.body) + ArmsLines(c.arms), cond)
               == Some(Cut(BranchesOf(arms), CmdsLines(ElseOf(c.arms))))
  {
    CutIsTree(c, cond);
    ArmsOfValid(c.arms);
    assert BranchesOf([Arm(cond, c.body)] + ArmsOf(c.arms))
        == [Branch(cond, CmdsLines(c.body))] + BranchesOf(ArmsOf(c.arms));
  }

  /** The branches of an `if` tree, the first included. */
  function IfArms(c: Cmd): seq<Arm>
    requires c.If? && c.header.reading.Opens?
  {
    [Arm(Condition(c.header.reading.rest, c.more), c.body)] + ArmsOf(c.arms)
  }

  lemma IfBlockCut(c: Cmd)
    requires CmdValid(c) && c.If?
    ensures BlockSlice(CmdLines(c)) ==>
              IfCut(CmdLines(c)) == Some(Cut(BranchesOf(IfArms(c)), CmdsLines(ElseOf(c.arms))))
    ensures ArmListValid(IfArms(c), ElseOf(c.arms))
  {
    IfHeader(c);
    IfTree(c, Condition(c.header.reading.rest, c.more));
  }

  /** The first half of `exec_if`: the condition, then the branches. */
  method CutBlock(slice: seq<Line>) returns (cut: Option<Cut>)
    requires BlockSlice(slice)
    ensures cut == IfCut(slice)
    ensures cut.Some? ==> |cut.value.orelse| < |slice|
    ensures cut.Some? ==> forall k :: 0 <= k < |cut.value.branches| ==> |cut.value.branches[k].lines| < |slice|
  {
    var cond, i := TakeCondition(slice, 1, slice[0].reading.rest, ThenLine);
    if i == |slice| || Blank(cond) {
      cut := None;
    } else {
      cut := CutIf(slice, i + 1, cond);
    }
  }

  class Shell {
    const w: World
    var trace: seq<Event>
    var lastRc: int
    var loopLevel: nat

    constructor (w: World, lastRc: int)
      ensures this.w == w && this.lastRc == lastRc && trace == [] && loopLevel == 1
    {
      this.w, this.lastRc, this.trace, this.loopLevel := w, lastRc, [], 1;
    }

    ghost function Now(): State
      reads this
    {
      State(trace, lastRc)
    }

    /** Runs a simple command and keeps its code. */
    method ExecuteLine(line: string)
      modifies this`trace, this`lastRc
      ensures Now() == RunLine(w, line, old(Now()))
    {
      lastRc := w.run(trace, line, lastRc);
      trace := trace + [Ran(line, lastRc)];
    }

    method SyntaxError() returns (r: Option<int>)
      modifies this`lastRc
      ensures r == Some(2) && lastRc == 2
    {
      lastRc := 2;
      r := Some(2);
    }

    method SetLoopLevel(n: nat)
      modifies this`loopLevel
      ensures loopLevel == if n > 1 then n else 1
    {
      loopLevel := if n > 1 then n else 1;
    }

    method ConsumeLoopLevel() returns (propagate: bool)
      modifies this`loopLevel
      ensures propagate <==> old(loopLevel) > 1
      ensures loopLevel == if propagate then old(loopLevel) - 1 else 1
    {
      if loopLevel > 1 {
        loopLevel := loopLevel - 1;
        propagate := true;
      } else {
        loopLevel := 1;
        propagate := false;
      }
    }

    /** What a loop does after its body has returned `rc`; it goes on unless `r` is given. */
    method AfterRound(rc: Option<int>, ghost d: Option<Done>) returns (leave: bool, r: Option<int>)
      requires d.Some? ==> w.reach.Innermost? && Reports(rc, Now(), loopLevel, d.value)
      modifies this`loopLevel
      ensures d.Some? && LeaveLoop(w, d.value).None? ==> !leave
      ensures d.Some? && LeaveLoop(w, d.value).Some? ==>
                leave && Reports(r, Now(), loopLevel, LeaveLoop(w, d.value).value)
    {
      leave, r := true, rc;
      if rc == Some(RC_BREAK) {
        var propagate := ConsumeLoopLevel();
        r := Some(if propagate then RC_BREAK else lastRc);
      } else if rc.Some? && rc != Some(RC_RETURN) && rc != Some(RC_INTERRUPT) {
        leave := false;
      }
    }

    /** `exec_lines`. Given the program that the lines stand for, it does what the program means. */
    method ExecLines(lines: seq<Line>, fuel: nat, ghost prog: Option<Cmds>) returns (r: Option<int>)
      requires Stands(w, prog, lines, lastRc)
      modifies this
      ensures prog.Some? ==> Reports(r, Now(), loopLevel, RunCmds(w, prog.value, old(Now()), fuel))
      decreases fuel, |lines|, 5
    {
      var i := 0;
      ghost var rest := prog;
      assert lines[0..] == lines;
      while i < |lines|
        invariant i <= |lines| && rest.Some? == prog.Some?
        invariant Stands(w, rest, lines[i..], lastRc)
        invariant prog.Some? ==> RunCmds(w, prog.value, old(Now()), fuel) == RunCmds(w, rest.value, Now(), fuel)
        decreases |lines| - i
      {
        var stop, code, next := ExecOne(lines, i, fuel, rest);
        if stop {
          return code;
        }
        rest := if rest.Some? then Some(rest.value.tail) else None;
        i := next;
      }
      r := Some(lastRc);
    }

    /** One round of `exec_lines`: a line, or a block from its first to its last line. */
    method ExecOne(lines: seq<Line>, i: nat, fuel: nat, ghost rest: Option<Cmds>)
      returns (stop: bool, r: Option<int>, next: nat)
      requires i < |lines| && Stands(w, rest, lines[i..], lastRc)
      modifies this
      ensures i < next <= |lines|
      ensures rest.Some? ==> rest.value.Next?
      ensures rest.Some? ==>
                StepReports(stop, r, Now(), loopLevel, RunCmd(w, rest.value.head, old(Now()), fuel))
      ensures rest.Some? && !stop ==> lines[next..] == CmdsLines(rest.value.tail)
      ensures Unclosed(lines, i) ==> stop && r == Some(2) && Now() == old(Now()).(rc := 2)
      decreases fuel, |lines|, 4
    {
      if rest.Some? {
        FirstCmd(lines, i, rest.value);
        FirstLine(rest.value.head);
      }
      var l := lines[i];
      stop, next := true, i + 1;
      if l.reading.ReturnLine? {
        lastRc := w.run(trace, l.text, lastRc);
        r := Some(RC_RETURN);
      } else if l.reading.BreakOf? {
        SetLoopLevel(l.reading.levels);
        lastRc := 0;
        r := Some(RC_BREAK);
      } else if l.reading.ContinueOf? {
        SetLoopLevel(l.reading.levels);
        lastRc := 0;
        r := Some(RC_CONTINUE);
      } else if l.reading.Opens? {
        stop, r, next := ExecNested(lines, i, fuel, rest);
      } else {
        ExecuteLine(l.text);
        r := Some(lastRc);
        stop := lastRc == RC_BREAK || lastRc == RC_CONTINUE || lastRc == RC_INTERRUPT;
      }
    }

    method ExecNested(lines: seq<Line>, i: nat, fuel: nat, ghost rest: Option<Cmds>)
      returns (stop: bool, r: Option<int>, next: nat)
      requires i < |lines| && lines[i].reading.Opens? && Stands(w, rest, lines[i..], lastRc)
      modifies this
      ensures i < next <= |lines|
      ensures rest.Some? ==> rest.value.Next?
      ensures rest.Some? ==>
                StepReports(stop, r, Now(), loopLevel, RunCmd(w, rest.value.head, old(Now()), fuel))
      ensures rest.Some? && !stop ==> lines[next..] == CmdsLines(rest.value.tail)
      ensures Unclosed(lines, i) ==> stop && r == Some(2) && Now() == old(Now()).(rc := 2)
      decreases fuel, |lines|, 3
    {
      ghost var c := None;
      if rest.Some? {
        FirstCmd(lines, i, rest.value);
        FirstLine(rest.value.head);
        BlockEnd(lines, i, rest.value);
        c := Some(rest.value.head);
      }
      var end := FindBlockEnd(lines, i, Terminator(lines[i].reading.block));
      stop, next := true, i + 1;
      if end.None? {
        r := SyntaxError();
      } else {
        r := ExecBlock(lines[i..end.value + 1], fuel, c);
        next := end.value + 1;
        if r.Some? && r != Some(RC_BREAK) && r != Some(RC_CONTINUE) {
          lastRc := r.value;
          stop := false;
        }
      }
    }

    /** The choice by keyword; a `case` block is one opaque line here. */
    method ExecBlock(slice: seq<Line>, fuel: nat, ghost c: Option<Cmd>) returns (r: Option<int>)
      requires BlockSlice(slice) && StandsBlock(w, c, slice, lastRc)
      modifies this
      ensures c.Some? ==> Reports(r, Now(), loopLevel, RunCmd(w, c.value, old(Now()), fuel))
      decreases fuel, |slice|, 2
    {
      if c.Some? {
        FirstLine(c.value);
      }
      match slice[0].reading.block {
        case IfBlock => r := ExecIf(slice, fuel, c);
        case ForBlock => r := ExecFor(slice, fuel, c);
        case WhileBlock => r := ExecWhile(slice, true, fuel, c);
        case UntilBlock => r := ExecWhile(slice, false, fuel, c);
        case CaseBlock =>
          ExecuteLine(slice[0].text);
          r := Some(lastRc);
      }
    }

    method ExecIf(slice: seq<Line>, fuel: nat, ghost c: Option<Cmd>) returns (r: Option<int>)
      requires BlockSlice(slice) && StandsBlock(w, c, slice, lastRc) && (c.Some? ==> c.value.If?)
      modifies this
      ensures c.Some? ==> Reports(r, Now(), loopLevel, RunCmd(w, c.value, old(Now()), fuel))
      ensures IfCut(slice).None? ==> r == Some(2) && Now() == old(Now()).(rc := 2)
      decreases fuel, |slice|, 1
    {
      var cut := CutBlock(slice);
      ghost var arms, orelse := None, End;
      if c.Some? {
        IfBlockCut(c.value);
        arms, orelse := Some(IfArms(c.value)), ElseOf(c.value.arms);
        ArmListIsIf(w, c.value, Now(), fuel);
      }
      if cut.None? {
        r := SyntaxError();
      } else {
        r := ExecBranches(cut.value, |slice|, fuel, arms, orelse);
      }
    }

    /** Runs the first branch whose condition succeeds, else the else body. */
    method ExecBranches(cut: Cut, size: nat, fuel: nat, ghost arms: Option<seq<Arm>>, ghost orelse: Cmds)
      returns (r: Option<int>)
      requires |cut.orelse| < size && forall k :: 0 <= k < |cut.branches| ==> |cut.branches[k].lines| < size
      requires arms.Some? ==> ArmListValid(arms.value, orelse) && cut == Cut(BranchesOf(arms.value), CmdsLines(orelse))
      requires arms.Some? ==> Tame(w) && TameCode(lastRc)
      modifies this
      ensures arms.Some? ==> Reports(r, Now(), loopLevel, RunArmList(w, arms.value, orelse, old(Now()), fuel))
      decreases fuel, size, 0
    {
      var k := 0;
      while k < |cut.branches|
        invariant k <= |cut.branches|
        invariant arms.Some? ==> TameCode(lastRc)
        invariant arms.Some? ==>
                    RunArmList(w, arms.value, orelse, old(Now()), fuel)
                    == RunArmList(w, arms.value[k..], orelse, Now(), fuel)
      {
        if arms.Some? {
          assert arms.value[k..][0] == arms.value[k] && arms.value[k..][1..] == arms.value[k + 1..];
        }
        ExecuteLine(cut.branches[k].cond);
        if lastRc == 0 {
          r := ExecBody(cut.branches[k].lines, fuel, if arms.Some? then Some(arms.value[k].body) else None);
          return r;
        }
        k := k + 1;
      }
      if cut.orelse != [] {
        r := ExecBody(cut.orelse, fuel, if arms.Some? then Some(orelse) else None);
      } else {
        lastRc := 0;
        r := Some(0);
      }
    }

    /** The lines of a branch; any code but those of `break` and `continue` gives way to the last one. */
    method ExecBody(lines: seq<Line>, fuel: nat, ghost prog: Option<Cmds>) returns (r: Option<int>)
      requires Stands(w, prog, lines, lastRc)
      modifies this
      ensures prog.Some? ==> Reports(r, Now(), loopLevel, RunCmds(w, prog.value, old(Now()), fuel))
      decreases fuel, |lines|, 6
    {
      r := ExecLines(lines, fuel, prog);
      if r.Some? && r != Some(RC_BREAK) && r != Some(RC_CONTINUE) {
        r := Some(lastRc);
      }
    }

    method ExecFor(slice: seq<Line>, fuel: nat, ghost c: Option<Cmd>) returns (r: Option<int>)
      requires BlockSlice(slice) && StandsBlock(w, c, slice, lastRc)
      requires c.Some? ==> c.value.Loop? && c.value.kind == For
      modifies this
      ensures c.Some? ==> Reports(r, Now(), loopLevel, RunCmd(w, c.value, old(Now()), fuel))
      ensures ForName(slice[0].reading.rest) == "" || NoDo(slice) ==> r == Some(2) && Now() == old(Now()).(rc := 2)
      decreases fuel, |slice|, 1
    {
      var name, tail := ForName(slice[0].reading.rest), ForWords(slice[0].reading.rest);
      var cond, i := TakeCondition(slice, 1, "", DoLine);
      if c.Some? {
        LoopHeader(c.value);
      }
      if name == "" || i == |slice| {
        r := SyntaxError();
      } else {
        var words := w.expand(trace, tail, lastRc);
        if words == [] {
          lastRc := 0;
          r := Some(0);
        } else {
          r := ExecRounds(slice[i + 1..|slice| - 1], name, words, fuel, if c.Some? then Some(c.value.body) else None);
        }
      }
    }

    method ExecRounds(body: seq<Line>, name: string, words: seq<string>, fuel: nat, ghost prog: Option<Cmds>)
      returns (r: Option<int>)
      requires Stands(w, prog, body, lastRc)
      modifies this
      ensures prog.Some? ==> Reports(r, Now(), loopLevel, RunFor(w, name, words, prog.value, old(Now()), fuel))
      decreases fuel, |body|, 6
    {
      var k := 0;
      while k < |words|
        invariant k <= |words|
        invariant prog.Some? ==> TameCode(lastRc)
        invariant prog.Some? ==>
                    RunFor(w, name, words, prog.value, old(Now()), fuel)
                    == RunFor(w, name, words[k..], prog.value, Now(), fuel)
      {
        assert words[k..][0] == words[k] && words[k..][1..] == words[k + 1..];
        trace := trace + [SetVar(name, words[k])];
        ghost var d := if prog.Some? then Some(RunCmds(w, prog.value, Now(), fuel)) else None;
        var rc := ExecLines(body, fuel, prog);
        var leave, code := AfterRound(rc, d);
        if leave {
          return code;
        }
        k := k + 1;
      }
      r := Some(lastRc);
    }

    /** `exec_while` and `exec_until`, which differ in the outcome of the condition that goes on. */
    method ExecWhile(slice: seq<Line>, whileTrue: bool, fuel: nat, ghost c: Option<Cmd>) returns (r: Option<int>)
      requires BlockSlice(slice) && StandsBlock(w, c, slice, lastRc)
      requires c.Some? ==> c.value.Loop? && c.value.kind == if whileTrue then While else Until
      modifies this
      ensures c.Some? ==> Reports(r, Now(), loopLevel, RunCmd(w, c.value, old(Now()), fuel))
      ensures NoDo(slice) || Blank(LoopCondition(slice)) ==> r == Some(2) && Now() == old(Now()).(rc := 2)
      decreases fuel, |slice|, 1
    {
      var cond, i := TakeCondition(slice, 1, slice[0].reading.rest, DoLine);
      if c.Some? {
        LoopHeader(c.value);
      }
      if i == |slice| || Blank(cond) {
        r := SyntaxError();
      } else {
        ghost var prog := if c.Some? then Some(c.value.body) else None;
        r := ExecWhileRounds(slice[i + 1..|slice| - 1], whileTrue, cond, fuel, prog);
      }
    }

    method ExecWhileRounds(body: seq<Line>, whileTrue: bool, cond: string, fuel: nat, ghost prog: Option<Cmds>)
      returns (r: Option<int>)
      requires Stands(w, prog, body, lastRc)
      modifies this
      ensures prog.Some? ==> Reports(r, Now(), loopLevel, RunWhile(w, whileTrue, cond, prog.value, old(Now()), fuel))
      decreases fuel, |body|, 6
    {
      var left: nat := fuel;
      while left > 0
        invariant left <= fuel
        invariant prog.Some? ==> TameCode(lastRc)
        invariant prog.Some? ==>
                    RunWhile(w, whileTrue, cond, prog.value, old(Now()), fuel)
                    == RunWhile(w, whileTrue, cond, prog.value, Now(), left)
      {
        left := left - 1;
        ExecuteLine(cond);
        if (lastRc == 0) != whileTrue {
          lastRc := 0;
          return Some(0);
        }
        ghost var d := if prog.Some? then Some(RunCmds(w, prog.value, Now(), left)) else None;
        var rc := ExecLines(body, left, prog);
        var leave, code := AfterRound(rc, d);
        if leave {
          return code;
        }
      }
      r := None;
    }

    /** `execute_block` on normalized lines: `break` and `continue` outside a loop do nothing. */
    method ExecuteBlock(lines: seq<Line>, fuel: nat, ghost prog: Option<Cmds>) returns (r: Option<int>)
      requires Stands(w, prog, lines, lastRc)
      modifies this
      ensures prog.Some? ==>
                var d := RunCmds(w, prog.value, old(Now()), fuel);
                && Now() == (if d.ending.BreakOut? || d.ending.ToNextRound? then d.state.(rc := 0) else d.state)
                && r == if d.ending.OutOfFuel? then None else Some(lastRc)
    {
      if lines == [] {
        r := Some(lastRc);
      } else {
        r := ExecLines(lines, fuel, prog);
        if r == Some(RC_BREAK) || r == Some(RC_CONTINUE) {
          lastRc := 0;
        }
        if r.Some? {
          r := Some(lastRc);
        }
      }
    }
  }
}
