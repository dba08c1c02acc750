/** Running the text of a script: normalize it, read its lines, execute them
    (src/applets/core/shell/compound.rs). */
module ShellRun {
  import opened Prelude
  import opened ShellLines
  import opened Compound
  import opened Normalize
  import opened Readings
  import opened CompoundExec
  import opened FlowLevels
  import opened BreakLevels

  method ReadLines(texts: seq<string>) returns (lines: seq<Line>)
    ensures lines == ReadAll(texts)
  {
    lines := [];
    for i := 0 to |texts|
      invariant lines == ReadAll(texts[..i])
    {
      assert texts[..i + 1] == texts[..i] + [texts[i]];
      assert ReadAll(texts[..i + 1]) == ReadAll(texts[..i]) + [Read(texts[i])];
      lines := lines + [Read(texts[i])];
    }
    assert texts[..|texts|] == texts;
  }

  /** `execute_block` from the text on: for any printing of any tree it does what the tree means. */
  method ExecuteText(sh: Shell, text: seq<string>, fuel: nat, ghost prog: Option<Cmds>, ghost groups: seq<seq<string>>)
    returns (r: Option<int>)
    requires prog.Some? ==> CmdsValid(prog.value) && CmdsFaithful(prog.value) && Prints(text, groups, prog.value)
    requires prog.Some? ==> Tame(sh.w) && TameCode(sh.lastRc)
    modifies sh
    ensures prog.Some? ==>
              var d := RunCmds(sh.w, prog.value, old(sh.Now()), fuel);
              && sh.Now() == (if d.ending.BreakOut? || d.ending.ToNextRound? then d.state.(rc := 0) else d.state)
              && r == if d.ending.OutOfFuel? then None else Some(sh.lastRc)
  {
    var texts := NormalizeText(text);
    var lines := ReadLines(texts);
    if prog.Some? {
      PrintedIsTree(text, groups, prog.value);
    }
    r := sh.ExecuteBlock(lines, fuel, prog);
  }

  /** The level is the one that the text gives: a run that comes to the line `break N` inside at least
      N loops leaves exactly N of them, one if N is zero. */
  lemma BreakTextLeaves(w: World, s: Spot, steps: seq<BreakLevels.Step>, end: Spot, n: nat)
    requires n < 0x1_0000_0000_0000_0000
    requires FollowAll(w, s, steps) == Some(end)
    requires end.cmds.Next? && end.cmds.head == Flow(Read("break " + Decimal(n)))
    requires steps != [] && steps[0].IntoRound? && Loops(steps) == if n > 1 then n else 1
    ensures RunFrom(w, s) == RunCmds(w, s.cmds.tail, end.state.(rc := 0), s.fuel)
  {
    LevelOfDecimal(n);
    BreakLeavesExactly(w, s, steps, end);
  }
}
