/** What loops and branches do when nothing in them runs, and in which order a `for` takes its words
    (src/applets/core/shell/compound.rs). */
module ShellLaws {
  import opened Prelude
  import opened ShellLines
  import opened Compound

  /** A loop without a round and an `if` without a branch to take end with code 0. The condition has been
      run, the body has not. */
  lemma NothingTaken(w: World, c: Cmd, st: State, fuel: nat)
    requires (c.If? || c.Loop?) && c.header.reading.Opens? && fuel > 0
    ensures var tested := RunLine(w, Condition(c.header.reading.rest, c.more), st);
      && (c.If? && c.arms.NoElse? && tested.rc != 0 ==> RunCmd(w, c, st, fuel) == Done(Normal, tested.(rc := 0)))
      && (c.Loop? && c.kind == While && tested.rc != 0 ==> RunCmd(w, c, st, fuel) == Done(Normal, tested.(rc := 0)))
      && (c.Loop? && c.kind == Until && tested.rc == 0 ==> RunCmd(w, c, st, fuel) == Done(Normal, tested.(rc := 0)))
      && (c.Loop? && c.kind == For && w.expand(st.trace, ForWords(c.header.reading.rest), st.rc) == [] ==>
            RunCmd(w, c, st, fuel) == Done(Normal, st.(rc := 0)))
  {
  }

  /** An `if` runs its first branch after a condition with code 0 and the rest after any other; the `else`
      runs if no condition has code 0. */
  lemma OneBranchTaken(w: World, c: Cmd, st: State, fuel: nat)
    requires c.If? && c.header.reading.Opens?
    ensures var tested := RunLine(w, Condition(c.header.reading.rest, c.more), st);
      && (tested.rc == 0 ==> RunCmd(w, c, st, fuel) == RunCmds(w, c.body, tested, fuel))
      && (tested.rc != 0 && c.arms.Else? && !c.arms.body.End? ==>
            RunCmd(w, c, st, fuel) == RunCmds(w, c.arms.body, tested, fuel))
  {
  }

  /** A `for` whose body never leaves it goes through the words of a list in their order: over two lists
      together it goes through the first and then through the second. */
  lemma {:induction false} ForSplits(w: World, name: string, first: seq<string>, second: seq<string>, b: Cmds,
                                     st: State, fuel: nat)
    requires forall s :: LeaveLoop(w, RunCmds(w, b, s, fuel)).None?
    ensures RunFor(w, name, first + second, b, st, fuel)
            == RunFor(w, name, second, b, RunFor(w, name, first, b, st, fuel).state, fuel)
    decreases |first|
  {
    if first == [] {
      assert first + second == second;
    } else {
      assert (first + second)[1..] == first[1..] + second;
      var d := RunCmds(w, b, st.(trace := st.trace + [SetVar(name, first[0])]), fuel);
      ForSplits(w, name, first[1..], second, b, d.state, fuel);
    }
  }

  /** Over one word it sets the variable to it and runs the body. */
  lemma ForOneWord(w: World, name: string, word: string, b: Cmds, st: State, fuel: nat)
    requires RunCmds(w, b, st.(trace := st.trace + [SetVar(name, word)]), fuel).ending.Normal?
    ensures RunFor(w, name, [word], b, st, fuel)
            == RunCmds(w, b, st.(trace := st.trace + [SetVar(name, word)]), fuel)
  {
    assert [word][1..] == [];
  }
}
