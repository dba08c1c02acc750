/** How far `break N` goes: out of the N innermost loops, or out of all of them if there are fewer
    (POSIX.1-2017, XCU section 2.14, break; src/applets/core/shell/compound.rs). A break may stand
    anywhere: behind other commands, in any branch of an `if`, in any round of any loop. */
module BreakLevels {
  import opened Prelude
  import opened ShellLines
  import opened Compound

  /** A place that a run comes to: what is left of one list of commands, the state, the fuel. */
  datatype Spot = Spot(cmds: Cmds, state: State, fuel: nat)

  /** How a run gets from one place to the next: past a command that ended normally, into the body
      of an `if`, into its branch number k after it, or into the body of a loop after k rounds. */
  datatype Step = Past | IntoThen | IntoArm(k: nat) | IntoRound(k: nat)

  function ArmSpot(w: World, arms: Arms, st: State, fuel: nat, k: nat): Option<Spot> {
    match arms
    case NoElse => None
    case Else(b) => if k == 0 && !b.End? then Some(Spot(b, st, fuel)) else None
    case Elif(h, m, b, rest) =>
      if !h.reading.ElifLine? then None
      else
        var tested := RunLine(w, Condition(h.reading.cond, m), st);
        if tested.rc == 0 then if k == 0 then Some(Spot(b, tested, fuel)) else None
        else if k > 0 then ArmSpot(w, rest, tested, fuel, k - 1)
        else None
  }

  /** The start of the body in round number k, if the rounds before it all go on. */
  function ForSpot(w: World, name: string, words: seq<string>, b: Cmds, st: State, fuel: nat, k: nat): Option<Spot>
    decreases k
  {
    if words == [] then None
    else
      var entry := st.(trace := st.trace + [SetVar(name, words[0])]);
      if k == 0 then Some(Spot(b, entry, fuel))
      else
        var d := RunCmds(w, b, entry, fuel);
        if LeaveLoop(w, d).None? then ForSpot(w, name, words[1..], b, d.state, fuel, k - 1) else None
  }

  function WhileSpot(w: World, whileTrue: bool, cond: string, b: Cmds, st: State, fuel: nat, k: nat): Option<Spot>
    decreases k
  {
    if fuel == 0 then None
    else
      var tested := RunLine(w, cond, st);
      if (tested.rc == 0) != whileTrue then None
      else if k == 0 then Some(Spot(b, tested, fuel - 1))
      else
        var d := RunCmds(w, b, tested, fuel - 1);
        if LeaveLoop(w, d).None? then WhileSpot(w, whileTrue, cond, b, d.state, fuel - 1, k - 1) else None
  }

  function RoundSpot(w: World, c: Cmd, st: State, fuel: nat, k: nat): Option<Spot>
    requires c.Loop?
  {
    if !c.header.reading.Opens? then None
    else if c.kind == For then
      var words := w.expand(st.trace, ForWords(c.header.reading.rest), st.rc);
      ForSpot(w, ForName(c.header.reading.rest), words, c.body, st, fuel, k)
    else WhileSpot(w, c.kind == While, Condition(c.header.reading.rest, c.more), c.body, st, fuel, k)
  }

  /** Where the step leads; nowhere if the run does not take it. */
  function Follow(w: World, s: Spot, step: Step): Option<Spot> {
    if s.cmds.End? then None
    else
      var c := s.cmds.head;
      match step
      case Past =>
        var d := RunCmd(w, c, s.state, s.fuel);
        if d.ending.Normal? then Some(Spot(s.cmds.tail, d.state, s.fuel)) else None
      case IntoThen =>
        if !c.If? || !c.header.reading.Opens? then None
        else
          var tested := RunLine(w, Condition(c.header.reading.rest, c.more), s.state);
          if tested.rc == 0 then Some(Spot(c.body, tested, s.fuel)) else None
      case IntoArm(k) =>
        if !c.If? || !c.header.reading.Opens? then None
        else
          var tested := RunLine(w, Condition(c.header.reading.rest, c.more), s.state);
          if tested.rc == 0 then None else ArmSpot(w, c.arms, tested, s.fuel, k)
      case IntoRound(k) => if c.Loop? then RoundSpot(w, c, s.state, s.fuel, k) else None
  }

  function FollowAll(w: World, s: Spot, steps: seq<Step>): Option<Spot>
    decreases |steps|
  {
    if steps == [] then Some(s)
    else match Follow(w, s, steps[0])
      case None => None
      case Some(next) => FollowAll(w, next, steps[1..])
  }

  /** The number of loops that the steps lead into. */
  function Loops(steps: seq<Step>): nat {
    if steps == [] then 0 else (if steps[0].IntoRound? then 1 else 0) + Loops(steps[1..])
  }

  function RunFrom(w: World, s: Spot): Done {
    RunCmds(w, s.cmds, s.state, s.fuel)
  }

  // ----- one step

  lemma {:induction false} ArmRuns(w: World, arms: Arms, st: State, fuel: nat, k: nat)
    requires ArmSpot(w, arms, st, fuel, k).Some?
    ensures RunArms(w, arms, st, fuel) == RunFrom(w, ArmSpot(w, arms, st, fuel, k).value)
    decreases arms
  {
    if arms.Elif? && k > 0 {
      ArmRuns(w, arms.arms, RunLine(w, Condition(arms.header.reading.cond, arms.more), st), fuel, k - 1);
    }
  }

  /** What a loop makes of a break in its body. */
  function Left(d: Done): Done
    requires d.ending.BreakOut?
  {
    Done(if d.ending.levels > 1 then BreakOut(d.ending.levels - 1) else Normal, d.state)
  }

  lemma {:induction false} ForBreaks(w: World, name: string, words: seq<string>, b: Cmds, st: State, fuel: nat, k: nat)
    requires ForSpot(w, name, words, b, st, fuel, k).Some?
    requires RunFrom(w, ForSpot(w, name, words, b, st, fuel, k).value).ending.BreakOut?
    ensures RunFor(w, name, words, b, st, fuel) == Left(RunFrom(w, ForSpot(w, name, words, b, st, fuel, k).value))
    decreases k
  {
    if k > 0 {
      var d := RunCmds(w, b, st.(trace := st.trace + [SetVar(name, words[0])]), fuel);
      ForBreaks(w, name, words[1..], b, d.state, fuel, k - 1);
    }
  }

  lemma {:induction false} WhileBreaks(w: World, whileTrue: bool, cond: string, b: Cmds, st: State, fuel: nat, k: nat)
    requires WhileSpot(w, whileTrue, cond, b, st, fuel, k).Some?
    requires RunFrom(w, WhileSpot(w, whileTrue, cond, b, st, fuel, k).value).ending.BreakOut?
    ensures RunWhile(w, whileTrue, cond, b, st, fuel)
            == Left(RunFrom(w, WhileSpot(w, whileTrue, cond, b, st, fuel, k).value))
    decreases k
  {
    if k > 0 {
      var d := RunCmds(w, b, RunLine(w, cond, st), fuel - 1);
      WhileBreaks(w, whileTrue, cond, b, d.state, fuel - 1, k - 1);
    }
  }

  lemma RoundBreaks(w: World, c: Cmd, st: State, fuel: nat, k: nat)
    requires c.Loop? && RoundSpot(w, c, st, fuel, k).Some?
    requires RunFrom(w, RoundSpot(w, c, st, fuel, k).value).ending.BreakOut?
    ensures RunCmd(w, c, st, fuel) == Left(RunFrom(w, RoundSpot(w, c, st, fuel, k).value))
  {
    if c.kind == For {
      var words := w.expand(st.trace, ForWords(c.header.reading.rest), st.rc);
      ForBreaks(w, ForName(c.header.reading.rest), words, c.body, st, fuel, k);
    } else {
      WhileBreaks(w, c.kind == While, Condition(c.header.reading.rest, c.more), c.body, st, fuel, k);
    }
  }

  /** A break behind a step that leads into no loop is passed on as it is. */
  lemma StepPasses(w: World, s: Spot, step: Step)
    requires Follow(w, s, step).Some? && !step.IntoRound?
    requires RunFrom(w, Follow(w, s, step).value).ending.BreakOut?
    ensures RunFrom(w, s) == RunFrom(w, Follow(w, s, step).value)
  {
    var c := s.cmds.head;
    if !step.Past? {
      var tested := RunLine(w, Condition(c.header.reading.rest, c.more), s.state);
      if step.IntoArm? {
        ArmRuns(w, c.arms, tested, s.fuel, step.k);
        assert RunCmd(w, c, s.state, s.fuel) == RunArms(w, c.arms, tested, s.fuel);
      } else {
        assert RunCmd(w, c, s.state, s.fuel) == RunCmds(w, c.body, tested, s.fuel);
      }
    }
    assert RunFrom(w, s) == var d := RunCmd(w, c, s.state, s.fuel);
      if d.ending.Normal? then RunCmds(w, s.cmds.tail, d.state, s.fuel) else d;
  }

  /** A break in a round of a loop ends the loop there: it is passed on with one level less, or the
      commands behind the loop run next. */
  lemma StepLeaves(w: World, s: Spot, step: Step)
    requires Follow(w, s, step).Some? && step.IntoRound?
    requires RunFrom(w, Follow(w, s, step).value).ending.BreakOut?
    ensures var d := RunFrom(w, Follow(w, s, step).value);
      RunFrom(w, s) == if d.ending.levels > 1 then Left(d) else RunCmds(w, s.cmds.tail, d.state, s.fuel)
  {
    RoundBreaks(w, s.cmds.head, s.state, s.fuel, step.k);
  }

  // ----- the reach of a break

  /** The run comes to a `break`. */
  predicate AtBreak(s: Spot) {
    s.cmds.Next? && s.cmds.head.Flow? && s.cmds.head.line.reading.BreakOf?
  }

  function LevelsAt(s: Spot): nat
    requires AtBreak(s)
  {
    s.cmds.head.line.reading.levels
  }

  /** With fewer loops around it than its level, `break` passes through all of them: nothing that
      follows on the way runs, and the levels left over are passed on. */
  lemma {:induction false} BreakPasses(w: World, s: Spot, steps: seq<Step>, end: Spot)
    requires FollowAll(w, s, steps) == Some(end) && AtBreak(end) && Loops(steps) < LevelsAt(end)
    ensures RunFrom(w, s) == Done(BreakOut(LevelsAt(end) - Loops(steps)), end.state.(rc := 0))
    decreases |steps|
  {
    if steps == [] {
      assert RunCmd(w, s.cmds.head, s.state, s.fuel) == Done(BreakOut(LevelsAt(s)), s.state.(rc := 0));
    } else {
      var next := Follow(w, s, steps[0]).value;
      BreakPasses(w, next, steps[1..], end);
      if steps[0].IntoRound? {
        StepLeaves(w, s, steps[0]);
      } else {
        StepPasses(w, s, steps[0]);
      }
    }
  }

  /** `break N` inside at least N loops leaves exactly N: seen from the list that holds the N-th
      loop, counted from the inside, what runs next is what follows that loop in the list. */
  lemma BreakLeavesExactly(w: World, s: Spot, steps: seq<Step>, end: Spot)
    requires FollowAll(w, s, steps) == Some(end) && AtBreak(end)
    requires steps != [] && steps[0].IntoRound? && Loops(steps) == LevelsAt(end)
    ensures RunFrom(w, s) == RunCmds(w, s.cmds.tail, end.state.(rc := 0), s.fuel)
  {
    BreakPasses(w, Follow(w, s, steps[0]).value, steps[1..], end);
    StepLeaves(w, s, steps[0]);
  }

  // ----- every break comes from somewhere

  /** The steps lead to a break, and `d` is what it comes to on the way out. */
  predicate Traced(w: World, s: Spot, steps: seq<Step>, end: Spot, d: Done) {
    && FollowAll(w, s, steps) == Some(end) && AtBreak(end)
    && Loops(steps) <= LevelsAt(end)
    && d == Done(BreakOut(LevelsAt(end) - Loops(steps)), end.state.(rc := 0))
  }

  lemma TracedFurther(w: World, s: Spot, step: Step, next: Spot, steps: seq<Step>, end: Spot, d: Done)
    requires Follow(w, s, step) == Some(next) && Traced(w, next, steps, end, d)
    ensures !step.IntoRound? ==> Traced(w, s, [step] + steps, end, d)
    ensures step.IntoRound? && d.ending.levels > 1 ==> Traced(w, s, [step] + steps, end, Left(d))
  {
    assert ([step] + steps)[1..] == steps;
  }

  /** Whenever a run ends on its way out of loops, it has come to a `break`, with as many loops
      around it as are missing from its level: the routes above leave no case out. */
  lemma {:induction false} BreakHasRoute(w: World, s: Spot) returns (steps: seq<Step>, end: Spot)
    requires RunFrom(w, s).ending.BreakOut?
    ensures Traced(w, s, steps, end, RunFrom(w, s))
    decreases s.fuel, s.cmds, 0
  {
    var c := s.cmds.head;
    var d := RunCmd(w, c, s.state, s.fuel);
    if d.ending.Normal? {
      var next := Spot(s.cmds.tail, d.state, s.fuel);
      steps, end := BreakHasRoute(w, next);
      TracedFurther(w, s, Past, next, steps, end, RunFrom(w, next));
      steps := [Past] + steps;
    } else if c.Flow? {
      steps, end := [], s;
    } else if c.If? {
      steps, end := IfRoute(w, s);
    } else if c.Loop? {
      steps, end := LoopRoute(w, s);
    }
  }

  lemma {:induction false} IfRoute(w: World, s: Spot) returns (steps: seq<Step>, end: Spot)
    requires s.cmds.Next? && s.cmds.head.If?
    requires RunCmd(w, s.cmds.head, s.state, s.fuel).ending.BreakOut?
    ensures Traced(w, s, steps, end, RunCmd(w, s.cmds.head, s.state, s.fuel))
    decreases s.fuel, s.cmds.head, 1
  {
    var c := s.cmds.head;
    var tested := RunLine(w, Condition(c.header.reading.rest, c.more), s.state);
    if tested.rc == 0 {
      var next := Spot(c.body, tested, s.fuel);
      steps, end := BreakHasRoute(w, next);
      TracedFurther(w, s, IntoThen, next, steps, end, RunFrom(w, next));
      steps := [IntoThen] + steps;
    } else {
      var k;
      k, steps, end := ArmRoute(w, c.arms, tested, s.fuel);
      var next := ArmSpot(w, c.arms, tested, s.fuel, k).value;
      TracedFurther(w, s, IntoArm(k), next, steps, end, RunArms(w, c.arms, tested, s.fuel));
      steps := [IntoArm(k)] + steps;
    }
  }

  lemma {:induction false} ArmRoute(w: World, arms: Arms, st: State, fuel: nat)
    returns (k: nat, steps: seq<Step>, end: Spot)
    requires RunArms(w, arms, st, fuel).ending.BreakOut?
    ensures ArmSpot(w, arms, st, fuel, k).Some?
    ensures Traced(w, ArmSpot(w, arms, st, fuel, k).value, steps, end, RunArms(w, arms, st, fuel))
    decreases fuel, arms, 0
  {
    k := 0;
    if arms.Else? {
      steps, end := BreakHasRoute(w, Spot(arms.body, st, fuel));
    } else {
      var tested := RunLine(w, Condition(arms.header.reading.cond, arms.more), st);
      if tested.rc == 0 {
        steps, end := BreakHasRoute(w, Spot(arms.body, tested, fuel));
      } else {
        k, steps, end := ArmRoute(w, arms.arms, tested, fuel);
        k := k + 1;
      }
    }
  }

  lemma {:induction false} LoopRoute(w: World, s: Spot) returns (steps: seq<Step>, end: Spot)
    requires s.cmds.Next? && s.cmds.head.Loop?
    requires RunCmd(w, s.cmds.head, s.state, s.fuel).ending.BreakOut?
    ensures Traced(w, s, steps, end, RunCmd(w, s.cmds.head, s.state, s.fuel))
    decreases s.fuel, s.cmds.head, 1
  {
    var c, k := s.cmds.head, 0;
    var rest := c.header.reading.rest;
    if c.kind == For {
      var words := w.expand(s.state.trace, ForWords(rest), s.state.rc);
      k, steps, end := ForRoute(w, ForName(rest), words, c.body, s.state, s.fuel);
    } else {
      k, steps, end := WhileRoute(w, c.kind == While, Condition(rest, c.more), c.body, s.state, s.fuel);
    }
    var next := RoundSpot(w, c, s.state, s.fuel, k).value;
    TracedFurther(w, s, IntoRound(k), next, steps, end, RunFrom(w, next));
    RoundBreaks(w, c, s.state, s.fuel, k);
    steps := [IntoRound(k)] + steps;
  }

  lemma {:induction false} ForRoute(w: World, name: string, words: seq<string>, b: Cmds, st: State, fuel: nat)
    returns (k: nat, steps: seq<Step>, end: Spot)
    requires RunFor(w, name, words, b, st, fuel).ending.BreakOut?
    ensures ForSpot(w, name, words, b, st, fuel, k).Some?
    ensures var next := ForSpot(w, name, words, b, st, fuel, k).value;
            RunFrom(w, next).ending.BreakOut? && RunFrom(w, next).ending.levels > 1
              && Traced(w, next, steps, end, RunFrom(w, next))
    decreases fuel, b, 1 + |words|
  {
    var next := Spot(b, st.(trace := st.trace + [SetVar(name, words[0])]), fuel);
    var d := RunFrom(w, next);
    if LeaveLoop(w, d).Some? {
      k := 0;
      steps, end := BreakHasRoute(w, next);
    } else {
      k, steps, end := ForRoute(w, name, words[1..], b, d.state, fuel);
      k := k + 1;
    }
  }

  lemma {:induction false} WhileRoute(w: World, whileTrue: bool, cond: string, b: Cmds, st: State, fuel: nat)
    returns (k: nat, steps: seq<Step>, end: Spot)
    requires RunWhile(w, whileTrue, cond, b, st, fuel).ending.BreakOut?
    ensures WhileSpot(w, whileTrue, cond, b, st, fuel, k).Some?
    ensures var next := WhileSpot(w, whileTrue, cond, b, st, fuel, k).value;
            RunFrom(w, next).ending.BreakOut? && RunFrom(w, next).ending.levels > 1
              && Traced(w, next, steps, end, RunFrom(w, next))
    decreases fuel, b, 1
  {
    var next := Spot(b, RunLine(w, cond, st), fuel - 1);
    var d := RunFrom(w, next);
    if LeaveLoop(w, d).Some? {
      k := 0;
      steps, end := BreakHasRoute(w, next);
    } else {
      k, steps, end := WhileRoute(w, whileTrue, cond, b, d.state, fuel - 1);
      k := k + 1;
    }
  }
}
