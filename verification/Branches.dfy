/** Cutting an `if` block into its branches by a depth counter, as `exec_if` does
    (src/applets/core/shell/compound.rs). */
module Branches {
  import opened Prelude
  import opened ShellLines
  import opened Compound

  /** A condition with the lines to run if it holds. */
  datatype Branch = Branch(cond: string, lines: seq<Line>)

  /** The variables of the cutting loop. */
  datatype Scan = Scan(done: seq<Branch>, cond: string, body: seq<Line>, inElse: bool, depth: nat)

  datatype Cut = Cut(branches: seq<Branch>, orelse: seq<Line>)

  /** The number of lines before the first one read as `stop`. */
  function LinesBefore(lines: seq<Line>, stop: Reading): (n: nat)
    ensures n <= |lines|
    ensures forall k :: 0 <= k < n ==> lines[k].reading != stop
    ensures n < |lines| ==> lines[n].reading == stop
  {
    if lines == [] || lines[0].reading == stop then 0 else 1 + LinesBefore(lines[1..], stop)
  }

  lemma {:induction false} LinesBeforeStop(m: seq<Line>, at: Line, rest: seq<Line>, stop: Reading)
    requires at.reading == stop && forall k :: 0 <= k < |m| ==> m[k].reading != stop
    ensures LinesBefore(m + [at] + rest, stop) == |m|
    decreases |m|
  {
    if m != [] {
      assert (m + [at] + rest)[1..] == m[1..] + [at] + rest;
      LinesBeforeStop(m[1..], at, rest, stop);
    }
  }

  /** The depth after a line inside the block. */
  function NextDepth(l: Line, depth: nat): nat {
    if l.reading.Opens? then depth + 1
    else if depth > 0 && l.reading.Closes? then depth - 1
    else depth
  }

  /** The variables after one branch has ended and the next has begun. */
  function NextBranch(s: Scan, cond: string, inElse: bool): Scan {
    Scan(s.done + [Branch(s.cond, s.body)], cond, [], inElse, 0)
  }

  /** The variables after the lines `m` have been taken into the body. */
  function Taken(s: Scan, m: seq<Line>, depth: nat): Scan {
    s.(body := s.body + m, depth := depth)
  }

  /** The rest of the cutting loop; `None` is a syntax error. */
  function CutFrom(rest: seq<Line>, s: Scan): Option<Scan>
    decreases |rest|
  {
    if rest == [] then Some(s)
    else
      var l := rest[0];
      if s.depth == 0 && l.reading == Closes(Fi) then Some(s)
      else if s.depth == 0 && l.reading.ElifLine? then
        var n := LinesBefore(rest[1..], ThenLine);
        if s.inElse || n == |rest| - 1 then None
        else CutFrom(rest[n + 2..], NextBranch(s, Condition(l.reading.cond, rest[1..n + 1]), false))
      else if s.depth == 0 && l.reading.ElseLine? then
        if s.inElse then None
        else CutFrom(rest[1..], NextBranch(s, "", true))
      else CutFrom(rest[1..], Taken(s, [l], NextDepth(l, s.depth)))
  }

  /** What is left when the loop ends: the last branch, or the else body. */
  function Finish(s: Scan): Cut {
    if s.inElse then Cut(s.done, s.body)
    else if s.cond != "" then Cut(s.done + [Branch(s.cond, s.body)], [])
    else Cut(s.done, [])
  }

  function CutBranches(rest: seq<Line>, cond: string): Option<Cut> {
    match CutFrom(rest, Scan([], cond, [], false, 0))
    case Some(s) => Some(Finish(s))
    case None => None
  }

  lemma ConditionStep(lines: seq<Line>, start: nat, i: nat, cond: string, stop: Reading)
    requires start <= i < |lines| && lines[i].reading != stop
    ensures LinesBefore(lines[i..], stop) == 1 + LinesBefore(lines[i + 1..], stop)
    ensures Condition(cond, lines[start..i + 1]) == Condition(cond, lines[start..i]) + "; " + lines[i].text
  {
    assert lines[i..][1..] == lines[i + 1..];
    assert lines[start..i + 1] == lines[start..i] + [lines[i]];
    ConditionAppend(cond, lines[start..i], lines[i]);
  }

  /** The loop that joins the further lines of a condition. */
  method TakeCondition(lines: seq<Line>, start: nat, cond: string, stop: Reading) returns (text: string, i: nat)
    requires start <= |lines|
    ensures i == start + LinesBefore(lines[start..], stop) && i <= |lines|
    ensures text == Condition(cond, lines[start..i])
  {
    text, i := cond, start;
    while i < |lines| && lines[i].reading != stop
      invariant start <= i <= |lines|
      invariant i + LinesBefore(lines[i..], stop) == start + LinesBefore(lines[start..], stop)
      invariant text == Condition(cond, lines[start..i])
    {
      ConditionStep(lines, start, i, cond, stop);
      text := text + "; " + lines[i].text;
      i := i + 1;
    }
  }

  lemma {:induction false} ConditionAppend(cond: string, m: seq<Line>, l: Line)
    ensures Condition(cond, m + [l]) == Condition(cond, m) + "; " + l.text
    decreases |m|
  {
    if m == [] {
      assert [l][1..] == [];
      assert m + [l] == [l];
      assert Condition(cond, [l]) == Condition(cond + "; " + l.text, []);
    } else {
      assert (m + [l])[1..] == m[1..] + [l];
      ConditionAppend(cond + "; " + m[0].text, m[1..], l);
    }
  }

  /** Every line that a cut hands out comes from the lines cut. */
  ghost predicate Fits(s: Scan, used: nat) {
    && |s.body| <= used
    && forall k :: 0 <= k < |s.done| ==> |s.done[k].lines| <= used
  }

  lemma FitsNext(s: Scan, used: nat, cond: string, inElse: bool, more: nat)
    requires Fits(s, used) && used <= more
    ensures Fits(NextBranch(s, cond, inElse), more)
  {
  }

  lemma ElifSlices(lines: seq<Line>, i: nat, at: nat)
    requires i < at < |lines|
    ensures lines[i..][at - i + 1..] == lines[at + 1..] && lines[i..][1..at - i] == lines[i + 1..at]
  {
  }

  /** The rest of the loop from line `i` on. */
  function CutRest(lines: seq<Line>, i: nat, s: Scan): Option<Scan>
    requires i <= |lines|
  {
    CutFrom(lines[i..], s)
  }

  /** An `elif` line with its condition: the next branch and where it starts. */
  method TakeElif(lines: seq<Line>, i: nat, s: Scan) returns (next: Option<Scan>, after: nat)
    requires i < |lines| && lines[i].reading.ElifLine?
    ensures i < after <= |lines| + 1
    ensures !s.inElse ==> after == i + 2 + LinesBefore(lines[i + 1..], ThenLine)
    ensures next.None? <==> s.inElse || after > |lines|
    ensures next.Some? ==>
      next.value == NextBranch(s, Condition(lines[i].reading.cond, lines[i + 1..after - 1]), false)
  {
    if s.inElse {
      return None, i + 1;
    }
    var text, at := TakeCondition(lines, i + 1, lines[i].reading.cond, ThenLine);
    next := if at == |lines| then None else Some(NextBranch(s, text, false));
    after := at + 1;
  }

  lemma ElifInElse(lines: seq<Line>, i: nat, s: Scan)
    requires i < |lines| && s.depth == 0 && lines[i].reading.ElifLine? && s.inElse
    ensures CutRest(lines, i, s).None?
  {
    assert lines[i..][0] == lines[i];
  }

  lemma ElifCut(lines: seq<Line>, i: nat, s: Scan, next: Scan, after: nat)
    requires i + 1 < after <= |lines| && s.depth == 0 && !s.inElse && lines[i].reading.ElifLine?
    requires after == i + 2 + LinesBefore(lines[i + 1..], ThenLine)
    requires next == NextBranch(s, Condition(lines[i].reading.cond, lines[i + 1..after - 1]), false)
    ensures CutRest(lines, i, s) == CutRest(lines, after, next)
  {
    var rest, n := lines[i..], after - i - 2;
    assert rest[1..] == lines[i + 1..] && rest[0] == lines[i];
    ElifSlices(lines, i, after - 1);
    assert rest[n + 2..] == lines[after..] && rest[1..n + 1] == lines[i + 1..after - 1];
    CutAtElifLine(rest, s, n);
  }

  lemma ElifFails(lines: seq<Line>, i: nat, s: Scan)
    requires i < |lines| && s.depth == 0 && lines[i].reading.ElifLine?
    requires i + 1 + LinesBefore(lines[i + 1..], ThenLine) == |lines|
    ensures CutRest(lines, i, s).None?
  {
    assert lines[i..][1..] == lines[i + 1..] && lines[i..][0] == lines[i];
  }

  /** An `elif` line between the branches whose condition is `n` further lines long. */
  lemma CutAtElifLine(rest: seq<Line>, s: Scan, n: nat)
    requires rest != [] && s.depth == 0 && !s.inElse && rest[0].reading.ElifLine?
    requires n == LinesBefore(rest[1..], ThenLine) && n < |rest| - 1
    ensures CutFrom(rest, s)
            == CutFrom(rest[n + 2..], NextBranch(s, Condition(rest[0].reading.cond, rest[1..n + 1]), false))
  {
  }

  /** A line other than `elif` between the branches. */
  lemma CutLine(lines: seq<Line>, i: nat, s: Scan)
    requires i < |lines|
    ensures var l := lines[i];
      && (s.depth == 0 && l.reading == Closes(Fi) ==> CutRest(lines, i, s) == Some(s))
      && (s.depth == 0 && l.reading.ElseLine? ==>
            CutRest(lines, i, s) == if s.inElse then None else CutRest(lines, i + 1, NextBranch(s, "", true)))
      && (Kept(l, s.depth) ==>
            CutRest(lines, i, s) == CutRest(lines, i + 1, Taken(s, [l], NextDepth(l, s.depth))))
  {
    assert lines[i..][0] == lines[i] && lines[i..][1..] == lines[i + 1..];
  }

  /** What the cutting loop leaves, found line by line. */
  method CutLoop(lines: seq<Line>, start: nat, s0: Scan) returns (last: Option<Scan>)
    requires start <= |lines| && Fits(s0, 0)
    ensures last == CutRest(lines, start, s0)
    ensures last.Some? ==> Fits(last.value, |lines| - start)
  {
    var s, i := s0, start;
    while i < |lines|
      invariant start <= i <= |lines| && Fits(s, i - start)
      invariant CutRest(lines, start, s0) == CutRest(lines, i, s)
    {
      var l := lines[i];
      CutLine(lines, i, s);
      if s.depth == 0 && l.reading == Closes(Fi) {
        return Some(s);
      } else if s.depth == 0 && l.reading.ElifLine? {
        var next, after := TakeElif(lines, i, s);
        if next.None? {
          if s.inElse { ElifInElse(lines, i, s); } else { ElifFails(lines, i, s); }
          return None;
        }
        ElifCut(lines, i, s, next.value, after);
        FitsNext(s, i - start, next.value.cond, false, after - start);
        s, i := next.value, after;
      } else if s.depth == 0 && l.reading.ElseLine? {
        if s.inElse {
          return None;
        }
        FitsNext(s, i - start, "", true, i + 1 - start);
        s, i := NextBranch(s, "", true), i + 1;
      } else {
        s, i := Taken(s, [l], NextDepth(l, s.depth)), i + 1;
      }
    }
    assert CutRest(lines, i, s) == Some(s);
    last := Some(s);
  }

  method CutIf(lines: seq<Line>, start: nat, cond: string) returns (cut: Option<Cut>)
    requires start <= |lines|
    ensures cut == CutBranches(lines[start..], cond)
    ensures cut.Some? ==> |cut.value.orelse| <= |lines| - start
    ensures cut.Some? ==> forall k :: 0 <= k < |cut.value.branches| ==> |cut.value.branches[k].lines| <= |lines| - start
  {
    var last := CutLoop(lines, start, Scan([], cond, [], false, 0));
    match last
    case None => cut := None;
    case Some(s) => cut := Some(Finish(s));
  }

  // ----- cutting the lines of a tree gives back its branches

  /** A branch of a tree. */
  datatype Arm = Arm(cond: string, body: Cmds)

  function ArmsOf(arms: Arms): seq<Arm> {
    match arms
    case NoElse => []
    case Else(_) => []
    case Elif(h, m, b, rest) =>
      [Arm(Condition(if h.reading.ElifLine? then h.reading.cond else "", m), b)] + ArmsOf(rest)
  }

  function ElseOf(arms: Arms): Cmds {
    match arms case NoElse => End case Else(b) => b case Elif(_, _, _, rest) => ElseOf(rest)
  }

  function BranchesOf(arms: seq<Arm>): (b: seq<Branch>)
    ensures |b| == |arms| && forall k :: 0 <= k < |b| ==> b[k] == Branch(arms[k].cond, CmdsLines(arms[k].body))
  {
    seq(|arms|, k requires 0 <= k < |arms| => Branch(arms[k].cond, CmdsLines(arms[k].body)))
  }

  /** A line that the loop takes into the body. */
  predicate Kept(l: Line, depth: nat) {
    depth > 0 || (l.reading != Closes(Fi) && !l.reading.ElifLine? && !l.reading.ElseLine?)
  }

  lemma TakenTwice(s: Scan, m: seq<Line>, mid: nat, more: seq<Line>, depth: nat)
    ensures Taken(Taken(s, m, mid), more, depth) == Taken(s, m + more, depth)
  {
    assert s.body + m + more == s.body + (m + more);
  }

  lemma CutKeeps(l: Line, rest: seq<Line>, s: Scan)
    requires Kept(l, s.depth)
    ensures CutFrom([l] + rest, s) == CutFrom(rest, Taken(s, [l], NextDepth(l, s.depth)))
  {
    assert ([l] + rest)[1..] == rest;
  }

  lemma {:induction false} CutKeepsLines(m: seq<Line>, rest: seq<Line>, s: Scan)
    requires s.depth > 0 && forall i :: 0 <= i < |m| ==> Neutral(m[i])
    ensures CutFrom(m + rest, s) == CutFrom(rest, Taken(s, m, s.depth))
    decreases |m|
  {
    if m == [] {
      assert m + rest == rest && s.body + m == s.body;
    } else {
      assert m + rest == [m[0]] + (m[1..] + rest);
      CutKeeps(m[0], m[1..] + rest, s);
      CutKeepsLines(m[1..], rest, Taken(s, [m[0]], s.depth));
      TakenTwice(s, [m[0]], s.depth, m[1..], s.depth);
      assert [m[0]] + m[1..] == m;
    }
  }

  lemma {:induction false} CutKeepsCmds(cs: Cmds, rest: seq<Line>, s: Scan)
    requires CmdsValid(cs)
    ensures CutFrom(CmdsLines(cs) + rest, s) == CutFrom(rest, Taken(s, CmdsLines(cs), s.depth))
    decreases cs, 0
  {
    match cs
    case End =>
      assert CmdsLines(cs) + rest == rest && s.body + [] == s.body;
    case Next(c, tail) =>
      assert CmdsLines(cs) + rest == CmdLines(c) + (CmdsLines(tail) + rest);
      CutKeepsCmd(c, CmdsLines(tail) + rest, s);
      CutKeepsCmds(tail, rest, Taken(s, CmdLines(c), s.depth));
      TakenTwice(s, CmdLines(c), s.depth, CmdsLines(tail), s.depth);
  }

  lemma BlockLines(c: Cmd)
    requires c.If? || c.Loop?
    ensures c.If? ==> CmdLines(c) == [c.header] + ((c.more + [THEN]) + CmdsLines(c.body) + ArmsLines(c.arms))
    ensures c.Loop? ==> CmdLines(c) == [c.header] + ((c.more + [DO]) + CmdsLines(c.body) + [DONE])
  {
  }

  /** A nested command goes into the body as it is, whatever the depth. */
  lemma {:induction false} CutKeepsCmd(c: Cmd, rest: seq<Line>, s: Scan)
    requires CmdValid(c)
    ensures CutFrom(CmdLines(c) + rest, s) == CutFrom(rest, Taken(s, CmdLines(c), s.depth))
    decreases c, 1
  {
    if c.If? {
      BlockLines(c);
      CutKeepsIf(c, rest, s);
    } else if c.Loop? {
      BlockLines(c);
      CutKeepsLoop(c, rest, s);
    } else {
      CutKeeps(c.line, rest, s);
    }
  }

  lemma {:induction false} CutKeepsIf(c: Cmd, rest: seq<Line>, s: Scan)
    requires CmdValid(c) && c.If?
    ensures var m := [c.header] + ((c.more + [THEN]) + CmdsLines(c.body) + ArmsLines(c.arms));
            CutFrom(m + rest, s) == CutFrom(rest, Taken(s, m, s.depth))
    decreases c, 0
  {
    var h, m := c.header, c.more + [THEN];
    var inside := (m + CmdsLines(c.body)) + ArmsLines(c.arms);
    assert [h] + inside + rest == [h] + (inside + rest);
    CutKeeps(h, inside + rest, s);
    CutKeepsInside(c, m, rest, Taken(s, [h], s.depth + 1));
    TakenTwice(s, [h], s.depth + 1, inside, s.depth);
  }

  lemma {:induction false} CutKeepsInside(c: Cmd, m: seq<Line>, rest: seq<Line>, s: Scan)
    requires c.If? && CmdsValid(c.body) && ArmsValid(c.arms)
    requires s.depth > 0 && forall i :: 0 <= i < |m| ==> Neutral(m[i])
    ensures var inside := (m + CmdsLines(c.body)) + ArmsLines(c.arms);
            CutFrom(inside + rest, s) == CutFrom(rest, Taken(s, inside, s.depth - 1))
    decreases c, -1
  {
    var head, tail := m + CmdsLines(c.body), ArmsLines(c.arms);
    assert (head + tail) + rest == head + (tail + rest);
    CutKeepsBody(m, c.body, tail + rest, s);
    CutKeepsArms(c.arms, rest, Taken(s, head, s.depth));
    TakenTwice(s, head, s.depth, tail, s.depth - 1);
  }

  lemma {:induction false} CutKeepsLoop(c: Cmd, rest: seq<Line>, s: Scan)
    requires CmdValid(c) && c.Loop?
    ensures var m := [c.header] + ((c.more + [DO]) + CmdsLines(c.body) + [DONE]);
            CutFrom(m + rest, s) == CutFrom(rest, Taken(s, m, s.depth))
    decreases c, 0
  {
    var h, m, b := c.header, c.more + [DO], c.body;
    var head := m + CmdsLines(b);
    assert [h] + (head + [DONE]) + rest == [h] + (head + ([DONE] + rest));
    CutKeeps(h, head + ([DONE] + rest), s);
    var inner := Taken(s, [h], s.depth + 1);
    CutKeepsBody(m, b, [DONE] + rest, inner);
    CutKeeps(DONE, rest, Taken(inner, head, s.depth + 1));
    TakenTwice(inner, head, s.depth + 1, [DONE], s.depth);
    TakenTwice(s, [h], s.depth + 1, head + [DONE], s.depth);
  }

  lemma {:induction false} CutKeepsBody(m: seq<Line>, b: Cmds, rest: seq<Line>, s: Scan)
    requires CmdsValid(b) && s.depth > 0 && forall i :: 0 <= i < |m| ==> Neutral(m[i])
    ensures CutFrom(m + CmdsLines(b) + rest, s) == CutFrom(rest, Taken(s, m + CmdsLines(b), s.depth))
    decreases b, 1
  {
    assert m + CmdsLines(b) + rest == m + (CmdsLines(b) + rest);
    CutKeepsLines(m, CmdsLines(b) + rest, s);
    CutKeepsCmds(b, rest, Taken(s, m, s.depth));
    TakenTwice(s, m, s.depth, CmdsLines(b), s.depth);
  }

  lemma {:induction false} CutKeepsArms(arms: Arms, rest: seq<Line>, s: Scan)
    requires ArmsValid(arms) && s.depth > 0
    ensures CutFrom(ArmsLines(arms) + rest, s) == CutFrom(rest, Taken(s, ArmsLines(arms), s.depth - 1))
    decreases arms, 0
  {
    match arms
    case NoElse =>
      CutKeeps(FI, rest, s);
    case Else(b) =>
      assert ArmsLines(arms) + rest == [ELSE] + CmdsLines(b) + ([FI] + rest);
      CutKeepsBody([ELSE], b, [FI] + rest, s);
      CutKeeps(FI, rest, Taken(s, [ELSE] + CmdsLines(b), s.depth));
      TakenTwice(s, [ELSE] + CmdsLines(b), s.depth, [FI], s.depth - 1);
    case Elif(h, m, b, more) =>
      var head := [h] + m + [THEN];
      assert ArmsLines(arms) + rest == head + CmdsLines(b) + (ArmsLines(more) + rest);
      CutKeepsBody(head, b, ArmsLines(more) + rest, s);
      CutKeepsArms(more, rest, Taken(s, head + CmdsLines(b), s.depth));
      TakenTwice(s, head + CmdsLines(b), s.depth, ArmsLines(more), s.depth - 1);
  }

  lemma CutAtElse(rest: seq<Line>, s: Scan)
    requires s.depth == 0 && !s.inElse
    ensures CutFrom([ELSE] + rest, s) == CutFrom(rest, NextBranch(s, "", true))
  {
    assert ([ELSE] + rest)[1..] == rest;
  }

  lemma CutAtElif(h: Line, m: seq<Line>, rest: seq<Line>, s: Scan)
    requires s.depth == 0 && !s.inElse && h.reading.ElifLine? && forall i :: 0 <= i < |m| ==> m[i].reading != ThenLine
    ensures CutFrom([h] + (m + [THEN] + rest), s) == CutFrom(rest, NextBranch(s, Condition(h.reading.cond, m), false))
  {
    var lines := [h] + (m + [THEN] + rest);
    assert lines[1..] == m + [THEN] + rest;
    LinesBeforeStop(m, THEN, rest, ThenLine);
    assert lines[|m| + 2..] == rest && lines[1..|m| + 1] == m;
    CutAtElifLine(lines, s, |m|);
  }

  lemma CutAtFi(s: Scan)
    requires s.depth == 0
    ensures CutFrom([FI], s) == Some(s)
  {
  }

  /** What is left at the end when the branches in `arms` follow the current one. */
  function Collected(arms: Arms, s: Scan): Cut {
    Cut(s.done + [Branch(s.cond, s.body)] + BranchesOf(ArmsOf(arms)), CmdsLines(ElseOf(arms)))
  }

  predicate Collects(arms: Arms, s: Scan) {
    CutFrom(ArmsLines(arms), s).Some? && Finish(CutFrom(ArmsLines(arms), s).value) == Collected(arms, s)
  }

  /** From the end of a branch on, the loop collects exactly the remaining branches. */
  lemma {:induction false} CutArms(arms: Arms, s: Scan)
    requires ArmsValid(arms) && s.depth == 0 && !s.inElse && s.cond != ""
    ensures Collects(arms, s)
    decreases arms
  {
    match arms
    case NoElse =>
      CutAtFi(s);
      assert s.done + [Branch(s.cond, s.body)] + BranchesOf([]) == s.done + [Branch(s.cond, s.body)];
    case Else(b) => CutElse(b, s);
    case Elif(h, m, b, more) =>
      var inner := NextBranch(s, Condition(h.reading.cond, m), false);
      CutElif(h, m, b, more, s);
      CutArms(more, Taken(inner, CmdsLines(b), 0));
      CollectedElif(h, m, b, more, s);
  }

  lemma CutElse(b: Cmds, s: Scan)
    requires CmdsValid(b) && s.depth == 0 && !s.inElse
    ensures Collects(Else(b), s)
  {
    var inner := NextBranch(s, "", true);
    assert ArmsLines(Else(b)) == [ELSE] + (CmdsLines(b) + [FI]);
    CutAtElse(CmdsLines(b) + [FI], s);
    CutKeepsCmds(b, [FI], inner);
    CutAtFi(Taken(inner, CmdsLines(b), 0));
    CollectedElse(b, s);
  }

  lemma CollectedElse(b: Cmds, s: Scan)
    ensures Finish(Taken(NextBranch(s, "", true), CmdsLines(b), 0)) == Collected(Else(b), s)
  {
    assert [] + CmdsLines(b) == CmdsLines(b);
    assert s.done + [Branch(s.cond, s.body)] + BranchesOf([]) == s.done + [Branch(s.cond, s.body)];
  }

  lemma CutElif(h: Line, m: seq<Line>, b: Cmds, more: Arms, s: Scan)
    requires ArmsValid(Elif(h, m, b, more)) && s.depth == 0 && !s.inElse
    ensures CutFrom(ArmsLines(Elif(h, m, b, more)), s)
            == CutFrom(ArmsLines(more), Taken(NextBranch(s, Condition(h.reading.cond, m), false), CmdsLines(b), 0))
  {
    var tail := CmdsLines(b) + ArmsLines(more);
    assert ArmsLines(Elif(h, m, b, more)) == [h] + (m + [THEN] + tail);
    CutAtElif(h, m, tail, s);
    CutKeepsCmds(b, ArmsLines(more), NextBranch(s, Condition(h.reading.cond, m), false));
  }

  lemma CollectedElif(h: Line, m: seq<Line>, b: Cmds, more: Arms, s: Scan)
    requires h.reading.ElifLine?
    ensures Collected(more, Taken(NextBranch(s, Condition(h.reading.cond, m), false), CmdsLines(b), 0))
            == Collected(Elif(h, m, b, more), s)
  {
    var arm := Arm(Condition(h.reading.cond, m), b);
    var here, next := [Branch(s.cond, s.body)], [Branch(arm.cond, CmdsLines(b))];
    assert [] + CmdsLines(b) == CmdsLines(b);
    assert BranchesOf([arm] + ArmsOf(more)) == next + BranchesOf(ArmsOf(more));
    Regroup(s.done + here, next, BranchesOf(ArmsOf(more)));
  }

  lemma Regroup<T>(a: seq<T>, b: seq<T>, c: seq<T>)
    ensures a + b + c == a + (b + c)
  {
  }

  /** The cut of an `if` block is the branches of its tree. */
  lemma CutIsTree(c: Cmd, cond: string)
    requires CmdValid(c) && c.If? && cond != ""
    ensures CutBranches(CmdsLines(c.body) + ArmsLines(c.arms), cond)
            == Some(Cut([Branch(cond, CmdsLines(c.body))] + BranchesOf(ArmsOf(c.arms)), CmdsLines(ElseOf(c.arms))))
  {
    var s := Scan([], cond, [], false, 0);
    CutKeepsCmds(c.body, ArmsLines(c.arms), s);
    assert [] + CmdsLines(c.body) == CmdsLines(c.body);
    CutArms(c.arms, Taken(s, CmdsLines(c.body), 0));
    assert [] + [Branch(cond, CmdsLines(c.body))] == [Branch(cond, CmdsLines(c.body))];
  }

  // ----- running a list of branches

  function RunArmList(w: World, arms: seq<Arm>, orelse: Cmds, st: State, fuel: nat): Done
    decreases |arms|
  {
    if arms == [] then
      if orelse.End? then Done(Normal, st.(rc := 0)) else RunCmds(w, orelse, st, fuel)
    else
      var tested := RunLine(w, arms[0].cond, st);
      if tested.rc == 0 then RunCmds(w, arms[0].body, tested, fuel)
      else RunArmList(w, arms[1..], orelse, tested, fuel)
  }

  lemma {:induction false} ArmListIsArms(w: World, arms: Arms, st: State, fuel: nat)
    requires ArmsValid(arms)
    ensures RunArmList(w, ArmsOf(arms), ElseOf(arms), st, fuel) == RunArms(w, arms, st, fuel)
    decreases arms
  {
    match arms
    case NoElse =>
    case Else(b) =>
    case Elif(h, m, b, rest) =>
      assert ArmsOf(arms)[1..] == ArmsOf(rest);
      ArmListIsArms(w, rest, RunLine(w, Condition(h.reading.cond, m), st), fuel);
  }

  lemma ArmListIsIf(w: World, c: Cmd, st: State, fuel: nat)
    requires CmdValid(c) && c.If?
    ensures var first := Arm(Condition(c.header.reading.rest, c.more), c.body);
            RunArmList(w, [first] + ArmsOf(c.arms), ElseOf(c.arms), st, fuel) == RunCmd(w, c, st, fuel)
  {
    var cond := Condition(c.header.reading.rest, c.more);
    assert ([Arm(cond, c.body)] + ArmsOf(c.arms))[1..] == ArmsOf(c.arms);
    ArmListIsArms(w, c.arms, RunLine(w, cond, st), fuel);
  }
}
