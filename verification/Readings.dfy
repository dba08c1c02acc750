/** How the executor reads a line: its tests on the text, one by one, against the single reading
    that the model of the executor works on (src/applets/core/shell/compound.rs). */
module Readings {
  import opened Prelude
  import opened ShellLines
  import opened Compound
  import opened Normalize

  function BlockWord(w: string): Option<Block> {
    if w == "if" then Some(IfBlock)
    else if w == "for" then Some(ForBlock)
    else if w == "while" then Some(WhileBlock)
    else if w == "until" then Some(UntilBlock)
    else if w == "case" then Some(CaseBlock)
    else None
  }

  function Reads(text: string): Reading {
    var head := Head(text);
    if IsFlow(text, "return") then ReturnLine
    else if IsFlow(text, "break") then BreakOf(LoopCount(text))
    else if IsFlow(text, "continue") then ContinueOf(LoopCount(text))
    else match BlockWord(head)
      case Some(b) => Opens(b, HeaderRest(text, Word(b)))
      case None => ReadsPlain(text)
  }

  function ReadsPlain(text: string): Reading {
    match StripKeyword(text, "elif")
    case Some(rest) => ElifLine(rest)
    case None =>
      if text == "fi" then Closes(Fi)
      else if text == "done" then Closes(DoneCloser)
      else if text == "esac" then Closes(Esac)
      else if text == "then" then ThenLine
      else if text == "do" then DoLine
      else if text == "else" then ElseLine
      else Command
  }

  function Read(text: string): Line {
    Line(text, Reads(text))
  }

  // ----- the first word of a line

  lemma {:induction false} SplitKeepsPrefix(s: string, cur: string, q: Quote)
    ensures cur <= SplitFrom(s, cur, q)[0]
    decreases |s|
  {
    if s == "" {
    } else if q == Double && s[0] == '\\' && |s| > 1 {
      SplitKeepsPrefix(s[2..], cur + s[..2], Double);
    } else if q == Plain && s[0] == ';' {
    } else {
      SplitKeepsPrefix(s[1..], cur + [s[0]], After(q, s[0]));
    }
  }

  lemma {:induction false} PlainBalanced(w: string)
    requires forall i :: 0 <= i < |w| ==> PlainChar(w[i])
    ensures QuoteAfter(w, Plain) == Some(Plain)
    decreases |w|
  {
    if w != "" {
      PlainBalanced(w[1..]);
    }
  }

  lemma SplitAfterBlank(text: string, cur: string)
    requires text != "" && IsSpace(text[0])
    ensures SplitFrom(text, cur, Plain) == SplitFrom(text[1..], cur + [text[0]], Plain)
  {
  }

  /** The head of a line that starts with a word is that word. */
  lemma HeadIsWord(text: string, w: string)
    requires PlainWord(w) && LeadsWith(text, w)
    ensures Head(text) == w
  {
    var rest := text[|w|..];
    assert text == w + rest;
    PlainBalanced(w);
    SplitReadsThrough(w, rest, "", Plain);
    assert "" + w == w;
    var part := SplitFrom(rest, w, Plain)[0];
    if rest != "" {
      SplitAfterBlank(rest, w);
      SplitKeepsPrefix(rest[1..], w + [rest[0]], Plain);
    }
    WordOfPart(part, w);
  }

  lemma WordOfPart(part: string, w: string)
    requires PlainWord(w) && LeadsWith(part, w)
    ensures FirstWord(part) == w
  {
    assert part[0] == w[0] && TrimStart(part) == part;
    TakeWordIff(part, w);
  }

  lemma FlowHead(text: string, w: string)
    requires PlainWord(w) && IsFlow(text, w)
    ensures Head(text) == w
  {
    HeadIsWord(text, w);
  }

  lemma ElifHead(text: string)
    requires Trimmed(text) && StripKeyword(text, "elif").Some?
    ensures Head(text) == "elif"
  {
    assert PlainWord("elif");
    TrimTrimmed(text);
    HeadIsWord(text, "elif");
  }

  lemma LoneHead(w: string)
    requires PlainWord(w)
    ensures Head(w) == w
  {
    HeadIsWord(w, w);
  }

  // ----- each test of the executor

  lemma FlowTests(text: string)
    ensures Reads(text).ReturnLine? <==> IsFlow(text, "return")
    ensures Reads(text).BreakOf? <==> IsFlow(text, "break")
    ensures Reads(text).ContinueOf? <==> IsFlow(text, "continue")
    ensures Reads(text).BreakOf? || Reads(text).ContinueOf? ==> Reads(text).levels == LoopCount(text)
  {
    assert PlainWord("return") && PlainWord("break") && PlainWord("continue");
    if IsFlow(text, "return") { FlowHead(text, "return"); }
    if IsFlow(text, "break") { FlowHead(text, "break"); }
    if IsFlow(text, "continue") { FlowHead(text, "continue"); }
  }

  predicate IsFlowWord(w: string) {
    w == "return" || w == "break" || w == "continue"
  }

  lemma PlainReading(text: string)
    requires !IsFlowWord(Head(text)) && BlockWord(Head(text)).None?
    ensures Reads(text) == ReadsPlain(text)
  {
    FlowTests(text);
    assert PlainWord("return") && PlainWord("break") && PlainWord("continue");
    if IsFlow(text, "return") { FlowHead(text, "return"); }
    if IsFlow(text, "break") { FlowHead(text, "break"); }
    if IsFlow(text, "continue") { FlowHead(text, "continue"); }
  }

  lemma StartIsBlockWord(text: string)
    ensures IsCompoundStart(text) <==> BlockWord(Head(text)).Some?
    ensures BlockWord(Head(text)).Some? ==> Word(BlockWord(Head(text)).value) == Head(text)
  {
  }

  lemma StartTests(text: string)
    ensures Reads(text).Opens? <==> IsCompoundStart(text)
    ensures Reads(text).Opens? ==>
              Word(Reads(text).block) == Head(text) && Reads(text).rest == HeaderRest(text, Head(text))
  {
    StartIsBlockWord(text);
    assert PlainWord("return") && PlainWord("break") && PlainWord("continue");
    if IsFlow(text, "return") { FlowHead(text, "return"); }
    if IsFlow(text, "break") { FlowHead(text, "break"); }
    if IsFlow(text, "continue") { FlowHead(text, "continue"); }
  }

  lemma ElifTest(text: string)
    requires Trimmed(text)
    ensures Reads(text).ElifLine? <==> StripKeyword(text, "elif").Some?
    ensures Reads(text).ElifLine? ==> Some(Reads(text).cond) == StripKeyword(text, "elif")
  {
    if StripKeyword(text, "elif").Some? {
      ElifHead(text);
      PlainReading(text);
    }
  }

  /** A word that is neither `elif` nor tested for elsewhere is read by the exact comparisons. */
  lemma ExactReading(w: string)
    requires PlainWord(w) && !IsFlowWord(w) && BlockWord(w).None? && w != "elif"
    ensures Reads(w) == ReadsPlain(w) && StripKeyword(w, "elif").None?
  {
    LoneHead(w);
    PlainReading(w);
    assert PlainWord("elif");
    assert Trimmed(w);
    StripIff(w, "elif");
    assert LeadsWith(w, w);
    TakeWordIff(w, w);
  }

  lemma CloserTests(text: string)
    ensures Reads(text) == Closes(Fi) <==> text == "fi"
    ensures Reads(text) == Closes(DoneCloser) <==> text == "done"
    ensures Reads(text) == Closes(Esac) <==> text == "esac"
  {
    if text == "fi" || text == "done" || text == "esac" {
      assert PlainWord(text);
      ExactReading(text);
    }
  }

  lemma KeywordTests(text: string)
    ensures Reads(text) == ThenLine <==> text == "then"
    ensures Reads(text) == DoLine <==> text == "do"
    ensures Reads(text) == ElseLine <==> text == "else"
  {
    ThenTest(text);
    DoTest(text);
    ElseTest(text);
  }

  lemma ThenTest(text: string)
    ensures Reads(text) == ThenLine <==> text == "then"
  {
    if text == "then" {
      assert PlainWord("then");
      ExactReading("then");
    }
  }

  lemma DoTest(text: string)
    ensures Reads(text) == DoLine <==> text == "do"
  {
    if text == "do" {
      assert PlainWord("do");
      ExactReading("do");
    }
  }

  lemma ElseTest(text: string)
    ensures Reads(text) == ElseLine <==> text == "else"
  {
    if text == "else" {
      assert PlainWord("else");
      ExactReading("else");
    }
  }

  // ----- from text to tree

  function Texts(lines: seq<Line>): seq<string> {
    seq(|lines|, k requires 0 <= k < |lines| => lines[k].text)
  }

  function ReadAll(texts: seq<string>): seq<Line> {
    seq(|texts|, k requires 0 <= k < |texts| => Read(texts[k]))
  }

  /** The line carries the reading of its text, and `normalize` leaves it as it is. */
  predicate FaithfulLine(l: Line) {
    l.reading == Reads(l.text) && (IsKeyword(l.text) || Canonical(l.text))
  }

  predicate Faithful(lines: seq<Line>) {
    forall k :: 0 <= k < |lines| ==> FaithfulLine(lines[k])
  }

  /** The lines that a tree is made of, not counting the keywords between them, are faithful. */
  predicate CmdsFaithful(cs: Cmds) {
    match cs case End => true case Next(c, rest) => CmdFaithful(c) && CmdsFaithful(rest)
  }

  predicate CmdFaithful(c: Cmd) {
    match c
    case Simple(l) => FaithfulLine(l)
    case Flow(l) => FaithfulLine(l)
    case If(h, m, b, arms) => FaithfulLine(h) && Faithful(m) && CmdsFaithful(b) && ArmsFaithful(arms)
    case Loop(_, h, m, b) => FaithfulLine(h) && Faithful(m) && CmdsFaithful(b)
  }

  predicate ArmsFaithful(arms: Arms) {
    match arms
    case NoElse => true
    case Else(b) => CmdsFaithful(b)
    case Elif(h, m, b, rest) => FaithfulLine(h) && Faithful(m) && CmdsFaithful(b) && ArmsFaithful(rest)
  }

  /** The keyword lines are faithful in any case. */
  lemma KeywordLinesFaithful()
    ensures FaithfulLine(THEN) && FaithfulLine(DO) && FaithfulLine(ELSE) && FaithfulLine(FI) && FaithfulLine(DONE)
  {
    KeywordTests("then"); KeywordTests("do"); KeywordTests("else"); CloserTests("fi"); CloserTests("done");
    KeywordsInOrder();
    assert KEYWORDS[3] == "fi" && KEYWORDS[4] == "done";
  }

  lemma JoinFaithful(a: seq<Line>, b: seq<Line>)
    requires Faithful(a) && Faithful(b)
    ensures Faithful(a + b)
  {
    forall k | 0 <= k < |a + b| ensures FaithfulLine((a + b)[k]) {
      assert (a + b)[k] == if k < |a| then a[k] else b[k - |a|];
    }
  }

  lemma HeadFaithful(h: Line, m: seq<Line>, kw: Line)
    requires FaithfulLine(h) && Faithful(m) && FaithfulLine(kw)
    ensures Faithful([h] + m + [kw])
  {
    JoinFaithful([h], m);
    JoinFaithful([h] + m, [kw]);
  }

  /** So the lines of such a tree are faithful. */
  lemma {:induction false} CmdsLinesFaithful(cs: Cmds)
    requires CmdsFaithful(cs)
    ensures Faithful(CmdsLines(cs))
    decreases cs
  {
    if cs.Next? {
      CmdLinesFaithful(cs.head);
      CmdsLinesFaithful(cs.tail);
      JoinFaithful(CmdLines(cs.head), CmdsLines(cs.tail));
    }
  }

  lemma {:induction false} CmdLinesFaithful(c: Cmd)
    requires CmdFaithful(c)
    ensures Faithful(CmdLines(c))
    decreases c
  {
    KeywordLinesFaithful();
    match c
    case Simple(l) =>
    case Flow(l) =>
    case If(h, m, b, arms) =>
      HeadFaithful(h, m, THEN);
      CmdsLinesFaithful(b);
      ArmsLinesFaithful(arms);
      JoinFaithful([h] + m + [THEN], CmdsLines(b));
      JoinFaithful([h] + m + [THEN] + CmdsLines(b), ArmsLines(arms));
    case Loop(_, h, m, b) =>
      HeadFaithful(h, m, DO);
      CmdsLinesFaithful(b);
      JoinFaithful([h] + m + [DO], CmdsLines(b));
      JoinFaithful([h] + m + [DO] + CmdsLines(b), [DONE]);
  }

  lemma {:induction false} ArmsLinesFaithful(arms: Arms)
    requires ArmsFaithful(arms)
    ensures Faithful(ArmsLines(arms))
    decreases arms
  {
    KeywordLinesFaithful();
    match arms
    case NoElse =>
    case Else(b) =>
      CmdsLinesFaithful(b);
      JoinFaithful([ELSE], CmdsLines(b));
      JoinFaithful([ELSE] + CmdsLines(b), [FI]);
    case Elif(h, m, b, rest) =>
      HeadFaithful(h, m, THEN);
      CmdsLinesFaithful(b);
      ArmsLinesFaithful(rest);
      JoinFaithful([h] + m + [THEN], CmdsLines(b));
      JoinFaithful([h] + m + [THEN] + CmdsLines(b), ArmsLines(rest));
  }

  /** The text prints the tree: its lines in order, grouped in any way, each group on one line. */
  predicate Prints(text: seq<string>, groups: seq<seq<string>>, prog: Cmds) {
    text == Printed(groups) && Concat(groups) == Texts(CmdsLines(prog))
  }

  lemma {:induction false} GroupsCanonical(groups: seq<seq<string>>)
    requires AllCanonical(Concat(groups))
    ensures forall k :: 0 <= k < |groups| ==> AllCanonical(groups[k])
    decreases |groups|
  {
    if groups != [] {
      var rest := Concat(groups[1..]);
      assert forall k :: 0 <= k < |groups[0]| ==> groups[0][k] == Concat(groups)[k];
      assert forall k :: 0 <= k < |rest| ==> rest[k] == Concat(groups)[|groups[0]| + k];
      GroupsCanonical(groups[1..]);
    }
  }

  /** However a tree is printed, normalized and read again the text is the list of its lines. */
  lemma PrintedIsTree(text: seq<string>, groups: seq<seq<string>>, prog: Cmds)
    requires CmdsFaithful(prog) && Prints(text, groups, prog)
    ensures ReadAll(Normalized(text)) == CmdsLines(prog)
  {
    CmdsLinesFaithful(prog);
    TextsReadBack(CmdsLines(prog));
    GroupsCanonical(groups);
    NormalizeUndoesPrinting(groups);
  }

  lemma TextsReadBack(lines: seq<Line>)
    requires Faithful(lines)
    ensures AllCanonical(Texts(lines)) && ReadAll(Texts(lines)) == lines
  {
    forall k | 0 <= k < |lines| ensures Read(Texts(lines)[k]) == lines[k] {
      assert FaithfulLine(lines[k]);
    }
    forall k | 0 <= k < |lines| ensures IsKeyword(Texts(lines)[k]) || Canonical(Texts(lines)[k]) {
      assert FaithfulLine(lines[k]);
    }
    assert ReadAll(Texts(lines)) == lines;
  }

  /** In particular if it is printed on one line. */
  lemma OneLineIsTree(prog: Cmds)
    requires CmdsFaithful(prog)
    ensures ReadAll(Normalized([OneLine(Texts(CmdsLines(prog)))])) == CmdsLines(prog)
  {
    var texts := Texts(CmdsLines(prog));
    OneGroup(texts);
    PrintedIsTree([OneLine(texts)], [texts], prog);
  }

  lemma OneGroup(texts: seq<string>)
    ensures Printed([texts]) == [OneLine(texts)] && Concat([texts]) == texts
  {
    assert Concat([texts]) == texts + Concat([]);
  }
}
