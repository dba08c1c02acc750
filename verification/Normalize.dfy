/** `normalize`: text becomes a list of trimmed lines with the keywords on lines of their own, the
    same list however the text is spread over lines; and how these lines are read
    (src/applets/core/shell/compound.rs). */
module Normalize {
  import opened Prelude
  import opened ShellLines

  // ----- the function and the loop

  /** The white space around the `in` of a `case`, of which the vertical tab is not one. */
  predicate InSpace(c: char) {
    IsSpace(c) && c != '\U{0b}'
  }

  /** `split_case_in` from index `i` on: the head up to `in`, and what follows it. */
  function CaseIn(t: string, i: nat): Option<(string, string)>
    decreases |t| - i
  {
    if i + 1 >= |t| then None
    else if i > 0 && t[i] == 'i' && t[i + 1] == 'n' && InSpace(t[i - 1]) && (i + 2 == |t| || InSpace(t[i + 2])) then
      var tail := TrimStart(t[i + 2..]);
      if tail == "" then None else Some((TrimEnd(t[..i + 2]), tail))
    else CaseIn(t, i + 1)
  }

  function SplitCaseIn(t: string): Option<(string, string)> {
    if "case" <= t then CaseIn(t, 4) else None
  }

  const KEYWORDS := ["then", "do", "else", "fi", "done"]

  /** A trimmed, non-empty part split after the first of the keywords `kws` that leads it. */
  function SplitKeyword(t: string, kws: seq<string>): Option<seq<string>>
    decreases |kws|
  {
    if kws == [] then None
    else match StripKeyword(t, kws[0])
      case Some(rest) => Some(if rest == "" then [kws[0]] else [kws[0], rest])
      case None => SplitKeyword(t, kws[1..])
  }

  function NormalizePart(part: string): seq<string> {
    var t := Trim(part);
    if t == "" then []
    else match SplitKeyword(t, KEYWORDS)
      case Some(lines) => lines
      case None =>
        match SplitCaseIn(t)
        case Some((head, tail)) => [head, tail]
        case None => [t]
  }

  function NormalizeParts(parts: seq<string>): seq<string> {
    if parts == [] then [] else NormalizePart(parts[0]) + NormalizeParts(parts[1..])
  }

  /** The lines of a text, normalized. */
  function Normalized(text: seq<string>): seq<string> {
    if text == [] then [] else NormalizeParts(Split(text[0])) + Normalized(text[1..])
  }

  /** The loop over the keywords. */
  method LeadingKeyword(t: string) returns (lines: Option<seq<string>>)
    ensures lines == SplitKeyword(t, KEYWORDS)
  {
    var k := 0;
    while k < |KEYWORDS|
      invariant k <= |KEYWORDS|
      invariant SplitKeyword(t, KEYWORDS) == SplitKeyword(t, KEYWORDS[k..])
    {
      assert KEYWORDS[k..][1..] == KEYWORDS[k + 1..];
      var rest := StripKeyword(t, KEYWORDS[k]);
      if rest.Some? {
        return Some(if rest.value == "" then [KEYWORDS[k]] else [KEYWORDS[k], rest.value]);
      }
      k := k + 1;
    }
    lines := None;
  }

  method NormalizeOne(part: string) returns (out: seq<string>)
    ensures out == NormalizePart(part)
  {
    var t := Trim(part);
    if t == "" {
      out := [];
    } else {
      var lines := LeadingKeyword(t);
      var head := SplitCaseIn(t);
      out := if lines.Some? then lines.value else if head.Some? then [head.value.0, head.value.1] else [t];
    }
  }

  lemma PartsStep(out: seq<string>, parts: seq<string>, j: nat)
    requires j < |parts|
    ensures out + NormalizeParts(parts[j..]) == out + NormalizePart(parts[j]) + NormalizeParts(parts[j + 1..])
  {
    assert parts[j..][1..] == parts[j + 1..];
  }

  method NormalizeLine(line: string, before: seq<string>) returns (out: seq<string>)
    ensures out == before + NormalizeParts(Split(line))
  {
    var parts := SplitSemicolons(line);
    out := before;
    var j := 0;
    while j < |parts|
      invariant j <= |parts|
      invariant out + NormalizeParts(parts[j..]) == before + NormalizeParts(parts)
    {
      PartsStep(out, parts, j);
      var lines := NormalizeOne(parts[j]);
      out := out + lines;
      j := j + 1;
    }
  }

  lemma NormalizedStep(out: seq<string>, text: seq<string>, i: nat)
    requires i < |text|
    ensures out + Normalized(text[i..]) == out + NormalizeParts(Split(text[i])) + Normalized(text[i + 1..])
  {
    assert text[i..][1..] == text[i + 1..];
  }

  method NormalizeText(text: seq<string>) returns (out: seq<string>)
    ensures out == Normalized(text)
  {
    out := [];
    var i := 0;
    while i < |text|
      invariant i <= |text|
      invariant out + Normalized(text[i..]) == Normalized(text)
    {
      NormalizedStep(out, text, i);
      out := NormalizeLine(text[i], out);
      i := i + 1;
    }
  }

  // ----- trimming

  lemma {:induction false} TrimEndSuffix(s: string)
    requires s != "" && !IsSpace(s[0])
    ensures TrimEnd(s) != "" && TrimEnd(s)[0] == s[0]
    decreases |s|
  {
    if IsSpace(s[|s| - 1]) {
      TrimEndSuffix(s[..|s| - 1]);
    }
  }

  lemma {:induction false} TrimStartEnds(s: string)
    requires TrimStart(s) != ""
    ensures s != "" && TrimStart(s)[|TrimStart(s)| - 1] == s[|s| - 1]
    decreases |s|
  {
    if s != "" && IsSpace(s[0]) {
      TrimStartEnds(s[1..]);
    }
  }

  lemma TrimIsTrimmed(s: string)
    requires Trim(s) != ""
    ensures Trimmed(Trim(s))
  {
    TrimEndSuffix(TrimStart(s));
  }

  lemma TrimTrimmed(s: string)
    requires Trimmed(s)
    ensures Trim(s) == s && Trim(" " + s) == s
  {
    assert (" " + s)[1..] == s;
    assert TrimStart(" " + s) == TrimStart(s);
  }

  predicate AllTrimmed(lines: seq<string>) {
    forall k :: 0 <= k < |lines| ==> Trimmed(lines[k])
  }

  lemma {:induction false} SplitKeywordTrimmed(t: string, kws: seq<string>)
    requires Trimmed(t) && SplitKeyword(t, kws).Some? && AllTrimmed(kws)
    ensures AllTrimmed(SplitKeyword(t, kws).value)
    decreases |kws|
  {
    if StripKeyword(t, kws[0]).Some? {
      StripTrimmed(t, kws[0]);
    } else {
      SplitKeywordTrimmed(t, kws[1..]);
    }
  }

  lemma StripTrimmed(t: string, kw: string)
    requires Trimmed(t) && StripKeyword(t, kw).Some?
    ensures StripKeyword(t, kw).value == "" || Trimmed(StripKeyword(t, kw).value)
  {
    TrimTrimmed(t);
    if StripKeyword(t, kw).value != "" {
      TrimStartEnds(t[|kw|..]);
    }
  }

  lemma {:induction false} CaseInTrimmed(t: string, i: nat)
    requires Trimmed(t) && CaseIn(t, i).Some?
    ensures Trimmed(CaseIn(t, i).value.0) && Trimmed(CaseIn(t, i).value.1)
    decreases |t| - i
  {
    if t[i] == 'i' && t[i + 1] == 'n' && i > 0 && InSpace(t[i - 1]) && (i + 2 == |t| || InSpace(t[i + 2])) {
      TrimStartEnds(t[i + 2..]);
      TrimEndSuffix(t[..i + 2]);
    } else {
      CaseInTrimmed(t, i + 1);
    }
  }

  lemma PartTrimmed(part: string)
    ensures AllTrimmed(NormalizePart(part))
  {
    var t := Trim(part);
    if t != "" {
      TrimIsTrimmed(part);
      if SplitKeyword(t, KEYWORDS).Some? {
        SplitKeywordTrimmed(t, KEYWORDS);
      } else if SplitCaseIn(t).Some? {
        CaseInTrimmed(t, 4);
      }
    }
  }

  lemma {:induction false} PartsTrimmed(parts: seq<string>)
    ensures AllTrimmed(NormalizeParts(parts))
  {
    if parts != [] {
      PartTrimmed(parts[0]);
      PartsTrimmed(parts[1..]);
    }
  }

  /** Every line that comes out is trimmed and not empty. */
  lemma {:induction false} NormalizedTrimmed(text: seq<string>)
    ensures AllTrimmed(Normalized(text))
  {
    if text != [] {
      PartsTrimmed(Split(text[0]));
      NormalizedTrimmed(text[1..]);
    }
  }

  // ----- printing on one line

  /** The quoting at the end of `s`; `None` if a semicolon stands outside quotes. */
  function QuoteAfter(s: string, q: Quote): Option<Quote>
    decreases |s|
  {
    if s == "" then Some(q)
    else if q == Double && s[0] == '\\' && |s| > 1 then QuoteAfter(s[2..], Double)
    else if q == Plain && s[0] == ';' then None
    else QuoteAfter(s[1..], After(q, s[0]))
  }

  /** Quotes are closed and no semicolon stands outside them. */
  predicate Balanced(s: string) {
    QuoteAfter(s, Plain) == Some(Plain)
  }

  predicate IsKeyword(s: string) {
    s in KEYWORDS
  }

  /** A line that `normalize` leaves as it is. */
  predicate Canonical(t: string) {
    Trimmed(t) && Balanced(t) && SplitKeyword(t, KEYWORDS).None? && SplitCaseIn(t).None?
  }

  predicate AllCanonical(lines: seq<string>) {
    forall k :: 0 <= k < |lines| ==> IsKeyword(lines[k]) || Canonical(lines[k])
  }

  predicate TakesCommand(s: string) {
    s == "then" || s == "do" || s == "else"
  }

  predicate Pairs(lines: seq<string>) {
    |lines| > 1 && TakesCommand(lines[0]) && !IsKeyword(lines[1])
  }

  /** The parts of the printed line: `then`, `do` and `else` stand before the next command. */
  function PartsOf(lines: seq<string>): seq<string>
    decreases |lines|
  {
    if lines == [] then []
    else if Pairs(lines) then
      [lines[0] + " " + lines[1]] + PartsOf(lines[2..])
    else [lines[0]] + PartsOf(lines[1..])
  }

  function JoinParts(parts: seq<string>): string {
    if parts == [] then "" else if |parts| == 1 then parts[0] else parts[0] + "; " + JoinParts(parts[1..])
  }

  function OneLine(lines: seq<string>): string {
    JoinParts(PartsOf(lines))
  }

  /** A balanced piece of text is read through. */
  lemma {:induction false} SplitReadsThrough(p: string, rest: string, cur: string, q: Quote)
    requires QuoteAfter(p, q) == Some(Plain)
    ensures SplitFrom(p + rest, cur, q) == SplitFrom(rest, cur + p, Plain)
    decreases |p|
  {
    if p == "" {
      assert p + rest == rest && cur + p == cur;
    } else if q == Double && p[0] == '\\' && |p| > 1 {
      assert (p + rest)[2..] == p[2..] + rest && (p + rest)[..2] == p[..2];
      SplitReadsThrough(p[2..], rest, cur + p[..2], Double);
      assert cur + p[..2] + p[2..] == cur + p;
    } else {
      assert (p + rest)[1..] == p[1..] + rest;
      SplitReadsThrough(p[1..], rest, cur + [p[0]], After(q, p[0]));
      assert cur + [p[0]] + p[1..] == cur + p;
    }
  }

  lemma SplitAtSemicolon(cur: string, rest: string)
    ensures SplitFrom("; " + rest, cur, Plain) == [cur] + SplitFrom(rest, " ", Plain)
  {
    var s := "; " + rest;
    assert s[1..] == " " + rest;
    assert (" " + rest)[1..] == rest && "" + [' '] == " ";
    assert SplitFrom(" " + rest, "", Plain) == SplitFrom(rest, " ", Plain);
  }

  function Spaced(parts: seq<string>): seq<string> {
    seq(|parts|, k requires 0 <= k < |parts| => " " + parts[k])
  }

  /** Splitting the joined parts gives them back, up to a leading blank. */
  lemma {:induction false} SplitJoined(parts: seq<string>, blank: string)
    requires parts != [] && forall k :: 0 <= k < |parts| ==> Balanced(parts[k])
    requires blank == "" || blank == " "
    ensures SplitFrom(JoinParts(parts), blank, Plain)
            == [blank + parts[0]] + Spaced(parts[1..])
    decreases |parts|
  {
    if |parts| == 1 {
      SplitReadsThrough(parts[0], "", blank, Plain);
      assert parts[0] + "" == parts[0];
    } else {
      var rest := JoinParts(parts[1..]);
      assert parts[0] + "; " + rest == parts[0] + ("; " + rest);
      SplitReadsThrough(parts[0], "; " + rest, blank, Plain);
      SplitAtSemicolon(blank + parts[0], rest);
      SplitJoined(parts[1..], " ");
      assert parts[1..][1..] == parts[2..];
    }
  }

  // ----- keywords as words

  predicate PlainWord(w: string) {
    w != "" && forall i :: 0 <= i < |w| ==> PlainChar(w[i])
  }

  /** `t` is the word `w`, or goes on with a blank after it. */
  predicate LeadsWith(t: string, w: string) {
    w <= t && (|t| > |w| ==> IsSpace(t[|w|]))
  }

  lemma {:induction false} TakeWordIff(t: string, w: string)
    requires forall i :: 0 <= i < |w| ==> PlainChar(w[i])
    ensures TakeWord(t) == w <==> LeadsWith(t, w)
    decreases |t|
  {
    if t != "" && w != "" && t[0] == w[0] {
      TakeWordIff(t[1..], w[1..]);
      assert w <= t <==> w[1..] <= t[1..];
      assert TakeWord(t) == [t[0]] + TakeWord(t[1..]);
      assert TakeWord(t)[1..] == TakeWord(t[1..]);
      assert TakeWord(t) == w <==> TakeWord(t[1..]) == w[1..] by {
        assert w == [t[0]] + w[1..];
      }
    }
  }

  /** A keyword can be stripped off exactly if it is the first word. */
  lemma StripIff(t: string, kw: string)
    requires Trimmed(t) && PlainWord(kw)
    ensures StripKeyword(t, kw).Some? <==> TakeWord(t) == kw
  {
    TrimTrimmed(t);
    TakeWordIff(t, kw);
  }

  lemma KeywordsArePlain()
    ensures forall k :: 0 <= k < |KEYWORDS| ==> PlainWord(KEYWORDS[k])
  {
  }

  /** The keyword that is the first word is the one split off. */
  lemma {:induction false} SplitAtWord(t: string, kws: seq<string>, k: nat)
    requires Trimmed(t) && k < |kws| && TakeWord(t) == kws[k]
    requires forall j :: 0 <= j < |kws| ==> PlainWord(kws[j])
    requires forall j :: 0 <= j < k ==> kws[j] != kws[k]
    ensures SplitKeyword(t, kws) == Some(if t == kws[k] then [kws[k]] else [kws[k], TrimStart(t[|kws[k]|..])])
    decreases k
  {
    StripIff(t, kws[0]);
    if k > 0 {
      SplitAtWord(t, kws[1..], k - 1);
    } else {
      TrimTrimmed(t);
      if t != kws[0] {
        TrimStartNotEmpty(t, |kws[0]|);
      }
    }
  }

  lemma {:induction false} TrimStartNotEmpty(t: string, n: nat)
    requires Trimmed(t) && n < |t|
    ensures TrimStart(t[n..]) != ""
    decreases |t| - n
  {
    assert t[n..][0] == t[n];
    if IsSpace(t[n]) {
      assert n < |t| - 1;
      assert t[n..][1..] == t[n + 1..];
      TrimStartNotEmpty(t, n + 1);
    }
  }

  lemma KeywordsDiffer(j: nat, k: nat)
    requires j < k < |KEYWORDS|
    ensures KEYWORDS[j] != KEYWORDS[k]
  {
  }

  lemma KeywordSplits(k: nat, t: string)
    requires k < |KEYWORDS| && Trimmed(t) && TakeWord(t) == KEYWORDS[k]
    ensures SplitKeyword(t, KEYWORDS)
            == Some(if t == KEYWORDS[k] then [KEYWORDS[k]] else [KEYWORDS[k], TrimStart(t[|KEYWORDS[k]|..])])
  {
    KeywordsArePlain();
    forall j | 0 <= j < k ensures KEYWORDS[j] != KEYWORDS[k] { KeywordsDiffer(j, k); }
    SplitAtWord(t, KEYWORDS, k);
  }

  lemma SplitPart(t: string, lines: seq<string>)
    requires Trimmed(t) && SplitKeyword(t, KEYWORDS) == Some(lines)
    ensures NormalizePart(t) == lines && NormalizePart(" " + t) == lines
  {
    TrimTrimmed(t);
  }

  lemma TextAfter(kw: string, command: string)
    requires PlainWord(kw) && Trimmed(command)
    ensures var t := kw + " " + command;
            Trimmed(t) && TakeWord(t) == kw && t != kw && TrimStart(t[|kw|..]) == command
  {
    var t := kw + " " + command;
    assert LeadsWith(t, kw);
    TakeWordIff(t, kw);
    assert t[|kw|..] == " " + command;
    assert (" " + command)[1..] == command;
    assert TrimStart(" " + command) == TrimStart(command);
  }

  /** A keyword with a command after it. */
  lemma KeywordPart(k: nat, command: string)
    requires k < |KEYWORDS| && Trimmed(command)
    ensures var t := KEYWORDS[k] + " " + command;
            NormalizePart(t) == [KEYWORDS[k], command] && NormalizePart(" " + t) == [KEYWORDS[k], command]
  {
    KeywordsArePlain();
    TextAfter(KEYWORDS[k], command);
    KeywordSplits(k, KEYWORDS[k] + " " + command);
    SplitPart(KEYWORDS[k] + " " + command, [KEYWORDS[k], command]);
  }

  lemma KeywordAlone(k: nat)
    requires k < |KEYWORDS|
    ensures NormalizePart(KEYWORDS[k]) == [KEYWORDS[k]] && NormalizePart(" " + KEYWORDS[k]) == [KEYWORDS[k]]
  {
    KeywordsArePlain();
    assert LeadsWith(KEYWORDS[k], KEYWORDS[k]);
    TakeWordIff(KEYWORDS[k], KEYWORDS[k]);
    KeywordSplits(k, KEYWORDS[k]);
    SplitPart(KEYWORDS[k], [KEYWORDS[k]]);
  }

  lemma CanonicalPart(t: string)
    requires Canonical(t)
    ensures NormalizePart(t) == [t] && NormalizePart(" " + t) == [t]
  {
    TrimTrimmed(t);
  }

  // ----- the printed line is balanced

  lemma {:induction false} PlainReadsThrough(w: string, rest: string)
    requires forall i :: 0 <= i < |w| ==> w[i] == ' ' || PlainChar(w[i])
    ensures QuoteAfter(w + rest, Plain) == QuoteAfter(rest, Plain)
    decreases |w|
  {
    if w == "" {
      assert w + rest == rest;
    } else {
      assert (w + rest)[1..] == w[1..] + rest;
      PlainReadsThrough(w[1..], rest);
    }
  }

  /** A keyword, alone or with a command after it, is balanced if the command is. */
  lemma KeywordBalanced(k: nat, command: string)
    requires k < |KEYWORDS| && Balanced(command)
    ensures Balanced(KEYWORDS[k]) && Balanced(KEYWORDS[k] + " " + command)
  {
    KeywordsArePlain();
    PlainReadsThrough(KEYWORDS[k], "");
    assert KEYWORDS[k] + "" == KEYWORDS[k];
    PlainReadsThrough(KEYWORDS[k] + " ", command);
  }

  lemma KeywordIndex(kw: string) returns (k: nat)
    requires IsKeyword(kw)
    ensures k < |KEYWORDS| && KEYWORDS[k] == kw
  {
    k :| k < |KEYWORDS| && KEYWORDS[k] == kw;
  }

  /** The part is balanced and gives these lines, with or without a blank before it. */
  predicate Gives(part: string, lines: seq<string>) {
    Balanced(part) && NormalizePart(part) == lines && NormalizePart(" " + part) == lines
  }

  predicate AllGive(parts: seq<string>, lines: seq<string>) {
    && (forall k :: 0 <= k < |parts| ==> Gives(parts[k], NormalizePart(parts[k])))
    && NormalizeParts(parts) == lines
  }

  lemma OneMoreGives(part: string, out: seq<string>, parts: seq<string>, lines: seq<string>)
    requires Gives(part, out) && AllGive(parts, lines)
    ensures AllGive([part] + parts, out + lines)
  {
    assert ([part] + parts)[1..] == parts;
  }

  lemma PartGivesLine(line: string)
    requires IsKeyword(line) || Canonical(line)
    ensures Gives(line, [line])
  {
    if IsKeyword(line) {
      var k := KeywordIndex(line);
      KeywordAlone(k);
      KeywordBalanced(k, "");
    } else {
      CanonicalPart(line);
    }
  }

  lemma PairGivesLines(kw: string, command: string)
    requires IsKeyword(kw) && Canonical(command)
    ensures Gives(kw + " " + command, [kw, command])
  {
    var k := KeywordIndex(kw);
    KeywordPart(k, command);
    KeywordBalanced(k, command);
  }

  lemma PairFirst(lines: seq<string>)
    requires Pairs(lines)
    ensures PartsOf(lines) == [lines[0] + " " + lines[1]] + PartsOf(lines[2..])
    ensures IsKeyword(lines[0]) && lines == [lines[0], lines[1]] + lines[2..]
  {
    KeywordsInOrder();
  }

  lemma KeywordsInOrder()
    ensures IsKeyword("then") && IsKeyword("do") && IsKeyword("else")
  {
    assert KEYWORDS[0] == "then" && KEYWORDS[1] == "do" && KEYWORDS[2] == "else";
  }

  lemma OneFirst(lines: seq<string>)
    requires lines != [] && Pairs(lines) == false
    ensures PartsOf(lines) == [lines[0]] + PartsOf(lines[1..]) && lines == [lines[0]] + lines[1..]
  {
  }

  /** The parts, each normalized on its own, give the lines. */
  lemma {:induction false} PartsGiveLines(lines: seq<string>)
    requires AllCanonical(lines)
    ensures AllGive(PartsOf(lines), lines)
    decreases |lines|
  {
    if lines == [] {
    } else if Pairs(lines) {
      PartsGiveLines(lines[2..]);
      PairFirst(lines);
      PairGivesLines(lines[0], lines[1]);
      OneMoreGives(lines[0] + " " + lines[1], [lines[0], lines[1]], PartsOf(lines[2..]), lines[2..]);
    } else {
      PartsGiveLines(lines[1..]);
      OneFirst(lines);
      PartGivesLine(lines[0]);
      OneMoreGives(lines[0], [lines[0]], PartsOf(lines[1..]), lines[1..]);
    }
  }

  predicate BlankFree(parts: seq<string>) {
    parts == [] || (NormalizePart(" " + parts[0]) == NormalizePart(parts[0]) && BlankFree(parts[1..]))
  }

  lemma {:induction false} AllGiveBlankFree(parts: seq<string>)
    requires forall k :: 0 <= k < |parts| ==> Gives(parts[k], NormalizePart(parts[k]))
    ensures BlankFree(parts)
    decreases |parts|
  {
    if parts != [] {
      assert Gives(parts[0], NormalizePart(parts[0]));
      AllGiveBlankFree(parts[1..]);
    }
  }

  lemma {:induction false} SpacedGives(parts: seq<string>)
    requires BlankFree(parts)
    ensures NormalizeParts(Spaced(parts)) == NormalizeParts(parts)
    decreases |parts|
  {
    if parts != [] {
      assert Spaced(parts)[1..] == Spaced(parts[1..]);
      SpacedGives(parts[1..]);
    }
  }

  lemma FirstAndSpaced(parts: seq<string>)
    requires parts != [] && BlankFree(parts)
    ensures NormalizeParts([parts[0]] + Spaced(parts[1..])) == NormalizeParts(parts)
  {
    assert ([parts[0]] + Spaced(parts[1..]))[1..] == Spaced(parts[1..]);
    SpacedGives(parts[1..]);
  }

  lemma SplitIsSpaced(parts: seq<string>)
    requires parts != [] && forall k :: 0 <= k < |parts| ==> Balanced(parts[k])
    ensures Split(JoinParts(parts)) == [parts[0]] + Spaced(parts[1..])
  {
    SplitJoined(parts, "");
    assert "" + parts[0] == parts[0];
  }

  lemma EmptyGives()
    ensures NormalizeParts(Split("")) == []
  {
    assert Split("") == [""];
    assert NormalizePart("") == [];
    assert NormalizeParts([""]) == NormalizePart("") + NormalizeParts([]);
  }

  lemma JoinedGives(parts: seq<string>)
    requires BlankFree(parts) && forall k :: 0 <= k < |parts| ==> Balanced(parts[k])
    ensures NormalizeParts(Split(JoinParts(parts))) == NormalizeParts(parts)
  {
    if parts == [] {
      EmptyGives();
    } else {
      SplitIsSpaced(parts);
      FirstAndSpaced(parts);
    }
  }

  /** Lines printed on one line with semicolons are found again. */
  lemma OneLineSplits(lines: seq<string>)
    requires AllCanonical(lines)
    ensures NormalizeParts(Split(OneLine(lines))) == lines
  {
    PartsGiveLines(lines);
    AllGiveBlankFree(PartsOf(lines));
    JoinedGives(PartsOf(lines));
  }

  // ----- the main results

  function Concat(groups: seq<seq<string>>): seq<string> {
    if groups == [] then [] else groups[0] + Concat(groups[1..])
  }

  function Printed(groups: seq<seq<string>>): seq<string> {
    seq(|groups|, k requires 0 <= k < |groups| => OneLine(groups[k]))
  }

  lemma PrintedStep(groups: seq<seq<string>>)
    requires groups != []
    ensures Normalized(Printed(groups)) == NormalizeParts(Split(OneLine(groups[0]))) + Normalized(Printed(groups[1..]))
  {
    assert Printed(groups)[1..] == Printed(groups[1..]);
  }

  /** However the lines are grouped, each group printed on one line of text, `normalize` yields the
      same list of lines: in particular on a single line, and each on its own. */
  lemma {:induction false} NormalizeUndoesPrinting(groups: seq<seq<string>>)
    requires forall k :: 0 <= k < |groups| ==> AllCanonical(groups[k])
    ensures Normalized(Printed(groups)) == Concat(groups)
    decreases |groups|
  {
    if groups != [] {
      OneLineSplits(groups[0]);
      PrintedStep(groups);
      NormalizeUndoesPrinting(groups[1..]);
    }
  }

  // ----- the head of a case

  /** An `in` with white space around it, or at the end. */
  predicate InAt(t: string, j: nat) {
    && 0 < j && j + 1 < |t| && t[j] == 'i' && t[j + 1] == 'n'
    && InSpace(t[j - 1]) && (j + 2 == |t| || InSpace(t[j + 2]))
  }

  lemma {:induction false} CaseInAt(t: string, i: nat, at: nat)
    requires i <= at && at + 2 <= |t| && InAt(t, at) && TrimStart(t[at + 2..]) != ""
    requires forall j: nat :: i <= j < at ==> !InAt(t, j)
    ensures CaseIn(t, i) == Some((TrimEnd(t[..at + 2]), TrimStart(t[at + 2..])))
    decreases at - i
  {
    if i < at {
      assert !InAt(t, i);
      CaseInAt(t, i + 1, at);
    }
  }

  /** The head of a `case` on one line with its first pattern becomes a line of its own. */
  lemma CaseHeadSplits(word: string, rest: string)
    requires PlainWord(word) && Trimmed(rest) && word != "in"
    ensures NormalizePart("case " + (word + (" in " + rest))) == ["case " + (word + " in"), rest]
  {
    var t := "case " + (word + (" in " + rest));
    CaseParts(word, rest);
    TrimTrimmed(t);
    assert t[..5] == "case ";
    CaseIsNoKeyword(t);
    CaseSplits(t, word, rest);
  }

  lemma CaseSplits(t: string, word: string, rest: string)
    requires PlainWord(word) && Trimmed(rest) && word != "in" && t == "case " + (word + (" in " + rest))
    ensures SplitCaseIn(t) == Some(("case " + (word + " in"), rest))
  {
    var at := 5 + |word| + 1;
    CaseParts(word, rest);
    TrimTrimmed(rest);
    assert TrimStart(t[at + 2..]) == rest;
    forall j: nat | 4 <= j < at ensures !InAt(t, j) {
      NoEarlierIn(t, word, rest, j);
    }
    CaseInAt(t, 4, at);
    TrimEndOfTrimmed(t[..at + 2]);
  }

  lemma NoEarlierIn(t: string, word: string, rest: string, j: nat)
    requires PlainWord(word) && Trimmed(rest) && word != "in" && t == "case " + (word + (" in " + rest))
    requires 4 <= j < 6 + |word|
    ensures !InAt(t, j)
  {
    CaseParts(word, rest);
    if j > 5 {
      assert t[j - 1] == word[j - 6];
    } else if j == 5 {
      assert |word| > 1 ==> t[6] == word[1];
      assert |word| > 2 ==> t[7] == word[2];
      assert |word| == 2 ==> word == [word[0], word[1]];
    }
  }

  /** The characters of such a line, by their places. */
  lemma CaseParts(word: string, rest: string)
    requires PlainWord(word) && Trimmed(rest)
    ensures var t := "case " + (word + (" in " + rest));
            var at := 5 + |word| + 1;
      && |t| == at + 3 + |rest| && t[0] == 'c' && t[4] == ' ' && t[5] == word[0] && t[at - 1] == ' '
      && t[at] == 'i' && t[at + 1] == 'n' && t[at + 2] == ' ' && t[|t| - 1] == rest[|rest| - 1]
      && (forall j :: 0 <= j < |word| ==> t[5 + j] == word[j])
      && t[..at + 2] == "case " + (word + " in") && t[at + 2..] == " " + rest
      && "case" <= t
  {
  }

  lemma TrimEndOfTrimmed(s: string)
    requires Trimmed(s)
    ensures TrimEnd(s) == s
  {
  }

  lemma CaseIsNoKeyword(t: string)
    requires Trimmed(t) && |t| > 5 && t[..5] == "case "
    ensures SplitKeyword(t, KEYWORDS).None?
  {
    TrimTrimmed(t);
    assert t[0] == 'c';
    forall k | 0 <= k < |KEYWORDS| ensures StripKeyword(t, KEYWORDS[k]).None? {
      assert KEYWORDS[k][0] != 'c';
    }
    NoKeywordSplits(t, KEYWORDS);
  }

  lemma {:induction false} NoKeywordSplits(t: string, kws: seq<string>)
    requires forall k :: 0 <= k < |kws| ==> StripKeyword(t, kws[k]).None?
    ensures SplitKeyword(t, kws).None?
    decreases |kws|
  {
    if kws != [] {
      NoKeywordSplits(t, kws[1..]);
    }
  }
}
