/** Lines of compound commands: splitting at unquoted semicolons, first words, keywords and
    `normalize` (src/applets/core/shell/compound.rs). Text is ASCII. */
module ShellLines {
  import opened Prelude

  predicate IsSpace(c: char) {
    c == ' ' || c == '\t' || c == '\n' || c == '\r' || c == '\U{0b}' || c == '\U{0c}'
  }

  function TrimStart(s: string): (t: string)
    ensures |t| <= |s| && (t != "" ==> !IsSpace(t[0]))
  {
    if s != "" && IsSpace(s[0]) then TrimStart(s[1..]) else s
  }

  function TrimEnd(s: string): (t: string)
    ensures t <= s && (t != "" ==> !IsSpace(t[|t| - 1]))
  {
    if s != "" && IsSpace(s[|s| - 1]) then TrimEnd(s[..|s| - 1]) else s
  }

  function Trim(s: string): string {
    TrimEnd(TrimStart(s))
  }

  predicate Trimmed(s: string) {
    s != "" && !IsSpace(s[0]) && !IsSpace(s[|s| - 1])
  }

  // ----- splitting at semicolons

  datatype Quote = Plain | Single | Double

  /** The quoting after one more character that is not a separator. */
  function After(q: Quote, c: char): Quote {
    match q
    case Single => if c == '\'' then Plain else Single
    case Double => if c == '"' then Plain else Double
    case Plain => if c == '\'' then Single else if c == '"' then Double else Plain
  }

  /** The rest of a split: `s` is still to be read, `cur` is the part begun. */
  function SplitFrom(s: string, cur: string, q: Quote): (parts: seq<string>)
    ensures |parts| > 0
    decreases |s|
  {
    if s == "" then [cur]
    else match q
      case Single => SplitFrom(s[1..], cur + [s[0]], After(q, s[0]))
      case Double =>
        if s[0] == '\\' && |s| > 1 then SplitFrom(s[2..], cur + s[..2], Double)
        else SplitFrom(s[1..], cur + [s[0]], After(q, s[0]))
      case Plain =>
        if s[0] == ';' then
          if |s| > 1 && s[1] == ';' then [cur, ";;"] + SplitFrom(s[2..], "", Plain)
          else [cur] + SplitFrom(s[1..], "", Plain)
        else SplitFrom(s[1..], cur + [s[0]], After(q, s[0]))
  }

  function Split(line: string): seq<string> {
    SplitFrom(line, "", Plain)
  }

  method SplitSemicolons(line: string) returns (parts: seq<string>)
    ensures parts == Split(line)
  {
    parts := [];
    var cur, i, q := "", 0, Plain;
    while i < |line|
      invariant i <= |line|
      invariant parts + SplitFrom(line[i..], cur, q) == Split(line)
      decreases |line| - i
    {
      var c := line[i];
      assert line[i..][1..] == line[i + 1..];
      match q {
        case Single =>
          cur := cur + [c];
          q := if c == '\'' then Plain else Single;
          i := i + 1;
        case Double =>
          if c == '\\' && i + 1 < |line| {
            assert line[i..][2..] == line[i + 2..] && line[i..][..2] == [c, line[i + 1]];
            cur := cur + [c, line[i + 1]];
            i := i + 2;
          } else {
            cur := cur + [c];
            q := if c == '"' then Plain else Double;
            i := i + 1;
          }
        case Plain =>
          if c == ';' && i + 1 < |line| && line[i + 1] == ';' {
            assert line[i..][2..] == line[i + 2..];
            parts := parts + [cur, ";;"];
            cur := "";
            i := i + 2;
          } else if c == ';' {
            parts := parts + [cur];
            cur := "";
            i := i + 1;
          } else {
            cur := cur + [c];
            q := if c == '\'' then Single else if c == '"' then Double else Plain;
            i := i + 1;
          }
      }
    }
    parts := parts + [cur];
  }

  /** Puts the semicolons back: a part `;;` stands for itself, all others are joined by one. */
  function Join(parts: seq<string>): string
    requires parts != []
  {
    if |parts| == 1 then parts[0]
    else if |parts| > 2 && parts[1] == ";;" then parts[0] + ";;" + Join(parts[2..])
    else parts[0] + ";" + Join(parts[1..])
  }

  lemma JoinSingle(a: string, rest: seq<string>)
    requires rest != [] && rest[0] != ";;"
    ensures Join([a] + rest) == a + ";" + Join(rest)
  {
    assert ([a] + rest)[1..] == rest && ([a] + rest)[1] == rest[0];
  }

  lemma JoinDouble(a: string, rest: seq<string>)
    requires rest != []
    ensures Join([a, ";;"] + rest) == a + ";;" + Join(rest)
  {
    assert ([a, ";;"] + rest)[2..] == rest;
  }

  lemma SplitAtDouble(s: string, cur: string)
    requires |s| > 1 && s[0] == ';' && s[1] == ';' && Join(SplitFrom(s[2..], "", Plain)) == "" + s[2..]
    ensures Join(SplitFrom(s, cur, Plain)) == cur + s && SplitFrom(s, cur, Plain)[0] == cur
  {
    var rest := SplitFrom(s[2..], "", Plain);
    assert SplitFrom(s, cur, Plain) == [cur, ";;"] + rest;
    JoinDouble(cur, rest);
    PutBack(cur, ";;", s);
  }

  lemma SplitAtSingle(s: string, cur: string)
    requires s != "" && s[0] == ';' && !(|s| > 1 && s[1] == ';')
    requires Join(SplitFrom(s[1..], "", Plain)) == "" + s[1..] && SplitFrom(s[1..], "", Plain)[0] != ";;"
    ensures Join(SplitFrom(s, cur, Plain)) == cur + s && SplitFrom(s, cur, Plain)[0] == cur
  {
    var rest := SplitFrom(s[1..], "", Plain);
    assert SplitFrom(s, cur, Plain) == [cur] + rest;
    JoinSingle(cur, rest);
    PutBack(cur, ";", s);
  }

  lemma PutBack(cur: string, mark: string, s: string)
    requires mark <= s
    ensures cur + mark + ("" + s[|mark|..]) == cur + s
  {
  }

  /** Splitting loses nothing. */
  lemma {:induction false} JoinUndoesSplitFrom(s: string, cur: string, q: Quote)
    requires if cur == "" then q == Plain else cur[0] != ';'
    ensures Join(SplitFrom(s, cur, q)) == cur + s
    ensures SplitFrom(s, cur, q)[0] != ";;"
    decreases |s|
  {
    if s == "" {
      assert cur + s == cur;
    } else if q == Double && s[0] == '\\' && |s| > 1 {
      JoinUndoesSplitFrom(s[2..], cur + s[..2], Double);
      assert cur + s == cur + s[..2] + s[2..];
    } else if q == Plain && s[0] == ';' && |s| > 1 && s[1] == ';' {
      JoinUndoesSplitFrom(s[2..], "", Plain);
      SplitAtDouble(s, cur);
    } else if q == Plain && s[0] == ';' {
      JoinUndoesSplitFrom(s[1..], "", Plain);
      SplitAtSingle(s, cur);
    } else {
      JoinUndoesSplitFrom(s[1..], cur + [s[0]], After(q, s[0]));
      assert cur + s == cur + [s[0]] + s[1..];
    }
  }

  lemma JoinUndoesSplit(line: string)
    ensures Join(Split(line)) == line
  {
    JoinUndoesSplitFrom(line, "", Plain);
    assert "" + line == line;
  }

  // ----- words and keywords

  function TakeWord(s: string): (w: string)
    ensures w <= s
  {
    if s == "" || IsSpace(s[0]) then ""
    else
      assert [s[0]] <= s;
      [s[0]] + TakeWord(s[1..])
  }

  function FirstWord(part: string): string {
    TakeWord(TrimStart(part))
  }

  /** The first word of the first part. */
  function Head(line: string): string {
    FirstWord(Split(line)[0])
  }

  predicate IsCompoundStart(line: string) {
    Head(line) in {"if", "for", "while", "until", "case"}
  }

  /** The line without its leading keyword, which has to be a word of its own. */
  function StripKeyword(line: string, kw: string): Option<string> {
    var t := Trim(line);
    if t == kw then Some("")
    else if kw < t && IsSpace(t[|kw|]) then Some(TrimStart(t[|kw|..]))
    else None
  }

  // ----- how a line is read

  datatype Block = IfBlock | ForBlock | WhileBlock | UntilBlock | CaseBlock

  datatype Closer = Fi | DoneCloser | Esac

  /** The outcome of the tests that the executor makes on a line. */
  datatype Reading =
    | Opens(block: Block, rest: string)
    | Closes(closer: Closer)
    | ElifLine(cond: string)
    | ThenLine
    | DoLine
    | ElseLine
    | BreakOf(levels: nat)
    | ContinueOf(levels: nat)
    | ReturnLine
    | Command

  datatype Line = Line(text: string, reading: Reading)

  const THEN := Line("then", ThenLine)
  const DO := Line("do", DoLine)
  const ELSE := Line("else", ElseLine)
  const FI := Line("fi", Closes(Fi))
  const DONE := Line("done", Closes(DoneCloser))

  function Terminator(b: Block): Closer {
    match b case IfBlock => Fi case CaseBlock => Esac case _ => DoneCloser
  }

  function Word(b: Block): string {
    match b
    case IfBlock => "if" case ForBlock => "for" case WhileBlock => "while"
    case UntilBlock => "until" case CaseBlock => "case"
  }

  predicate Blank(s: string) {
    Trim(s) == ""
  }

  /** The line is the word alone, or goes on after a blank. */
  predicate IsFlow(line: string, word: string) {
    line == word || word + " " <= line
  }

  function HeaderRest(header: string, kw: string): string {
    match StripKeyword(header, kw) case Some(rest) => rest case None => ""
  }

  // ----- the words of headers

  /** The variable of a `for` header. */
  function ForName(rest: string): string {
    TakeWord(rest)
  }

  /** The words after `in`, if there is one. */
  function ForWords(rest: string): Option<string> {
    var tail := Trim(rest[|TakeWord(rest)|..]);
    if "in" <= tail then Some(Trim(tail[2..])) else None
  }

  const USIZE_LIMIT := 0x1_0000_0000_0000_0000

  function Digits(s: string, acc: nat): Option<nat>
    decreases |s|
  {
    if acc >= USIZE_LIMIT then None
    else if s == "" then Some(acc)
    else if '0' <= s[0] <= '9' then Digits(s[1..], 10 * acc + (s[0] - '0') as nat)
    else None
  }

  /** The text as an unsigned 64-bit number. */
  function ParseUsize(s: string): Option<nat> {
    var digits := if s != "" && s[0] == '+' then s[1..] else s;
    if digits == "" then None else Digits(digits, 0)
  }

  /** The level of a `break N` line: the second word, 1 if it is no number or zero. */
  function LoopCount(line: string): (n: nat)
    ensures n >= 1
  {
    var t := TrimStart(line);
    match ParseUsize(FirstWord(t[|TakeWord(t)|..]))
    case Some(n) => if n > 1 then n else 1
    case None => 1
  }

  predicate PlainChar(c: char) {
    !IsSpace(c) && c != ';' && c != '\'' && c != '"'
  }
}
