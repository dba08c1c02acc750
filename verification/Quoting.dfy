/** Which semicolons separate commands, and which parts of a header are its name and its words
    (src/applets/core/shell/compound.rs). */
module Quoting {
  import opened Prelude
  import opened ShellLines
  import opened Compound
  import opened Normalize
  import opened Readings
  import opened FlowLevels

  // ----- quoted text

  datatype Quoted = Raw(c: char) | Escaped(c: char)

  /** A stretch of a command line outside quotes, between single or between double quotes. */
  datatype Piece = Bare(text: string) | InSingle(text: string) | InDouble(chars: seq<Quoted>)

  /** A bare stretch has no quote and no semicolon, single quotes end at the next one, and double quotes
      at the next one that is not escaped. */
  predicate Proper(p: Piece) {
    match p
    case Bare(text) => forall i :: 0 <= i < |text| ==> text[i] !in {';', '\'', '"'}
    case InSingle(text) => '\'' !in text
    case InDouble(chars) => forall i :: 0 <= i < |chars| ==> chars[i].Raw? ==> chars[i].c !in {'"', '\\'}
  }

  function OneQuoted(q: Quoted): string {
    match q case Raw(c) => [c] case Escaped(c) => ['\\', c]
  }

  function QuotedText(chars: seq<Quoted>): string {
    if chars == [] then "" else OneQuoted(chars[0]) + QuotedText(chars[1..])
  }

  function PieceText(p: Piece): string {
    match p
    case Bare(text) => text
    case InSingle(text) => "'" + text + "'"
    case InDouble(chars) => "\"" + QuotedText(chars) + "\""
  }

  function TextOf(ps: seq<Piece>): string {
    if ps == [] then "" else PieceText(ps[0]) + TextOf(ps[1..])
  }

  predicate AllProper(ps: seq<Piece>) {
    forall i :: 0 <= i < |ps| ==> Proper(ps[i])
  }

  lemma {:induction false} BareEnds(s: string, rest: string)
    requires forall i :: 0 <= i < |s| ==> s[i] !in {';', '\'', '"'}
    ensures QuoteAfter(s + rest, Quote.Plain) == QuoteAfter(rest, Quote.Plain)
    decreases |s|
  {
    if s == "" {
      assert s + rest == rest;
    } else {
      assert (s + rest)[1..] == s[1..] + rest && (s + rest)[0] == s[0];
      assert forall i :: 0 <= i < |s[1..]| ==> s[1..][i] == s[i + 1];
      BareEnds(s[1..], rest);
      assert After(Quote.Plain, s[0]) == Quote.Plain;
    }
  }

  lemma {:induction false} SingleEnds(s: string, rest: string)
    requires '\'' !in s
    ensures QuoteAfter(s + ("'" + rest), Single) == QuoteAfter(rest, Quote.Plain)
    decreases |s|
  {
    if s == "" {
      assert s + ("'" + rest) == "'" + rest && ("'" + rest)[1..] == rest;
    } else {
      assert (s + ("'" + rest))[1..] == s[1..] + ("'" + rest);
      SingleEnds(s[1..], rest);
    }
  }

  lemma DoubleStep(q: Quoted, tail: string)
    requires q.Raw? ==> q.c !in {'"', '\\'}
    ensures QuoteAfter(OneQuoted(q) + tail, Double) == QuoteAfter(tail, Double)
  {
    var text := OneQuoted(q) + tail;
    assert if q.Raw? then text[0] == q.c && text[1..] == tail else text[0] == '\\' && text[2..] == tail;
  }

  lemma {:induction false} DoubleEnds(chars: seq<Quoted>, rest: string)
    requires Proper(InDouble(chars))
    ensures QuoteAfter(QuotedText(chars) + ("\"" + rest), Double) == QuoteAfter(rest, Quote.Plain)
    decreases |chars|
  {
    var after := "\"" + rest;
    if chars == [] {
      assert QuotedText(chars) + after == after && after[1..] == rest;
    } else {
      DoubleEnds(chars[1..], rest);
      DoubleStep(chars[0], QuotedText(chars[1..]) + after);
      Assoc(OneQuoted(chars[0]), QuotedText(chars[1..]), after);
    }
  }

  lemma QuoteOpens(rest: string)
    ensures QuoteAfter("'" + rest, Quote.Plain) == QuoteAfter(rest, Single)
    ensures QuoteAfter("\"" + rest, Quote.Plain) == QuoteAfter(rest, Double)
  {
    assert ("'" + rest)[1..] == rest && ("\"" + rest)[1..] == rest;
  }

  lemma Enclosed(quote: string, text: string, rest: string)
    ensures quote + text + quote + rest == quote + (text + (quote + rest))
  {
  }

  lemma PieceEnds(p: Piece, rest: string)
    requires Proper(p)
    ensures QuoteAfter(PieceText(p) + rest, Quote.Plain) == QuoteAfter(rest, Quote.Plain)
  {
    match p
    case Bare(text) => BareEnds(text, rest);
    case InSingle(text) =>
      Enclosed("'", text, rest);
      QuoteOpens(text + ("'" + rest));
      SingleEnds(text, rest);
    case InDouble(chars) =>
      Enclosed("\"", QuotedText(chars), rest);
      QuoteOpens(QuotedText(chars) + ("\"" + rest));
      DoubleEnds(chars, rest);
  }

  lemma {:induction false} PiecesEnd(ps: seq<Piece>)
    requires AllProper(ps)
    ensures QuoteAfter(TextOf(ps), Quote.Plain) == Some(Quote.Plain)
    decreases |ps|
  {
    if ps != [] {
      PieceEnds(ps[0], TextOf(ps[1..]));
      PiecesEnd(ps[1..]);
    }
  }

  /** A semicolon inside quotes separates nothing; one outside ends the command before it. */
  lemma SemicolonsSeparate(ps: seq<Piece>, rest: string)
    requires AllProper(ps)
    ensures Split(TextOf(ps)) == [TextOf(ps)]
    ensures rest == "" || rest[0] != ';' ==> Split(TextOf(ps) + (";" + rest)) == [TextOf(ps)] + Split(rest)
    ensures Split(TextOf(ps) + (";;" + rest)) == [TextOf(ps), ";;"] + Split(rest)
  {
    var s := TextOf(ps);
    PiecesEnd(ps);
    ReadThrough(s, "");
    ReadThrough(s, ";" + rest);
    ReadThrough(s, ";;" + rest);
    assert s + "" == s;
    assert (";" + rest)[1..] == rest && (";;" + rest)[2..] == rest;
  }

  lemma ReadThrough(s: string, rest: string)
    requires QuoteAfter(s, Quote.Plain) == Some(Quote.Plain)
    ensures Split(s + rest) == SplitFrom(rest, s, Quote.Plain)
  {
    SplitReadsThrough(s, rest, "", Quote.Plain);
    assert "" + s == s;
  }

  // ----- headers

  lemma HeaderRestOf(kw: string, rest: string)
    requires kw != "" && !IsSpace(kw[0]) && Trimmed(rest)
    ensures HeaderRest(kw + (" " + rest), kw) == rest
  {
    var text := kw + (" " + rest);
    assert text[0] == kw[0] && text[|text| - 1] == rest[|rest| - 1];
    TrimTrimmed(text);
    assert kw < text && text[|kw|] == ' ';
    assert text[|kw|..] == " " + rest;
    SkipsBlanks(" ", rest);
    assert StripKeyword(text, kw) == Some(rest);
  }

  /** A block header is read as its keyword and what follows. */
  lemma HeaderReads(kw: string, block: Block, rest: string)
    requires BlockWord(kw) == Some(block) && Trimmed(rest)
    ensures Reads(kw + (" " + rest)) == Opens(block, rest)
  {
    var text := kw + (" " + rest);
    assert PlainWord(kw) && LeadsWith(text, kw);
    HeadIsWord(text, kw);
    StartIsBlockWord(text);
    StartTests(text);
    HeaderRestOf(kw, rest);
  }

  lemma WordsAfterIn(blanks: string, words: string)
    requires Blanks(blanks) && Trimmed(words)
    ensures Trim(" " + ("in" + (blanks + words))) == "in" + (blanks + words)
    ensures Trim(("in" + (blanks + words))[2..]) == words
  {
    var inner := "in" + (blanks + words);
    assert inner[|inner| - 1] == words[|words| - 1];
    TrimTrimmed(inner);
    assert inner[2..] == blanks + words;
    SkipsBlanks(blanks, words);
    TrimTrimmed(words);
  }

  /** `for NAME in WORDS`: the name is the first word, and the words are all that stands after `in`, even
      if no blank stands between. */
  lemma ForHeader(name: string, blanks: string, words: string)
    requires PlainWord(name) && Blanks(blanks) && Trimmed(words)
    ensures var rest := name + (" " + ("in" + (blanks + words)));
      && Reads("for" + (" " + rest)) == Opens(ForBlock, rest)
      && ForName(rest) == name && ForWords(rest) == Some(words)
  {
    var tail := " " + ("in" + (blanks + words));
    var rest := name + tail;
    assert rest[|rest| - 1] == words[|words| - 1];
    HeaderReads("for", ForBlock, rest);
    TakesWord(name, tail);
    assert rest[|name|..] == tail;
    WordsAfterIn(blanks, words);
  }

  /** Without `in` there are no words in the header. */
  lemma ForHeaderAlone(name: string)
    requires PlainWord(name)
    ensures Reads("for" + (" " + name)) == Opens(ForBlock, name) && ForName(name) == name && ForWords(name).None?
  {
    HeaderReads("for", ForBlock, name);
    TakesWord(name, "");
    assert name + "" == name && name[|name|..] == "";
  }

  /** The word after the name need only begin with `in`: reading it so agrees with asking for the word
      `in` exactly if it is not a longer one that begins that way. */
  lemma InIsPrefix(name: string, tail: string)
    requires PlainWord(name) && Trimmed(tail)
    ensures var rest, word := name + (" " + tail), TakeWord(tail);
      && (ForWords(rest).Some? <==> "in" <= word)
      && ((ForWords(rest).Some? <==> word == "in") <==> !("in" < word))
  {
    TakesWord(name, " " + tail);
    assert (name + (" " + tail))[|name|..] == " " + tail;
    SkipsBlanks(" ", tail);
    TrimTrimmed(tail);
    WordBegins(tail);
  }

  lemma WordBegins(tail: string)
    ensures "in" <= tail <==> "in" <= TakeWord(tail)
  {
    if "in" <= tail {
      var rest := tail[2..];
      assert tail == "in" + rest;
      TakesOne('i', "n" + rest);
      TakesOne('n', rest);
      assert "in" + rest == ['i'] + ("n" + rest) && "n" + rest == ['n'] + rest;
      assert TakeWord(tail) == "in" + TakeWord(rest);
    }
  }

  lemma TakesOne(c: char, rest: string)
    requires !IsSpace(c)
    ensures TakeWord([c] + rest) == [c] + TakeWord(rest)
  {
    assert ([c] + rest)[1..] == rest;
  }

  /** `for x index` loops over the word `dex`. */
  lemma IndexLoops()
    ensures Reads("for x index") == Opens(ForBlock, "x index") && ForWords("x index") == Some("dex")
  {
    assert "for" + (" " + ("x" + (" " + ("in" + ("" + "dex"))))) == "for x index";
    assert "x" + (" " + ("in" + ("" + "dex"))) == "x index";
    ForHeader("x", "", "dex");
  }

  /** Each block keyword opens its own block. */
  lemma BlocksByWord(rest: string)
    requires Trimmed(rest)
    ensures Reads("if" + (" " + rest)) == Opens(IfBlock, rest) && Reads("case" + (" " + rest)) == Opens(CaseBlock, rest)
    ensures Reads("while" + (" " + rest)) == Opens(WhileBlock, rest)
    ensures Reads("until" + (" " + rest)) == Opens(UntilBlock, rest)
  {
    HeaderReads("if", IfBlock, rest);
    HeaderReads("case", CaseBlock, rest);
    HeaderReads("while", WhileBlock, rest);
    HeaderReads("until", UntilBlock, rest);
  }
}
