/** The glob matcher shared by the shell and `find -name` (src/applets/glob.rs). */
module Glob {

  const GLOB_ESCAPE := '\U{01}'

  /** Where the bracket scan stops: at a `]`, or at the end of the pattern. */
  function BracketEnd(p: string, idx: nat): (end: nat)
    requires idx <= |p|
    ensures idx <= end <= |p| && (end < |p| ==> p[end] == ']')
    decreases |p| - idx
  {
    if idx == |p| || p[idx] == ']' then idx
    else if IsRange(p, idx) then BracketEnd(p, idx + 3)
    else BracketEnd(p, idx + 1)
  }

  /** `a-b` at `idx`, unless the bracket ends there. */
  predicate IsRange(p: string, idx: nat)
  {
    idx + 2 < |p| && p[idx + 1] == '-' && p[idx + 2] != ']'
  }

  /** A character is a range of itself. */
  predicate InBracket(p: string, idx: nat, c: char)
    requires idx <= |p|
    decreases |p| - idx
  {
    if idx == |p| || p[idx] == ']' then false
    else if IsRange(p, idx) then p[idx] <= c <= p[idx + 2] || InBracket(p, idx + 3, c)
    else c == p[idx] || InBracket(p, idx + 1, c)
  }

  predicate Negated(p: string) {
    |p| > 1 && p[1] == '!'
  }

  function BodyStart(p: string): nat {
    if Negated(p) then 2 else 1
  }

  function AfterBracket(p: string): (rest: string)
    requires p != ""
    ensures |rest| < |p|
  {
    var end := BracketEnd(p, BodyStart(p));
    if end < |p| then p[end + 1..] else p[end..]
  }

  predicate Accepts(p: string, c: char)
    requires p != ""
  {
    InBracket(p, BodyStart(p), c) != Negated(p)
  }

  ghost predicate Matches(p: string, t: string)
    decreases |p|
  {
    if p == "" then t == ""
    else if p[0] == GLOB_ESCAPE then |p| >= 2 && t != "" && p[1] == t[0] && Matches(p[2..], t[1..])
    else if p[0] == '*' then |p| == 1 || exists i :: 0 <= i <= |t| && Matches(p[1..], t[i..])
    else if p[0] == '?' then t != "" && Matches(p[1..], t[1..])
    else if p[0] == '[' then t != "" && Accepts(p, t[0]) && Matches(AfterBracket(p), t[1..])
    else t != "" && p[0] == t[0] && Matches(p[1..], t[1..])
  }

  // ----- the matcher

  method ScanBracket(p: string, c: char) returns (matched: bool, negate: bool, rest: string)
    requires p != ""
    ensures matched == InBracket(p, BodyStart(p), c) && negate == Negated(p) && rest == AfterBracket(p)
  {
    var idx := 1;
    negate := false;
    if idx < |p| && p[idx] == '!' {
      negate := true;
      idx := idx + 1;
    }
    matched := false;
    while idx < |p| && p[idx] != ']'
      invariant idx <= |p| && BracketEnd(p, idx) == BracketEnd(p, BodyStart(p))
      invariant InBracket(p, BodyStart(p), c) == (matched || InBracket(p, idx, c))
    {
      if idx + 2 < |p| && p[idx + 1] == '-' && p[idx + 2] != ']' {
        if p[idx] <= c <= p[idx + 2] {
          matched := true;
        }
        idx := idx + 3;
      } else {
        if c == p[idx] {
          matched := true;
        }
        idx := idx + 1;
      }
    }
    rest := if idx < |p| then p[idx + 1..] else p[idx..];
  }

  method GlobMatchInner(p: string, t: string) returns (r: bool)
    ensures r == Matches(p, t)
    decreases |p|
  {
    if p == "" {
      return t == "";
    }
    if p[0] == GLOB_ESCAPE {
      if |p| < 2 || t == "" || p[1] != t[0] {
        return false;
      }
      r := GlobMatchInner(p[2..], t[1..]);
    } else if p[0] == '*' {
      if |p| == 1 {
        return true;
      }
      for i := 0 to |t| + 1
        invariant forall j :: 0 <= j < i ==> !Matches(p[1..], t[j..])
      {
        var found := GlobMatchInner(p[1..], t[i..]);
        if found {
          return true;
        }
      }
      r := false;
    } else if t == "" {
      r := false;
    } else if p[0] == '[' {
      var matched, negate, rest := ScanBracket(p, t[0]);
      if matched == negate {
        return false;
      }
      r := GlobMatchInner(rest, t[1..]);
    } else if p[0] == '?' || p[0] == t[0] {
      r := GlobMatchInner(p[1..], t[1..]);
    } else {
      r := false;
    }
  }

  // ----- a pattern in two parts

  /** A sequence of whole items: no bracket is left open and no protection mark stands last. */
  predicate Complete(p: string)
    decreases |p|
  {
    if p == "" then true
    else if p[0] == GLOB_ESCAPE then |p| >= 2 && Complete(p[2..])
    else if p[0] == '[' then BracketEnd(p, BodyStart(p)) < |p| && Complete(AfterBracket(p))
    else Complete(p[1..])
  }

  /** The text is a part that matches p and a part that matches q. */
  ghost predicate Splits(p: string, q: string, t: string) {
    exists k :: 0 <= k <= |t| && SplitsAt(p, q, t, k)
  }

  ghost predicate SplitsAt(p: string, q: string, t: string, k: nat)
    requires k <= |t|
  {
    Matches(p, t[..k]) && Matches(q, t[k..])
  }

  /** Where a bracket ends depends only on the pattern up to there. */
  lemma {:induction false} SameBracket(p: string, q: string, idx: nat)
    requires idx <= |p| && BracketEnd(p, idx) < |p| && BracketEnd(p, idx) < |q|
    requires forall i :: 0 <= i <= BracketEnd(p, idx) ==> q[i] == p[i]
    ensures BracketEnd(q, idx) == BracketEnd(p, idx)
    decreases |p| - idx
  {
    if p[idx] != ']' {
      SameBracket(p, q, if IsRange(p, idx) then idx + 3 else idx + 1);
    }
  }

  lemma {:induction false} BracketIgnoresRest(p: string, q: string, idx: nat, c: char)
    requires idx <= |p| && BracketEnd(p, idx) < |p|
    ensures BracketEnd(p + q, idx) == BracketEnd(p, idx) && InBracket(p + q, idx, c) == InBracket(p, idx, c)
    decreases |p| - idx
  {
    if p[idx] != ']' {
      if IsRange(p, idx) {
        BracketIgnoresRest(p, q, idx + 3, c);
      } else {
        BracketIgnoresRest(p, q, idx + 1, c);
      }
    }
  }

  lemma BracketEndsAlone(p: string, q: string, idx: nat, c: char)
    requires idx <= |p| && BracketEnd(p, idx) < |p|
    ensures BracketEnd(p + q, idx) == BracketEnd(p, idx) && InBracket(p + q, idx, c) == InBracket(p, idx, c)
    ensures (p + q)[BracketEnd(p, idx) + 1..] == p[BracketEnd(p, idx) + 1..] + q
  {
    BracketIgnoresRest(p, q, idx, c);
    DropsInside(p, q, BracketEnd(p, idx) + 1);
  }

  lemma DropsInside(p: string, q: string, n: nat)
    requires n <= |p|
    ensures (p + q)[n..] == p[n..] + q
  {
  }

  lemma BodyStartAlone(p: string, q: string)
    requires p != "" && BracketEnd(p, BodyStart(p)) < |p|
    ensures BodyStart(p + q) == BodyStart(p) && Negated(p + q) == Negated(p)
  {
  }

  lemma RestAlone(p: string, q: string, start: nat)
    requires p != "" && start == BodyStart(p) <= |p| && BracketEnd(p, start) < |p|
    ensures AfterBracket(p + q) == AfterBracket(p) + q
  {
    var end := BracketEnd(p, start);
    BodyStartAlone(p, q);
    SameBracket(p, p + q, start);
    RestAfter(p, start, end);
    RestAfter(p + q, start, end);
    DropsInside(p, q, end + 1);
  }

  lemma AcceptsAlone(p: string, q: string, start: nat, c: char)
    requires p != "" && start == BodyStart(p) <= |p| && BracketEnd(p, start) < |p|
    ensures Accepts(p + q, c) == Accepts(p, c)
  {
    BodyStartAlone(p, q);
    BracketEndsAlone(p, q, start, c);
    AcceptsIff(p, start, c);
    AcceptsIff(p + q, start, c);
  }

  lemma RestAfter(p: string, start: nat, end: nat)
    requires p != "" && start == BodyStart(p) && end == BracketEnd(p, start) < |p|
    ensures AfterBracket(p) == p[end + 1..]
  {
  }

  lemma AcceptsIff(p: string, start: nat, c: char)
    requires p != "" && start == BodyStart(p) <= |p|
    ensures Accepts(p, c) == (InBracket(p, start, c) != Negated(p))
  {
  }

  /** A first item that takes one character: then the rest of the text splits. */
  lemma OneCharacter(p: string, rest: string, q: string, t: string)
    requires t != ""
    requires forall u :: u != "" && u[0] == t[0] ==> (Matches(p, u) <==> Matches(rest, u[1..]))
    requires !Matches(p, "")
    ensures Splits(p, q, t) <==> Splits(rest, q, t[1..])
  {
    if Splits(p, q, t) {
      var k :| 0 <= k <= |t| && SplitsAt(p, q, t, k);
      assert t[..0] == "";
      assert t[..k][1..] == t[1..][..k - 1] && t[1..][k - 1..] == t[k..];
      assert SplitsAt(rest, q, t[1..], k - 1);
    }
    if Splits(rest, q, t[1..]) {
      var k :| 0 <= k <= |t[1..]| && SplitsAt(rest, q, t[1..], k);
      assert t[..k + 1][1..] == t[1..][..k] && t[1..][k..] == t[k + 1..];
      assert SplitsAt(p, q, t, k + 1);
    }
  }

  lemma NoSplit(p: string, q: string, t: string)
    requires forall k :: 0 <= k <= |t| ==> !Matches(p, t[..k])
    ensures !Splits(p, q, t)
  {
  }

  /** The short cut for a last `*` makes no difference. */
  lemma StarMatches(p: string, t: string)
    requires p != "" && p[0] == '*'
    ensures Matches(p, t) <==> exists i :: 0 <= i <= |t| && Matches(p[1..], t[i..])
  {
    if |p| == 1 {
      assert p[1..] == "" && t[|t|..] == "";
      assert Matches(p[1..], t[|t|..]);
    }
  }

  lemma StarGoesOn(p: string, q: string, t: string)
    requires p != "" && p[0] == '*' && Matches(p + q, t)
    requires forall u :: Matches(p[1..] + q, u) ==> Splits(p[1..], q, u)
    ensures Splits(p, q, t)
  {
    StarMatches(p + q, t);
    assert (p + q)[1..] == p[1..] + q;
    var i :| 0 <= i <= |t| && Matches((p + q)[1..], t[i..]);
    var k :| 0 <= k <= |t[i..]| && SplitsAt(p[1..], q, t[i..], k);
    assert t[..i + k][i..] == t[i..][..k] && t[i..][k..] == t[i + k..];
    StarMatches(p, t[..i + k]);
    assert SplitsAt(p, q, t, i + k);
  }

  lemma StarComesBack(p: string, q: string, t: string)
    requires p != "" && p[0] == '*' && Splits(p, q, t)
    requires forall u :: Splits(p[1..], q, u) ==> Matches(p[1..] + q, u)
    ensures Matches(p + q, t)
  {
    var k :| 0 <= k <= |t| && SplitsAt(p, q, t, k);
    StarMatches(p, t[..k]);
    var i :| 0 <= i <= |t[..k]| && Matches(p[1..], t[..k][i..]);
    SplitLater(p[1..], q, t, i, k);
    assert Splits(p[1..], q, t[i..]);
    assert (p + q)[1..] == p[1..] + q;
    assert Matches((p + q)[1..], t[i..]);
    StarMatches(p + q, t);
  }

  lemma SplitLater(p: string, q: string, t: string, i: nat, k: nat)
    requires i <= k <= |t| && Matches(p, t[..k][i..]) && Matches(q, t[k..])
    ensures SplitsAt(p, q, t[i..], k - i)
  {
    assert t[..k][i..] == t[i..][..k - i] && t[i..][k - i..] == t[k..];
  }

  /** A pattern of whole items followed by any pattern matches exactly the texts that split into a
      part for each. */
  lemma {:induction false} ConcatenationSplits(p: string, q: string, t: string)
    requires Complete(p)
    ensures Matches(p + q, t) <==> Splits(p, q, t)
    decreases |p|
  {
    if p == "" {
      assert p + q == q && t[..0] == "" && t[0..] == t;
      assert Matches(q, t) ==> SplitsAt(p, q, t, 0);
      assert forall k :: 0 <= k <= |t| && SplitsAt(p, q, t, k) ==> k == 0;
    } else if p[0] == '*' {
      forall u ensures Matches(p[1..] + q, u) <==> Splits(p[1..], q, u) {
        ConcatenationSplits(p[1..], q, u);
      }
      if Matches(p + q, t) { StarGoesOn(p, q, t); }
      if Splits(p, q, t) { StarComesBack(p, q, t); }
    } else {
      OneCharacterSplits(p, q, t);
    }
  }

  /** What is left of a pattern after a first item other than `*`. */
  function RestOf(p: string): (rest: string)
    requires p != ""
    ensures |rest| < |p|
  {
    if p[0] == GLOB_ESCAPE then if |p| >= 2 then p[2..] else ""
    else if p[0] == '[' then AfterBracket(p)
    else p[1..]
  }

  predicate Takes(p: string, c: char)
    requires p != ""
  {
    if p[0] == GLOB_ESCAPE then |p| >= 2 && p[1] == c
    else if p[0] == '?' then true
    else if p[0] == '[' then Accepts(p, c)
    else p[0] == c
  }

  lemma FirstItem(p: string, t: string)
    requires p != "" && p[0] != '*'
    ensures Matches(p, t) <==> t != "" && Takes(p, t[0]) && Matches(RestOf(p), t[1..])
  {
  }

  lemma FirstItemAlone(p: string, q: string, c: char)
    requires p != "" && p[0] != '*' && Complete(p)
    ensures RestOf(p + q) == RestOf(p) + q && Takes(p + q, c) == Takes(p, c) && Complete(RestOf(p))
  {
    if p[0] == '[' {
      RestAlone(p, q, BodyStart(p));
      AcceptsAlone(p, q, BodyStart(p), c);
    } else {
      PlainItemAlone(p, q, c);
    }
  }

  lemma PlainItemAlone(p: string, q: string, c: char)
    requires p != "" && p[0] != '*' && p[0] != '[' && Complete(p)
    ensures RestOf(p + q) == RestOf(p) + q && Takes(p + q, c) == Takes(p, c) && Complete(RestOf(p))
  {
    if p[0] == GLOB_ESCAPE {
      Prefixed(p, q, 2);
    } else {
      Prefixed(p, q, 1);
    }
  }

  lemma Prefixed(p: string, q: string, n: nat)
    requires 0 < n <= |p|
    ensures (p + q)[n..] == p[n..] + q && (p + q)[n - 1] == p[n - 1] && (p + q)[0] == p[0]
  {
  }

  lemma {:induction false} OneCharacterSplits(p: string, q: string, t: string)
    requires Complete(p) && p != "" && p[0] != '*'
    ensures Matches(p + q, t) <==> Splits(p, q, t)
    decreases |p|, 0
  {
    FirstItem(p + q, t);
    if t == "" || !Takes(p, t[0]) {
      forall k | 0 <= k <= |t| ensures !Matches(p, t[..k]) { FirstItem(p, t[..k]); }
      NoSplit(p, q, t);
      if t != "" { FirstItemAlone(p, q, t[0]); }
    } else {
      FirstItemAlone(p, q, t[0]);
      ConcatenationSplits(RestOf(p), q, t[1..]);
      forall u | u != "" && u[0] == t[0] ensures Matches(p, u) <==> Matches(RestOf(p), u[1..]) { FirstItem(p, u); }
      OneCharacter(p, RestOf(p), q, t);
    }
  }

  /** The law needs whole items: an open bracket takes in what follows it. */
  lemma OpenBracketDoesNotSplit()
    ensures !Complete("[a") && Matches("[a" + "]", "a") && !Splits("[a", "]", "a")
  {
    var p := "[a]";
    assert "[a" + "]" == p;
    assert BracketEnd(p, 2) == 2 && BracketEnd(p, 1) == 2 && AfterBracket(p) == "";
    assert InBracket(p, 1, 'a') && Accepts(p, 'a');
    assert Matches("", "a"[1..]);
    forall k | 0 <= k <= 1 ensures !SplitsAt("[a", "]", "a", k) {
      FirstItem("]", "a"[k..]);
      if k == 0 { FirstItem("[a", "a"[..0]); }
    }
    assert BracketEnd("[a", 2) == 2;
  }

  // ----- an open bracket

  /** The pattern begins with a bracket that nothing closes. */
  predicate OpenBracket(b: string) {
    b != "" && b[0] == '[' && BodyStart(b) <= |b| && BracketEnd(b, BodyStart(b)) == |b|
  }

  /** What stands before the rest of a pattern is one whole item. */
  lemma FirstIsWhole(p: string, r: string)
    requires p != "" && p != [GLOB_ESCAPE] && !OpenBracket(p) && Complete(r)
    ensures Complete(p[..|p| - |RestOf(p)|] + r)
  {
    var q := p[..|p| - |RestOf(p)|] + r;
    if p[0] == '[' {
      var start := BodyStart(p);
      assert start <= |p| && BracketEnd(p, start) < |p|;
      assert BodyStart(q) == start;
      SameBracket(p, q, start);
      assert AfterBracket(q) == r;
    } else if p[0] == GLOB_ESCAPE {
      assert q[2..] == r;
    } else {
      assert q[1..] == r;
    }
  }

  /** Every pattern is a sequence of whole items, or ends in an open bracket or in a lone protection
      mark after one. */
  lemma {:induction false} PatternShape(p: string) returns (r: string, b: string)
    ensures p == r + b && Complete(r) && (b == "" || b == [GLOB_ESCAPE] || OpenBracket(b))
    decreases |p|
  {
    if p == "" || p == [GLOB_ESCAPE] || OpenBracket(p) {
      r, b := "", p;
    } else {
      var rest := RestOf(p);
      var first := p[..|p| - |rest|];
      assert p == first + rest;
      r, b := PatternShape(rest);
      FirstIsWhole(p, r);
      r := first + r;
    }
  }

  /** The end of an open bracket takes one character, of the set that begins there. */
  lemma OpenBracketAlone(b: string, t: string)
    requires OpenBracket(b)
    ensures Matches(b, t) <==> |t| == 1 && Accepts(b, t[0])
  {
    FirstItem(b, t);
    assert AfterBracket(b) == "";
    assert t != "" ==> (t[1..] == "" <==> |t| == 1);
  }

  /** After whole items an open bracket is a set of characters that goes on to the end of the pattern:
      the last character of the text must be in it. */
  lemma OpenBracketIsSet(r: string, b: string, t: string)
    requires Complete(r) && OpenBracket(b)
    ensures Matches(r + b, t) <==> t != "" && Accepts(b, t[|t| - 1]) && Matches(r, t[..|t| - 1])
  {
    ConcatenationSplits(r, b, t);
    forall k | 0 <= k <= |t|
      ensures SplitsAt(r, b, t, k) <==> k == |t| - 1 && Accepts(b, t[|t| - 1]) && Matches(r, t[..|t| - 1])
    {
      OpenBracketAlone(b, t[k..]);
    }
    if t != "" && Accepts(b, t[|t| - 1]) && Matches(r, t[..|t| - 1]) {
      assert SplitsAt(r, b, t, |t| - 1);
    }
  }

  /** An open bracket does not stand for itself. */
  lemma OpenBracketWitness()
    ensures Matches("[a", "a") && !Matches("[a", "[a")
  {
    OpenBracketAlone("[a", "a");
    OpenBracketAlone("[a", "[a");
    assert BracketEnd("[a", 2) == 2 && InBracket("[a", 1, 'a');
  }

  /** The pattern with its brackets protected, read as POSIX reads one that nothing closes. */
  function Literal(b: string): (p: string)
    decreases |b|
  {
    if b == "" then ""
    else if b[0] == GLOB_ESCAPE && |b| >= 2 then b[..2] + Literal(b[2..])
    else (if b[0] == '[' then [GLOB_ESCAPE, '['] else b[..1]) + Literal(b[1..])
  }

  predicate OnlyStars(s: string) {
    forall i :: 0 <= i < |s| ==> s[i] == '*'
  }

  lemma {:induction false} LiteralOfNothing(b: string)
    requires Matches(Literal(b), "")
    ensures OnlyStars(b)
    decreases |b|
  {
    if b != "" {
      var p := Literal(b);
      if b[0] == '*' {
        assert p[1..] == Literal(b[1..]);
        StarMatches(p, "");
        assert ""[0..] == "";
        LiteralOfNothing(b[1..]);
      } else {
        FirstItem(p, "");
        assert false;
      }
    }
  }

  lemma {:induction false} StarsAcceptStars(b: string, idx: nat, c: char)
    requires idx <= |b| && OnlyStars(b[idx..]) && c != '*'
    ensures !InBracket(b, idx, c)
    decreases |b| - idx
  {
    if idx < |b| {
      assert b[idx] == b[idx..][0] == '*';
      assert idx + 1 < |b| ==> b[idx + 1] == b[idx..][1];
      assert b[idx + 1..] == b[idx..][1..];
      StarsAcceptStars(b, idx + 1, c);
    }
  }

  ghost predicate Shortest(p: string, u: string) {
    Matches(p, u) && forall v :: Matches(p, v) ==> |u| <= |v|
  }

  lemma NoneShorter(p: string, u: string, v: string)
    requires Shortest(p, u) && Matches(p, v)
    ensures |u| <= |v|
  {
  }

  /** A shortest text that the pattern matches. */
  lemma {:induction false} ShortestMatch(p: string, t: string) returns (u: string)
    requires Matches(p, t)
    ensures Shortest(p, u)
    decreases |t|
  {
    if v :| Matches(p, v) && |v| < |t| {
      u := ShortestMatch(p, v);
    } else {
      u := t;
    }
  }

  /** The two readings of an open bracket after whole items agree on the text. */
  ghost predicate ReadingsAgree(r: string, b: string, t: string) {
    Matches(r + b, t) <==> Matches(r + Literal(b), t)
  }

  /** Read literally, the text goes on with a bracket and with what the rest of the pattern takes. */
  lemma LiteralBracket(r: string, b: string, t: string) returns (k: nat)
    requires Complete(r) && OpenBracket(b) && Matches(r + Literal(b), t)
    ensures k < |t| && t[k] == '[' && Matches(r, t[..k]) && Matches(Literal(b[1..]), t[k + 1..])
  {
    ConcatenationSplits(r, Literal(b), t);
    k :| 0 <= k <= |t| && SplitsAt(r, Literal(b), t, k);
    FirstItem(Literal(b), t[k..]);
    assert RestOf(Literal(b)) == Literal(b[1..]);
    assert t[k..][1..] == t[k + 1..];
  }

  ghost predicate NeitherMatches(r: string, b: string, t: string) {
    !Matches(r + b, t) && !Matches(r + Literal(b), t)
  }

  lemma StarsDoNotAcceptBrackets(b: string)
    requires OpenBracket(b) && OnlyStars(b[1..])
    ensures !Accepts(b, '[')
  {
    assert !Negated(b) by {
      assert |b| > 1 ==> b[1] == b[1..][0];
    }
    StarsAcceptStars(b, 1, '[');
  }

  /** A shortest text that both readings match ends in the bracket, and the bracket is followed by
      stars alone. */
  lemma ShortestEndsInBracket(r: string, b: string, u: string)
    requires Complete(r) && OpenBracket(b) && Shortest(r + b, u) && Matches(r + Literal(b), u)
    ensures u != "" && u[|u| - 1] == '[' && OnlyStars(b[1..])
  {
    OpenBracketIsSet(r, b, u);
    var k := LiteralBracket(r, b, u);
    SetTakesLast(r, b, u[..k], u[|u| - 1]);
    NoneShorter(r + b, u, u[..k] + [u[|u| - 1]]);
    assert k == |u| - 1;
    assert u[k + 1..] == "";
    LiteralOfNothing(b[1..]);
  }

  lemma SetTakesLast(r: string, b: string, t: string, c: char)
    requires Complete(r) && OpenBracket(b) && Matches(r, t) && Accepts(b, c)
    ensures Matches(r + b, t + [c])
  {
    OpenBracketIsSet(r, b, t + [c]);
    assert (t + [c])[..|t|] == t;
  }

  /** If either reading matches a text, they disagree on some text: no set of stars accepts the
      bracket in which a shortest one would end. */
  lemma ReadingsDisagree(r: string, b: string, t: string) returns (u: string)
    requires Complete(r) && OpenBracket(b) && !NeitherMatches(r, b, t)
    ensures !ReadingsAgree(r, b, u)
  {
    u := t;
    if ReadingsAgree(r, b, t) {
      u := ShortestMatch(r + b, t);
      if ReadingsAgree(r, b, u) {
        ShortestEndsInBracket(r, b, u);
        OpenBracketIsSet(r, b, u);
        StarsDoNotAcceptBrackets(b);
        assert false;
      }
    }
  }

  ghost predicate Satisfiable(p: string) {
    exists t :: Matches(p, t)
  }

  /** A protection mark stands last and protects nothing. */
  predicate LoneMark(b: string)
    decreases |b|
  {
    if b == "" then false
    else if b[0] == GLOB_ESCAPE then |b| == 1 || LoneMark(b[2..])
    else LoneMark(b[1..])
  }

  lemma {:induction false} LiteralSatisfied(b: string) returns (t: string)
    requires !LoneMark(b)
    ensures Matches(Literal(b), t)
    decreases |b|
  {
    var p := Literal(b);
    if b == "" {
      t := "";
    } else if b[0] == '*' {
      t := LiteralSatisfied(b[1..]);
      StarMatches(p, t);
      assert p[1..] == Literal(b[1..]) && t[0..] == t;
    } else {
      var c := if b[0] == GLOB_ESCAPE then b[1] else b[0];
      var rest := if b[0] == GLOB_ESCAPE then b[2..] else b[1..];
      var u := LiteralSatisfied(rest);
      t := [c] + u;
      FirstItem(p, t);
      assert RestOf(p) == Literal(rest) && t[1..] == u;
    }
  }

  lemma {:induction false} LoneMarkMatchesNothing(b: string, t: string)
    requires LoneMark(b)
    ensures !Matches(Literal(b), t)
    decreases |b|
  {
    var p := Literal(b);
    if b[0] == '*' {
      assert p[1..] == Literal(b[1..]);
      StarMatches(p, t);
      forall i | 0 <= i <= |t| ensures !Matches(p[1..], t[i..]) {
        LoneMarkMatchesNothing(b[1..], t[i..]);
      }
    } else {
      FirstItem(p, t);
      if t != "" && b != [GLOB_ESCAPE] {
        var rest := if b[0] == GLOB_ESCAPE then b[2..] else b[1..];
        assert RestOf(p) == Literal(rest);
        LoneMarkMatchesNothing(rest, t[1..]);
      }
    }
  }

  /** Some character is in the set that begins the pattern. */
  predicate AcceptsSome(p: string)
    requires p != ""
  {
    exists c: char :: Accepts(p, c)
  }

  /** One of the brackets accepts no character. */
  predicate HasEmptySet(p: string)
    decreases |p|
  {
    if p == "" then false
    else if p[0] == '[' then !AcceptsSome(p) || HasEmptySet(RestOf(p))
    else HasEmptySet(RestOf(p))
  }

  /** Whole items match some text exactly if each of their brackets accepts a character. */
  lemma {:induction false} SatisfiableIff(p: string)
    requires Complete(p)
    ensures Satisfiable(p) <==> !HasEmptySet(p)
    decreases |p|
  {
    if p == "" {
      assert Matches(p, "");
    } else {
      SatisfiableIff(RestOf(p));
      if p[0] == '*' {
        StarSatisfiable(p);
      } else {
        ItemSatisfiable(p);
      }
    }
  }

  lemma StarSatisfiable(p: string)
    requires p != "" && p[0] == '*'
    ensures Satisfiable(p) <==> Satisfiable(RestOf(p))
  {
    if t :| Matches(p, t) {
      StarMatches(p, t);
      var i :| 0 <= i <= |t| && Matches(p[1..], t[i..]);
      assert Matches(RestOf(p), t[i..]);
    }
    if t :| Matches(RestOf(p), t) {
      StarMatches(p, t);
      assert t[0..] == t && Matches(p[1..], t[0..]);
      assert Matches(p, t);
    }
  }

  /** Any other first item takes a character, unless it is a bracket that accepts none. */
  lemma ItemSatisfiable(p: string)
    requires Complete(p) && p != "" && p[0] != '*'
    ensures Satisfiable(p) <==> (p[0] == '[' ==> AcceptsSome(p)) && Satisfiable(RestOf(p))
  {
    if t :| Matches(p, t) {
      FirstItem(p, t);
      assert Matches(RestOf(p), t[1..]);
    }
    if (p[0] == '[' ==> AcceptsSome(p)) && Satisfiable(RestOf(p)) {
      var u :| Matches(RestOf(p), u);
      SomeIsTaken(p);
      var c :| Takes(p, c);
      FirstItem(p, [c] + u);
      assert ([c] + u)[1..] == u;
      assert Matches(p, [c] + u);
    }
  }

  lemma SomeIsTaken(p: string)
    requires Complete(p) && p != "" && p[0] != '*' && (p[0] == '[' ==> AcceptsSome(p))
    ensures exists c :: Takes(p, c)
  {
    if p[0] == '[' {
      var c :| Accepts(p, c);
      assert Takes(p, c);
    } else {
      assert Takes(p, if p[0] == GLOB_ESCAPE then p[1] else p[0]);
    }
  }

  /** No text can tell the readings apart: one of the brackets before the open one accepts nothing, or
      the open one does and the rest of the pattern ends in a lone protection mark. */
  predicate BothMatchNothing(r: string, b: string)
    requires b != ""
  {
    HasEmptySet(r) || (LoneMark(b) && !AcceptsSome(b))
  }

  lemma NeitherIfNothing(r: string, b: string, t: string)
    requires Complete(r) && OpenBracket(b) && BothMatchNothing(r, b)
    ensures NeitherMatches(r, b, t)
  {
    OpenBracketIsSet(r, b, t);
    ConcatenationSplits(r, Literal(b), t);
    SatisfiableIff(r);
    if Satisfiable(r) {
      forall k | 0 <= k <= |t| ensures !SplitsAt(r, Literal(b), t, k) {
        LoneMarkMatchesNothing(b, t[k..]);
      }
    }
  }

  lemma SomethingMatches(r: string, b: string) returns (t: string)
    requires Complete(r) && OpenBracket(b) && !BothMatchNothing(r, b)
    ensures !NeitherMatches(r, b, t)
  {
    SatisfiableIff(r);
    var u :| Matches(r, u);
    if c :| Accepts(b, c) {
      t := u + [c];
      OpenBracketIsSet(r, b, t);
      assert t[..|u|] == u;
    } else {
      var v := LiteralSatisfied(b);
      t := u + v;
      ConcatenationSplits(r, Literal(b), t);
      assert t[..|u|] == u && t[|u|..] == v;
      assert SplitsAt(r, Literal(b), t, |u|);
    }
  }

  /** The literal reading of an open bracket agrees with the matcher on all texts exactly if neither
      can match any. */
  lemma ReadingsAgreeIff(r: string, b: string)
    requires Complete(r) && OpenBracket(b)
    ensures (forall t :: ReadingsAgree(r, b, t)) <==> BothMatchNothing(r, b)
  {
    if BothMatchNothing(r, b) {
      forall t ensures ReadingsAgree(r, b, t) {
        NeitherIfNothing(r, b, t);
      }
    } else {
      var t := SomethingMatches(r, b);
      var u := ReadingsDisagree(r, b, t);
    }
  }

  // ----- protected text

  predicate IsMeta(c: char) {
    c == '*' || c == '?' || c == '[' || c == GLOB_ESCAPE
  }

  /** Every character that would not stand for itself is protected. */
  function Protect(s: string): string {
    if s == "" then "" else (if IsMeta(s[0]) then [GLOB_ESCAPE, s[0]] else [s[0]]) + Protect(s[1..])
  }

  /** Protected text matches exactly itself. */
  lemma {:induction false} ProtectedMatchesItself(s: string, t: string)
    ensures Complete(Protect(s)) && (Matches(Protect(s), t) <==> t == s)
    decreases |s|
  {
    if s != "" {
      var p := Protect(s);
      FirstItem(p, t);
      assert RestOf(p) == Protect(s[1..]);
      ProtectedMatchesItself(s[1..], if t == "" then "" else t[1..]);
      assert t != "" ==> (t == s <==> t[0] == s[0] && t[1..] == s[1..]);
    }
  }

  /** A protected prefix: `"$x"*` matches what starts with the text of x. */
  lemma ProtectedPrefix(s: string, q: string, t: string)
    ensures Matches(Protect(s) + q, t) <==> s <= t && Matches(q, t[|s|..])
  {
    ProtectedMatchesItself(s, "");
    ConcatenationSplits(Protect(s), q, t);
    forall k | 0 <= k <= |t| ensures SplitsAt(Protect(s), q, t, k) <==> t[..k] == s && Matches(q, t[k..]) {
      ProtectedMatchesItself(s, t[..k]);
    }
    if s <= t && Matches(q, t[|s|..]) {
      assert SplitsAt(Protect(s), q, t, |s|);
    }
  }

  // ----- the members of a bracket

  /** One character between brackets, or a range of them. */
  datatype Member = One(c: char) | Range(lo: char, hi: char)

  /** Neither ends the bracket nor makes a range with its neighbours. */
  predicate Clear(m: Member) {
    match m
    case One(c) => c != ']' && c != '-'
    case Range(lo, hi) => lo != ']' && lo != '-' && hi != ']'
  }

  predicate AllClear(ms: seq<Member>) {
    forall i :: 0 <= i < |ms| ==> Clear(ms[i])
  }

  function MemberText(m: Member): string {
    match m case One(c) => [c] case Range(lo, hi) => [lo, '-', hi]
  }

  function Members(ms: seq<Member>): string {
    if ms == [] then "" else MemberText(ms[0]) + Members(ms[1..])
  }

  predicate HasMember(ms: seq<Member>, c: char) {
    exists i :: 0 <= i < |ms| && match ms[i] case One(d) => c == d case Range(lo, hi) => lo <= c <= hi
  }

  lemma HasFirst(ms: seq<Member>, c: char)
    requires ms != []
    ensures HasMember(ms, c)
            <==> (match ms[0] case One(d) => c == d case Range(lo, hi) => lo <= c <= hi) || HasMember(ms[1..], c)
  {
    if i :| 0 <= i < |ms[1..]| && match ms[1..][i] case One(d) => c == d case Range(lo, hi) => lo <= c <= hi {
      assert ms[i + 1] == ms[1..][i];
    }
    if i :| 0 <= i < |ms| && match ms[i] case One(d) => c == d case Range(lo, hi) => lo <= c <= hi {
      assert i > 0 ==> ms[1..][i - 1] == ms[i];
    }
  }

  /** The first member stands at `idx`, the others after it. */
  lemma MembersStand(p: string, idx: nat, ms: seq<Member>, rest: string)
    requires ms != [] && AllClear(ms) && idx <= |p| && p[idx..] == Members(ms) + ("]" + rest)
    ensures var next := idx + |MemberText(ms[0])|;
      && next < |p| && p[idx..next] == MemberText(ms[0])
      && p[next..] == Members(ms[1..]) + ("]" + rest) && p[next] != '-'
  {
    var first, after := MemberText(ms[0]), Members(ms[1..]) + ("]" + rest);
    Regrouped(first, Members(ms[1..]), "]" + rest);
    MembersBegin(ms[1..], rest);
    Peeled(p, idx, first, after);
  }

  lemma Regrouped(a: string, b: string, c: string)
    ensures (a + b) + c == a + (b + c)
  {
  }

  lemma MembersBegin(ms: seq<Member>, rest: string)
    requires AllClear(ms)
    ensures (Members(ms) + ("]" + rest))[0] != '-'
  {
    if ms != [] {
      assert Clear(ms[0]) && Members(ms)[0] == MemberText(ms[0])[0];
    }
  }

  lemma Peeled(p: string, idx: nat, first: string, after: string)
    requires idx <= |p| && p[idx..] == first + after && after != ""
    ensures idx + |first| < |p| && p[idx..idx + |first|] == first
    ensures p[idx + |first|..] == after && p[idx + |first|] == after[0]
  {
    assert p[idx..idx + |first|] == p[idx..][..|first|];
    assert p[idx + |first|..] == p[idx..][|first|..];
  }

  /** The scan from the members on finds them, and ends at the bracket after them. */
  lemma {:induction false} MembersScanned(p: string, idx: nat, ms: seq<Member>, rest: string, c: char)
    requires AllClear(ms) && idx <= |p| && p[idx..] == Members(ms) + ("]" + rest)
    ensures InBracket(p, idx, c) <==> HasMember(ms, c)
    ensures BracketEnd(p, idx) == idx + |Members(ms)|
    decreases |ms|
  {
    if ms == [] {
      assert p[idx] == p[idx..][0] == ']';
    } else {
      MembersStand(p, idx, ms, rest);
      FirstMember(p, idx, ms[0], c);
      MembersScanned(p, idx + |MemberText(ms[0])|, ms[1..], rest, c);
      HasFirst(ms, c);
    }
  }

  lemma FirstMember(p: string, idx: nat, m: Member, c: char)
    requires Clear(m) && idx + |MemberText(m)| < |p| && p[idx..idx + |MemberText(m)|] == MemberText(m)
    requires m.One? ==> p[idx + 1] != '-'
    ensures var next := idx + |MemberText(m)|;
      && BracketEnd(p, idx) == BracketEnd(p, next)
      && (InBracket(p, idx, c)
          <==> (match m case One(d) => c == d case Range(lo, hi) => lo <= c <= hi) || InBracket(p, next, c))
  {
    var text := p[idx..idx + |MemberText(m)|];
    match m
    case One(d) =>
      assert p[idx] == text[0] == d && !IsRange(p, idx);
    case Range(lo, hi) =>
      assert p[idx] == text[0] == lo && p[idx + 1] == text[1] == '-' && p[idx + 2] == text[2] == hi;
      assert IsRange(p, idx);
  }

  /** A bracket takes one character, which is one of its members; after a `!` it is none of them. */
  lemma BracketMeans(ms: seq<Member>, negated: bool, rest: string, t: string)
    requires AllClear(ms) && (!negated ==> ms == [] || MemberText(ms[0])[0] != '!')
    ensures Matches((if negated then "[!" else "[") + (Members(ms) + ("]" + rest)), t)
            <==> t != "" && HasMember(ms, t[0]) != negated && Matches(rest, t[1..])
  {
    var start: nat := if negated then 2 else 1;
    var p := (if negated then "[!" else "[") + (Members(ms) + ("]" + rest));
    assert p[0] == '[' && p[start..] == Members(ms) + ("]" + rest);
    assert Negated(p) == negated by {
      assert !negated ==> p[1] == (Members(ms) + ("]" + rest))[0];
      if !negated && ms != [] {
        assert p[1] == MemberText(ms[0])[0];
      }
    }
    BracketFirst(p, ms, negated, rest, t);
  }

  lemma BracketFirst(p: string, ms: seq<Member>, negated: bool, rest: string, t: string)
    requires AllClear(ms) && p != "" && p[0] == '[' && Negated(p) == negated
    requires p[BodyStart(p)..] == Members(ms) + ("]" + rest)
    ensures Matches(p, t) <==> t != "" && HasMember(ms, t[0]) != negated && Matches(rest, t[1..])
  {
    FirstItem(p, t);
    if t != "" {
      MembersScanned(p, BodyStart(p), ms, rest, t[0]);
      AfterMembers(p, BodyStart(p), Members(ms), rest);
      assert RestOf(p) == rest;
    }
  }

  lemma AfterMembers(p: string, start: nat, members: string, rest: string)
    requires start <= |p| && p[start..] == members + ("]" + rest)
    ensures start + |members| < |p| && p[start + |members| + 1..] == rest
  {
    assert p[start + |members| + 1..] == p[start..][|members| + 1..];
  }

  // ----- the other items

  /** A star takes any stretch of the text, a question mark any one character, a protected character and
      any other character itself. */
  lemma ItemsMean(rest: string, c: char, t: string)
    ensures Matches("*" + rest, t) <==> exists i :: 0 <= i <= |t| && Matches(rest, t[i..])
    ensures Matches("?" + rest, t) <==> t != "" && Matches(rest, t[1..])
    ensures Matches([GLOB_ESCAPE, c] + rest, t) <==> t != "" && t[0] == c && Matches(rest, t[1..])
    ensures !IsMeta(c) ==> (Matches([c] + rest, t) <==> t != "" && t[0] == c && Matches(rest, t[1..]))
  {
    assert ("*" + rest)[1..] == rest && ("?" + rest)[1..] == rest;
    assert ([GLOB_ESCAPE, c] + rest)[2..] == rest && ([c] + rest)[1..] == rest;
    StarMatches("*" + rest, t);
    FirstItem("?" + rest, t);
    FirstItem([GLOB_ESCAPE, c] + rest, t);
    if !IsMeta(c) {
      FirstItem([c] + rest, t);
    }
  }
}
