/** Which level the text of a `break` or `continue` line asks for
    (src/applets/core/shell/compound.rs). */
module FlowLevels {
  import opened Prelude
  import opened ShellLines
  import opened Readings

  // ----- numerals

  /** The number in decimal, without leading zeros. */
  function Decimal(n: nat): (s: string)
    ensures s != "" && forall i :: 0 <= i < |s| ==> '0' <= s[i] <= '9'
  {
    if n < 10 then [DigitOf(n)] else Decimal(n / 10) + [DigitOf(n % 10)]
  }

  function DigitOf(d: nat): (c: char)
    requires d < 10
    ensures '0' <= c <= '9'
  {
    "0123456789"[d]
  }

  function Zeros(k: nat): (s: string)
    ensures |s| == k && forall i :: 0 <= i < k ==> s[i] == '0'
  {
    if k == 0 then "" else "0" + Zeros(k - 1)
  }

  predicate AllDigits(s: string) {
    forall i :: 0 <= i < |s| ==> '0' <= s[i] <= '9'
  }

  /** Digits, with one plus sign before them or none. */
  predicate IsNumeral(w: string) {
    var digits := if w != "" && w[0] == '+' then w[1..] else w;
    digits != "" && AllDigits(digits)
  }

  /** The word of a numeral: a sign, zeros and a decimal. */
  function Numeral(plus: bool, zeros: nat, n: nat): string {
    (if plus then "+" else "") + (Zeros(zeros) + Decimal(n))
  }

  lemma Assoc(a: string, b: string, c: string)
    ensures a + b + c == a + (b + c)
  {
  }

  lemma {:induction false} ZeroMore(k: nat)
    ensures Zeros(k + 1) == Zeros(k) + "0"
  {
    assert forall i :: 0 <= i < k + 1 ==> (Zeros(k) + "0")[i] == '0';
  }

  lemma OneMoreDigit(zeros: nat, m: nat, d: nat) returns (z: nat, n: nat)
    requires d < 10
    ensures Zeros(zeros) + Decimal(m) + [DigitOf(d)] == Zeros(z) + Decimal(n)
  {
    if m == 0 {
      z, n := zeros + 1, d;
      ZeroMore(zeros);
    } else {
      z, n := zeros, 10 * m + d;
      assert n / 10 == m && n % 10 == d;
      Assoc(Zeros(zeros), Decimal(m), [DigitOf(d)]);
    }
  }

  lemma {:induction false} DigitsForm(s: string) returns (zeros: nat, n: nat)
    requires s != "" && AllDigits(s)
    ensures s == Zeros(zeros) + Decimal(n)
    decreases |s|
  {
    var last, rest := s[|s| - 1], s[..|s| - 1];
    var d := (last - '0') as nat;
    assert DigitOf(d) == last && s == rest + [last];
    if rest == "" {
      zeros, n := 0, d;
    } else {
      var z, m := DigitsForm(rest);
      zeros, n := OneMoreDigit(z, m, d);
    }
  }

  /** Every numeral is of that form. */
  lemma NumeralForm(w: string) returns (plus: bool, zeros: nat, n: nat)
    requires IsNumeral(w)
    ensures w == Numeral(plus, zeros, n)
  {
    plus := w[0] == '+';
    zeros, n := DigitsForm(if plus then w[1..] else w);
    assert w == (if plus then "+" else "") + if plus then w[1..] else w;
  }

  // ----- parsing them

  lemma {:induction false} DigitsAppend(a: string, b: string, acc: nat)
    requires Digits(a, acc).Some?
    ensures Digits(a + b, acc) == Digits(b, Digits(a, acc).value)
    decreases |a|
  {
    if a == "" {
      assert a + b == b;
    } else {
      assert (a + b)[1..] == a[1..] + b;
      DigitsAppend(a[1..], b, 10 * acc + (a[0] - '0') as nat);
    }
  }

  lemma {:induction false} DigitsOfZeros(k: nat)
    ensures Digits(Zeros(k), 0) == Some(0)
  {
    if k > 0 {
      assert Zeros(k)[1..] == Zeros(k - 1);
      DigitsOfZeros(k - 1);
    }
  }

  lemma {:induction false} DigitsTooLarge(a: string, b: string, acc: nat)
    requires Digits(a, acc).None?
    ensures Digits(a + b, acc).None?
    decreases |a|
  {
    if acc < USIZE_LIMIT && '0' <= a[0] <= '9' {
      assert (a + b)[1..] == a[1..] + b;
      DigitsTooLarge(a[1..], b, 10 * acc + (a[0] - '0') as nat);
    }
  }

  lemma {:induction false} DigitsOfDecimal(n: nat)
    ensures Digits(Decimal(n), 0) == if n < USIZE_LIMIT then Some(n) else None
    decreases n
  {
    if n < 10 {
      OneDigit(n, 0);
    } else {
      var last := [DigitOf(n % 10)];
      DigitsOfDecimal(n / 10);
      if n / 10 < USIZE_LIMIT {
        DigitsAppend(Decimal(n / 10), last, 0);
        OneDigit(n % 10, n / 10);
      } else {
        DigitsTooLarge(Decimal(n / 10), last, 0);
      }
    }
  }

  lemma OneDigit(d: nat, acc: nat)
    requires d < 10 && acc < USIZE_LIMIT
    ensures Digits([DigitOf(d)], acc) == if 10 * acc + d < USIZE_LIMIT then Some(10 * acc + d) else None
  {
    var s := [DigitOf(d)];
    assert s[1..] == "" && (DigitOf(d) - '0') as nat == d;
  }

  lemma ParsesNumeral(plus: bool, zeros: nat, n: nat)
    ensures ParseUsize(Numeral(plus, zeros, n)) == if n < USIZE_LIMIT then Some(n) else None
  {
    var digits := Zeros(zeros) + Decimal(n);
    DigitsOfZeros(zeros);
    DigitsAppend(Zeros(zeros), Decimal(n), 0);
    DigitsOfDecimal(n);
    ParsesSigned(plus, digits);
  }

  lemma ParsesSigned(plus: bool, digits: string)
    requires digits != "" && '0' <= digits[0] <= '9'
    ensures ParseUsize((if plus then "+" else "") + digits) == Digits(digits, 0)
  {
    var w := (if plus then "+" else "") + digits;
    assert if plus then w[0] == '+' && w[1..] == digits else w == digits;
  }

  lemma {:induction false} NoDigits(s: string, acc: nat)
    requires !AllDigits(s)
    ensures Digits(s, acc).None?
    decreases |s|
  {
    if acc < USIZE_LIMIT && '0' <= s[0] <= '9' {
      assert !AllDigits(s[1..]) by {
        var i :| 0 <= i < |s| && !('0' <= s[i] <= '9');
        assert s[1..][i - 1] == s[i];
      }
      NoDigits(s[1..], 10 * acc + (s[0] - '0') as nat);
    }
  }

  // ----- the second word of the line

  predicate Blanks(s: string) {
    forall i :: 0 <= i < |s| ==> IsSpace(s[i])
  }

  predicate NoBlank(s: string) {
    forall i :: 0 <= i < |s| ==> !IsSpace(s[i])
  }

  /** The rest of a line after a word. */
  predicate AfterWord(tail: string) {
    tail != "" ==> IsSpace(tail[0])
  }

  lemma {:induction false} SkipsBlanks(blanks: string, rest: string)
    requires Blanks(blanks) && (rest != "" ==> !IsSpace(rest[0]))
    ensures TrimStart(blanks + rest) == rest
    decreases |blanks|
  {
    if blanks == "" {
      assert blanks + rest == rest;
    } else {
      assert (blanks + rest)[1..] == blanks[1..] + rest;
      SkipsBlanks(blanks[1..], rest);
    }
  }

  lemma {:induction false} TakesWord(w: string, tail: string)
    requires NoBlank(w) && AfterWord(tail)
    ensures TakeWord(w + tail) == w
    decreases |w|
  {
    if w == "" {
      assert w + tail == tail;
    } else {
      assert (w + tail)[1..] == w[1..] + tail;
      TakesWord(w[1..], tail);
    }
  }

  /** A line of a keyword and a further word, with what stands between and behind. */
  function FlowText(kw: string, blanks: string, w: string, tail: string): string {
    kw + (" " + (blanks + (w + tail)))
  }

  lemma SecondWord(kw: string, blanks: string, w: string, tail: string)
    requires kw != "" && NoBlank(kw) && Blanks(blanks)
    requires NoBlank(w) && AfterWord(tail) && (w == "" ==> tail == "")
    ensures var t := TrimStart(FlowText(kw, blanks, w, tail)); FirstWord(t[|TakeWord(t)|..]) == w
  {
    var after := " " + (blanks + (w + tail));
    assert (kw + after)[0] == kw[0] && (kw + after)[|kw|..] == after;
    TakesWord(kw, after);
    assert after == (" " + blanks) + (w + tail);
    SkipsBlanks(" " + blanks, w + tail);
    TakesWord(w, tail);
  }

  lemma BreakReads(text: string)
    requires IsFlow(text, "break")
    ensures Reads(text) == BreakOf(LoopCount(text))
  {
    FlowTests(text);
  }

  lemma ContinueReads(text: string)
    requires IsFlow(text, "continue")
    ensures Reads(text) == ContinueOf(LoopCount(text))
  {
    FlowTests(text);
  }

  lemma ReadsFlow(rest: string)
    ensures Reads("break" + (" " + rest)) == BreakOf(LoopCount("break" + (" " + rest)))
    ensures Reads("continue" + (" " + rest)) == ContinueOf(LoopCount("continue" + (" " + rest)))
  {
    assert "break" + (" " + rest) == "break " + rest;
    assert "continue" + (" " + rest) == "continue " + rest;
    BreakReads("break" + (" " + rest));
    ContinueReads("continue" + (" " + rest));
  }

  lemma FlowOf(blanks: string, w: string, tail: string, n: nat)
    requires Blanks(blanks) && NoBlank(w) && AfterWord(tail) && (w == "" ==> tail == "")
    requires n == match ParseUsize(w) case Some(m) => if m > 1 then m else 1 case None => 1
    ensures Reads(FlowText("break", blanks, w, tail)) == BreakOf(n)
    ensures Reads(FlowText("continue", blanks, w, tail)) == ContinueOf(n)
  {
    SecondWord("break", blanks, w, tail);
    SecondWord("continue", blanks, w, tail);
    ReadsFlow(blanks + (w + tail));
  }

  // ----- the level

  /** A second word that is a numeral is the level, with two exceptions: a zero and a number that does
      not fit 64 bits both mean 1. Further words do not count. */
  lemma LevelOfNumeral(blanks: string, plus: bool, zeros: nat, n: nat, tail: string)
    requires Blanks(blanks) && AfterWord(tail)
    ensures var level := if 1 < n < 0x1_0000_0000_0000_0000 then n else 1;
      && Reads(FlowText("break", blanks, Numeral(plus, zeros, n), tail)) == BreakOf(level)
      && Reads(FlowText("continue", blanks, Numeral(plus, zeros, n), tail)) == ContinueOf(level)
  {
    ParsesNumeral(plus, zeros, n);
    FlowOf(blanks, Numeral(plus, zeros, n), tail, if 1 < n < 0x1_0000_0000_0000_0000 then n else 1);
  }

  /** In its plain form: `break N`. */
  lemma LevelOfDecimal(n: nat)
    requires n < 0x1_0000_0000_0000_0000
    ensures Reads("break " + Decimal(n)) == BreakOf(if n > 1 then n else 1)
    ensures Reads("continue " + Decimal(n)) == ContinueOf(if n > 1 then n else 1)
  {
    LevelOfNumeral("", false, 0, n, "");
    PlainForm(Decimal(n));
  }

  lemma PlainForm(w: string)
    ensures FlowText("break", "", "" + ("" + w), "") == "break " + w
    ensures FlowText("continue", "", "" + ("" + w), "") == "continue " + w
  {
  }

  /** A second word that is no numeral means level 1. */
  lemma LevelOfOtherWord(blanks: string, w: string, tail: string)
    requires Blanks(blanks) && w != "" && NoBlank(w) && AfterWord(tail) && !IsNumeral(w)
    ensures Reads(FlowText("break", blanks, w, tail)) == BreakOf(1)
    ensures Reads(FlowText("continue", blanks, w, tail)) == ContinueOf(1)
  {
    var digits := if w[0] == '+' then w[1..] else w;
    if digits != "" {
      NoDigits(digits, 0);
    }
    FlowOf(blanks, w, tail, 1);
  }

  /** So does a line without a second word. */
  lemma LevelOfNothing(blanks: string)
    requires Blanks(blanks)
    ensures Reads("break") == BreakOf(1) && Reads("continue") == ContinueOf(1)
    ensures Reads(FlowText("break", blanks, "", "")) == BreakOf(1)
    ensures Reads(FlowText("continue", blanks, "", "")) == ContinueOf(1)
  {
    BareReads();
    FlowOf(blanks, "", "", 1);
  }

  lemma BareReads()
    ensures Reads("break") == BreakOf(1) && Reads("continue") == ContinueOf(1)
  {
    BareFlow("break");
    BareFlow("continue");
    BreakReads("break");
    ContinueReads("continue");
  }

  lemma BareFlow(kw: string)
    requires kw == "break" || kw == "continue"
    ensures LoopCount(kw) == 1
  {
    TakesWord(kw, "");
    assert kw + "" == kw && kw[|kw|..] == "" && !IsSpace(kw[0]);
  }
}
