/** ustar headers: octal fields, the layout, the checksum (POSIX.1-2017, pax utility, "ustar
    Interchange Format"; src/applets/file/tar.rs). */
module TarHeader {
  import opened Prelude

  type Byte = x: int | 0 <= x < 256
  type Bytes = seq<Byte>

  const BLOCK := 512
  const SPACE: Byte := 32
  const ZERO: Byte := 48

  function Zeros(n: nat): (s: Bytes)
    ensures |s| == n && forall i :: 0 <= i < n ==> s[i] == 0
  {
    seq(n, _ => 0)
  }

  // ----- octal numbers

  function Pow8(n: nat): (p: nat)
    ensures p > 0
  {
    if n == 0 then 1 else 8 * Pow8(n - 1)
  }

  function Digit(v: nat): Byte {
    ZERO + v % 8
  }

  /** The octal digits of a number. */
  function Octal(v: nat): (s: Bytes)
    ensures |s| > 0
  {
    if v < 8 then [Digit(v)] else Octal(v / 8) + [Digit(v)]
  }

  /** Octal digits, filled up with zeros to the width. */
  function Format(v: nat, width: nat): (s: Bytes)
    ensures |s| >= width
  {
    var s := Octal(v);
    if |s| >= width then s else seq(width - |s|, _ => ZERO) + s
  }

  /** The last `n` octal digits of `v`. */
  function LastDigits(v: nat, n: nat): (s: Bytes)
    ensures |s| == n && forall i :: 0 <= i < n ==> ZERO <= s[i] < ZERO + 8
  {
    if n == 0 then [] else LastDigits(v / 8, n - 1) + [Digit(v)]
  }

  /** The bytes that `write_octal` leaves in a field. */
  function OctalField(v: nat, width: nat): Bytes
    requires width > 0
  {
    LastDigits(v, width - 1) + [0]
  }

  lemma {:induction false} LastDigitsOfZero(n: nat)
    ensures LastDigits(0, n) == seq(n, _ => ZERO)
  {
    if n > 0 {
      LastDigitsOfZero(n - 1);
      assert seq(n, _ => ZERO) == seq(n - 1, _ => ZERO) + [Digit(0)];
    }
  }

  /** The end of the formatted number is its last digits, padded or cut off. */
  lemma {:induction false} EndOfFormat(v: nat, n: nat)
    ensures Format(v, n)[|Format(v, n)| - n..] == LastDigits(v, n)
    decreases n
  {
    if n == 0 {
    } else if v < 8 {
      OneDigit(v, n);
    } else {
      EndOfFormat(v / 8, n - 1);
      MoreDigits(v, n);
    }
  }

  lemma OneDigit(v: nat, n: nat)
    requires v < 8 && n > 0
    ensures Format(v, n)[|Format(v, n)| - n..] == LastDigits(v, n)
  {
    var f := Format(v, n);
    LastDigitsOfZero(n - 1);
    assert f == LastDigits(0, n - 1) + [Digit(v)];
    assert v / 8 == 0;
    assert |f| == n && f[0..] == f;
  }

  /** The last digit is put behind those of the quotient. */
  lemma MoreDigits(v: nat, n: nat)
    requires v >= 8 && n > 0
    ensures var f, g := Format(v, n), Format(v / 8, n - 1);
            f[|f| - n..] == g[|g| - (n - 1)..] + [Digit(v)]
  {
    var s, t := Octal(v), Octal(v / 8);
    assert s == t + [Digit(v)];
    if |s| >= n {
      assert s[|s| - n..] == t[|t| - (n - 1)..] + [Digit(v)];
    } else {
      assert Format(v, n) == Format(v / 8, n - 1) + [Digit(v)];
    }
  }

  /** `read_octal` from the value `v` on. */
  function ReadOctal(field: Bytes, v: nat): nat
    decreases |field|
  {
    if field == [] then v
    else if ZERO <= field[0] < ZERO + 8 then ReadOctal(field[1..], v * 8 + (field[0] - ZERO))
    else if field[0] == SPACE || field[0] == 0 then ReadOctal(field[1..], v)
    else v
  }

  method ReadOctalField(field: Bytes) returns (v: nat)
    ensures v == ReadOctal(field, 0)
  {
    v := 0;
    for i := 0 to |field|
      invariant ReadOctal(field[i..], v) == ReadOctal(field, 0)
    {
      assert field[i..][1..] == field[i + 1..];
      var b := field[i];
      if ZERO <= b < ZERO + 8 {
        v := v * 8 + (b - ZERO);
      } else if b != SPACE && b != 0 {
        break;
      }
    }
  }

  lemma {:induction false} ReadDigits(v: nat, n: nat, rest: Bytes)
    ensures ReadOctal(LastDigits(v, n) + rest, 0) == ReadOctal(rest, v % Pow8(n))
    decreases n
  {
    if n == 0 {
      assert LastDigits(v, n) + rest == rest;
    } else {
      var d := [Digit(v)];
      assert LastDigits(v, n) + rest == LastDigits(v / 8, n - 1) + (d + rest);
      ReadDigits(v / 8, n - 1, d + rest);
      assert (d + rest)[1..] == rest;
      LowDigit(v, Pow8(n - 1));
    }
  }

  lemma LowDigit(v: nat, p: nat)
    requires p > 0
    ensures (v / 8) % p * 8 + v % 8 == v % (8 * p)
  {
    var q, r := v / 8, v % 8;
    var a, b := q / p, q % p;
    assert v == 8 * q + r && q == p * a + b;
    assert v == (8 * p) * a + (8 * b + r);
    assert 0 <= 8 * b + r < 8 * p;
    DivisionIsUnique(v, 8 * p, a, 8 * b + r);
  }

  lemma {:induction false} MultipleAtLeast(d: int, k: int)
    requires d > 0 && k > 0
    ensures d * k >= d
    decreases k
  {
    if k > 1 {
      MultipleAtLeast(d, k - 1);
      assert d * k == d * (k - 1) + d;
    }
  }

  lemma DivisionIsUnique(v: int, d: int, a: int, b: int)
    requires d > 0 && v == d * a + b && 0 <= b < d
    ensures v % d == b
  {
    var q, r := v / d, v % d;
    assert v == d * q + r;
    if q > a {
      assert d * (q - a) == d * q - d * a;
      MultipleAtLeast(d, q - a);
    } else if q < a {
      assert d * (a - q) == d * a - d * q;
      MultipleAtLeast(d, a - q);
    }
  }

  /** Reading a written field gives the value modulo the field's range. */
  lemma OctalRoundTrip(v: nat, width: nat)
    requires width > 0
    ensures ReadOctal(OctalField(v, width), 0) == v % Pow8(width - 1)
  {
    ReadDigits(v, width - 1, [0]);
  }

  lemma Powers()
    ensures Pow8(4) == 0x1000 && Pow8(6) == 0x4_0000 && Pow8(7) == 0x20_0000 && Pow8(11) == 0x2_0000_0000
  {
    assert Pow8(2) == 64 && Pow8(4) == 0x1000;
    assert Pow8(6) == 64 * Pow8(4) && Pow8(8) == 64 * Pow8(6) && Pow8(10) == 64 * Pow8(8);
  }

  // ----- sums

  function Sum(s: Bytes): nat {
    if s == [] then 0 else Sum(s[..|s| - 1]) + s[|s| - 1]
  }

  lemma {:induction false} SumAppend(a: Bytes, b: Bytes)
    ensures Sum(a + b) == Sum(a) + Sum(b)
    decreases |b|
  {
    if b == [] {
      assert a + b == a;
    } else {
      assert (a + b)[..|a + b| - 1] == a + b[..|b| - 1];
      SumAppend(a, b[..|b| - 1]);
    }
  }

  lemma {:induction false} SumBound(s: Bytes)
    ensures Sum(s) <= 255 * |s|
    decreases |s|
  {
    if s != [] {
      SumBound(s[..|s| - 1]);
    }
  }

  method Total(s: Bytes) returns (sum: nat)
    ensures sum == Sum(s)
  {
    sum := 0;
    for i := 0 to |s|
      invariant sum == Sum(s[..i])
    {
      assert s[..i + 1][..i] == s[..i];
      sum := sum + s[i];
    }
    assert s[..|s|] == s;
  }

  const BLANKS: Bytes := [SPACE, SPACE, SPACE, SPACE, SPACE, SPACE, SPACE, SPACE]

  /** The header with its checksum field blanked. */
  function Blanked(h: Bytes): (b: Bytes)
    requires |h| == BLOCK
    ensures |b| == BLOCK
  {
    h[..148] + BLANKS + h[156..]
  }

  function Checksum(h: Bytes): nat
    requires |h| == BLOCK
  {
    Sum(Blanked(h))
  }

  lemma BlanksSum()
    ensures Sum(BLANKS) == 256
  {
    var four := [SPACE, SPACE, SPACE, SPACE];
    assert BLANKS == four + four;
    SumAppend(four, four);
    assert four == [SPACE] + [SPACE] + ([SPACE] + [SPACE]);
    SumAppend([SPACE] + [SPACE], [SPACE] + [SPACE]);
    SumAppend([SPACE], [SPACE]);
    assert Sum([SPACE]) == 32;
  }

  /** The sum of a header with blanks for its checksum needs no more than six octal digits, so the
      eight bytes of the field always hold it. */
  lemma ChecksumFits(h: Bytes)
    requires |h| == BLOCK
    ensures 256 <= Checksum(h) < Pow8(6)
  {
    SumAppend(h[..148] + BLANKS, h[156..]);
    SumAppend(h[..148], BLANKS);
    SumBound(h[..148]);
    SumBound(h[156..]);
    BlanksSum();
    Powers();
  }

  // ----- reading a header

  datatype Header = Header(name: Bytes, mode: nat, uid: nat, gid: nat, size: nat, typeflag: Byte, linkname: Bytes)

  datatype Error = Truncated | BadChecksum | TruncatedData | UnsafePath | UnsupportedType

  predicate AllZero(h: Bytes) {
    forall i :: 0 <= i < |h| ==> h[i] == 0
  }

  /** The bytes up to the first NUL. */
  function UpToNul(s: Bytes): (t: Bytes)
    ensures t <= s && 0 !in t
    ensures |t| < |s| ==> s[|t|] == 0
  {
    if s == [] || s[0] == 0 then []
    else
      assert [s[0]] + s[1..] == s;
      [s[0]] + UpToNul(s[1..])
  }

  function FullName(prefix: Bytes, name: Bytes): Bytes {
    if prefix == [] then name else prefix + [47] + name
  }

  function Fields(h: Bytes): Header
    requires |h| == BLOCK
  {
    Header(FullName(UpToNul(h[345..500]), UpToNul(h[..100])),
           ReadOctal(h[100..108], 0), ReadOctal(h[108..116], 0), ReadOctal(h[116..124], 0),
           ReadOctal(h[124..136], 0), h[156], UpToNul(h[157..257]))
  }

  /** What `read_header` makes of a block; `Ok(None)` is the end of the archive. */
  function ParseHeader(h: Bytes): Result<Option<Header>, Error>
    requires |h| == BLOCK
  {
    if AllZero(h) then Ok(None)
    else if ReadOctal(h[148..156], 0) != Checksum(h) then Err(BadChecksum)
    else Ok(Some(Fields(h)))
  }

  lemma {:induction false} AllZeroSum(s: Bytes)
    requires AllZero(s)
    ensures ReadOctal(s, 0) == 0
    decreases |s|
  {
    if s != [] {
      AllZeroSum(s[1..]);
    }
  }

  lemma SumUpdate(s: Bytes, i: nat, x: Byte)
    requires i < |s|
    ensures Sum(s[i := x]) == Sum(s) - s[i] + x
  {
    assert s == s[..i] + ([s[i]] + s[i + 1..]) && s[i := x] == s[..i] + ([x] + s[i + 1..]);
    SumAppend(s[..i], [s[i]] + s[i + 1..]);
    SumAppend([s[i]], s[i + 1..]);
    SumAppend(s[..i], [x] + s[i + 1..]);
    SumAppend([x], s[i + 1..]);
    assert Sum([s[i]]) == s[i] && Sum([x]) == x;
  }

  /** Any change of a single byte outside the checksum field is noticed, in whatever header. */
  lemma SingleByteChangeIsNoticed(h: Bytes, i: nat, x: Byte)
    requires |h| == BLOCK && ParseHeader(h).Ok? && ParseHeader(h).value.Some?
    requires i < BLOCK && !(148 <= i < 156) && x != h[i]
    ensures ParseHeader(h[i := x]) == Err(BadChecksum)
  {
    var changed := h[i := x];
    assert changed[148..156] == h[148..156];
    assert Blanked(changed) == Blanked(h)[i := x];
    SumUpdate(Blanked(h), i, x);
    ChecksumFits(h);
    if AllZero(changed) {
      AllZeroSum(changed[148..156]);
    }
  }

  // ----- building a header

  datatype Meta = Meta(
    name: Bytes, mode: nat, uid: nat, gid: nat, size: nat, mtime: int, typeflag: Byte, linkname: Bytes)

  const USTAR: Bytes := [117, 115, 116, 97, 114, 0]
  const VERSION: Bytes := [48, 48]

  /** A name cut to `n` bytes and filled with NULs. */
  function Padded(s: Bytes, n: nat): (t: Bytes)
    ensures |t| == n
  {
    Cut(s, n) + Zeros(n - |Cut(s, n)|)
  }

  function Cut(s: Bytes, n: nat): (t: Bytes)
    ensures t <= s && |t| <= n && (|s| <= n ==> t == s)
  {
    if |s| <= n then s else s[..n]
  }

  /** The checksum field: six digits, NUL, blank. */
  function ChecksumField(sum: nat): Bytes {
    Format(sum, 6) + [0, SPACE]
  }

  /** The contents of every field of a header. */
  ghost predicate Holds(h: Bytes, m: Meta) {
    && |h| == BLOCK
    && h[..100] == Padded(m.name, 100)
    && h[100..108] == OctalField(m.mode % Pow8(4), 8)
    && h[108..116] == OctalField(m.uid, 8)
    && h[116..124] == OctalField(m.gid, 8)
    && h[124..136] == OctalField(m.size, 12)
    && h[136..148] == OctalField(if m.mtime > 0 then m.mtime else 0, 12)
    && h[148..156] == ChecksumField(Checksum(h))
    && h[156] == m.typeflag
    && h[157..257] == Padded(m.linkname, 100)
    && h[257..263] == USTAR && h[263..265] == VERSION
    && h[265..] == Zeros(247)
  }

  /** Overwrites the bytes from `at` on. */
  method CopyTo(h: array<Byte>, at: nat, b: Bytes)
    requires at + |b| <= h.Length
    modifies h
    ensures h[..] == old(h[..])[..at] + b + old(h[..])[at + |b|..]
  {
    forall j | 0 <= j < |b| {
      h[at + j] := b[j];
    }
  }

  lemma TwoCopies(was: Bytes, mid: Bytes, after: Bytes, at: nat, a: Bytes, b: Bytes)
    requires at + |a| + |b| <= |was|
    requires mid == was[..at] + a + was[at + |a|..]
    requires after == mid[..at + |a|] + b + mid[at + |a| + |b|..]
    ensures after == was[..at] + (a + b) + was[at + |a| + |b|..]
  {
  }

  method WriteOctal(h: array<Byte>, from: nat, width: nat, value: nat)
    requires width > 0 && from + width <= h.Length
    modifies h
    ensures h[..] == old(h[..])[..from] + OctalField(value, width) + old(h[..])[from + width..]
  {
    var digits := width - 1;
    var s := Format(value, digits);
    EndOfFormat(value, digits);
    ghost var was := h[..];
    CopyTo(h, from, s[|s| - digits..]);
    ghost var mid := h[..];
    CopyTo(h, from + digits, [0]);
    TwoCopies(was, mid, h[..], from, LastDigits(value, digits), [0]);
  }

  /** A header that has been written up to `at`: `done`, then NULs. */
  ghost predicate WrittenTo(h: Bytes, done: Bytes) {
    |done| <= BLOCK && h == done + Zeros(BLOCK - |done|)
  }

  lemma WriteNext(before: Bytes, after: Bytes, done: Bytes, field: Bytes)
    requires WrittenTo(before, done) && |done| + |field| <= BLOCK
    requires after == before[..|done|] + field + before[|done| + |field|..]
    ensures WrittenTo(after, done + field)
  {
  }

  lemma WritePadded(before: Bytes, after: Bytes, done: Bytes, s: Bytes, n: nat)
    requires WrittenTo(before, done) && |done| + n <= BLOCK
    requires after == before[..|done|] + Cut(s, n) + before[|done| + |Cut(s, n)|..]
    ensures WrittenTo(after, done + Padded(s, n))
  {
    WriteNext(before, after, done, Cut(s, n));
    assert done + Padded(s, n) == done + Cut(s, n) + Zeros(n - |Cut(s, n)|);
  }

  /** The fields before the checksum. */
  function FrontOf(m: Meta): (s: Bytes)
    ensures |s| == 148
  {
    Padded(m.name, 100) + OctalField(m.mode % Pow8(4), 8) + OctalField(m.uid, 8) + OctalField(m.gid, 8)
    + OctalField(m.size, 12) + OctalField(if m.mtime > 0 then m.mtime else 0, 12)
  }

  /** The fields after the checksum. */
  function BackOf(m: Meta): (s: Bytes)
    ensures |s| == 109
  {
    [m.typeflag] + Padded(m.linkname, 100) + USTAR + VERSION
  }

  /** The next field of a header written up to `done`: a number, a text or fixed bytes. */
  method WriteNumber(h: array<Byte>, at: nat, width: nat, value: nat, ghost done: Bytes)
    requires h.Length == BLOCK && WrittenTo(h[..], done) && at == |done| && width > 0 && at + width <= BLOCK
    modifies h
    ensures WrittenTo(h[..], done + OctalField(value, width))
  {
    ghost var was := h[..];
    WriteOctal(h, at, width, value);
    WriteNext(was, h[..], done, OctalField(value, width));
  }

  method WriteText(h: array<Byte>, at: nat, width: nat, s: Bytes, ghost done: Bytes)
    requires h.Length == BLOCK && WrittenTo(h[..], done) && at == |done| && at + width <= BLOCK
    modifies h
    ensures WrittenTo(h[..], done + Padded(s, width))
  {
    ghost var was := h[..];
    CopyTo(h, at, Cut(s, width));
    WritePadded(was, h[..], done, s, width);
  }

  method WriteBytes(h: array<Byte>, at: nat, b: Bytes, ghost done: Bytes)
    requires h.Length == BLOCK && WrittenTo(h[..], done) && at == |done| && at + |b| <= BLOCK
    modifies h
    ensures WrittenTo(h[..], done + b)
  {
    ghost var was := h[..];
    CopyTo(h, at, b);
    WriteNext(was, h[..], done, b);
  }

  method WriteFront(h: array<Byte>, m: Meta)
    requires h.Length == BLOCK && WrittenTo(h[..], [])
    modifies h
    ensures WrittenTo(h[..], FrontOf(m))
  {
    WriteText(h, 0, 100, m.name, []);
    ghost var done := Padded(m.name, 100);
    assert [] + done == done;
    WriteNumber(h, 100, 8, m.mode % Pow8(4), done);
    done := done + OctalField(m.mode % Pow8(4), 8);
    WriteNumber(h, 108, 8, m.uid, done);
    done := done + OctalField(m.uid, 8);
    WriteNumber(h, 116, 8, m.gid, done);
    done := done + OctalField(m.gid, 8);
    WriteNumber(h, 124, 12, m.size, done);
    done := done + OctalField(m.size, 12);
    WriteNumber(h, 136, 12, if m.mtime > 0 then m.mtime else 0, done);
  }

  lemma SkipField(h: Bytes, done: Bytes, n: nat)
    requires WrittenTo(h, done) && |done| + n <= BLOCK
    ensures WrittenTo(h, done + Zeros(n))
  {
  }

  method WriteBack(h: array<Byte>, m: Meta)
    requires h.Length == BLOCK && WrittenTo(h[..], FrontOf(m))
    modifies h
    ensures WrittenTo(h[..], FrontOf(m) + Zeros(8) + BackOf(m))
  {
    SkipField(h[..], FrontOf(m), 8);
    ghost var front := FrontOf(m) + Zeros(8);
    ghost var done := front;
    WriteBytes(h, 156, [m.typeflag], done);
    done := done + [m.typeflag];
    WriteText(h, 157, 100, m.linkname, done);
    done := done + Padded(m.linkname, 100);
    WriteBytes(h, 257, USTAR, done);
    done := done + USTAR;
    WriteBytes(h, 263, VERSION, done);
    BackJoins(front, m);
  }

  lemma BackJoins(front: Bytes, m: Meta)
    ensures front + [m.typeflag] + Padded(m.linkname, 100) + USTAR + VERSION == front + BackOf(m)
  {
  }

  /** The header with `chksum` in its checksum field. */
  function HeaderWith(m: Meta, chksum: Bytes): (h: Bytes)
    requires |chksum| == 8
    ensures |h| == BLOCK
  {
    FrontOf(m) + chksum + BackOf(m) + Zeros(247)
  }

  method BuildHeader(m: Meta) returns (h: array<Byte>)
    ensures fresh(h) && Holds(h[..], m)
  {
    h := new Byte[BLOCK](_ => 0);
    assert WrittenTo(h[..], []);
    WriteFront(h, m);
    WriteBack(h, m);
    WrittenHeader(h[..], m);
    WriteChecksum(h, m);
  }

  /** Sum over the header with blanks in the checksum field, then the sum into that field. */
  method WriteChecksum(h: array<Byte>, m: Meta)
    requires h[..] == HeaderWith(m, Zeros(8))
    modifies h
    ensures Holds(h[..], m)
  {
    ReplaceChecksum(m, Zeros(8), BLANKS);
    CopyTo(h, 148, BLANKS);
    var sum := Total(h[..]);
    BlankedHeader(m, BLANKS);
    ChecksumFits(HeaderWith(m, BLANKS));
    FormatFits(sum);
    ReplaceChecksum(m, BLANKS, ChecksumField(sum));
    CopyTo(h, 148, ChecksumField(sum));
    BlankedHeader(m, ChecksumField(sum));
    HeaderHolds(m, ChecksumField(sum));
  }

  lemma WrittenHeader(h: Bytes, m: Meta)
    requires WrittenTo(h, FrontOf(m) + Zeros(8) + BackOf(m))
    ensures h == HeaderWith(m, Zeros(8))
  {
  }

  lemma ReplaceChecksum(m: Meta, chksum: Bytes, next: Bytes)
    requires |chksum| == 8 && |next| == 8
    ensures var h := HeaderWith(m, chksum); h[..148] + next + h[156..] == HeaderWith(m, next)
  {
    var h := HeaderWith(m, chksum);
    assert h[..148] == FrontOf(m) && h[156..] == BackOf(m) + Zeros(247);
    assert FrontOf(m) + next + (BackOf(m) + Zeros(247)) == HeaderWith(m, next);
  }

  lemma BlankedHeader(m: Meta, chksum: Bytes)
    requires |chksum| == 8
    ensures Blanked(HeaderWith(m, chksum)) == HeaderWith(m, BLANKS)
  {
    ReplaceChecksum(m, chksum, BLANKS);
  }

  lemma {:induction false} OctalLength(v: nat, n: nat)
    requires n > 0 && v < Pow8(n)
    ensures |Octal(v)| <= n
    decreases n
  {
    if v >= 8 {
      OctalLength(v / 8, n - 1);
    }
  }

  lemma FormatFits(sum: nat)
    requires sum < Pow8(6)
    ensures |Format(sum, 6)| == 6 && |ChecksumField(sum)| == 8
  {
    OctalLength(sum, 6);
  }

  lemma HeaderHolds(m: Meta, chksum: Bytes)
    requires |chksum| == 8 && chksum == ChecksumField(Checksum(HeaderWith(m, chksum)))
    ensures Holds(HeaderWith(m, chksum), m)
  {
    var h := HeaderWith(m, chksum);
    FrontHolds(m);
    BackHolds(m);
    assert h[..148] == FrontOf(m) && h[148..156] == chksum && h[156..265] == BackOf(m) && h[265..] == Zeros(247);
    assert h[..100] == h[..148][..100] && h[100..108] == h[..148][100..108] && h[108..116] == h[..148][108..116];
    assert h[116..124] == h[..148][116..124] && h[124..136] == h[..148][124..136] && h[136..148] == h[..148][136..148];
    assert h[156] == h[156..265][0] && h[157..257] == h[156..265][1..101];
    assert h[257..263] == h[156..265][101..107] && h[263..265] == h[156..265][107..109];
  }

  lemma FrontHolds(m: Meta)
    ensures var s := FrontOf(m);
      && s[..100] == Padded(m.name, 100) && s[100..108] == OctalField(m.mode % Pow8(4), 8)
      && s[108..116] == OctalField(m.uid, 8) && s[116..124] == OctalField(m.gid, 8)
      && s[124..136] == OctalField(m.size, 12)
      && s[136..148] == OctalField(if m.mtime > 0 then m.mtime else 0, 12)
  {
  }

  lemma BackHolds(m: Meta)
    ensures var s := BackOf(m);
      s[0] == m.typeflag && s[1..101] == Padded(m.linkname, 100) && s[101..107] == USTAR && s[107..109] == VERSION
  {
  }

  // ----- reading back what was built

  function HeaderOf(m: Meta): Header {
    Header(m.name, m.mode % Pow8(4), m.uid, m.gid, m.size, m.typeflag, m.linkname)
  }

  /** What the format has room for; the type bits of the mode are not stored. */
  predicate InLimits(m: Meta) {
    && |m.name| <= 100 && 0 !in m.name && |m.linkname| <= 100 && 0 !in m.linkname
    && m.uid < Pow8(7) && m.gid < Pow8(7) && m.size < Pow8(11)
  }

  lemma {:induction false} UpToNulPadded(s: Bytes, n: nat)
    ensures UpToNul(Padded(s, n)) == UpToNul(Cut(s, n))
    decreases |s|
  {
    UpToNulZeros(Cut(s, n), n - |Cut(s, n)|);
  }

  lemma {:induction false} UpToNulZeros(s: Bytes, k: nat)
    ensures UpToNul(s + Zeros(k)) == UpToNul(s)
    decreases |s|
  {
    if s == [] {
      assert s + Zeros(k) == Zeros(k);
    } else {
      assert (s + Zeros(k))[1..] == s[1..] + Zeros(k);
      UpToNulZeros(s[1..], k);
    }
  }

  lemma {:induction false} UpToNulWhole(s: Bytes)
    ensures UpToNul(s) == s <==> 0 !in s
    decreases |s|
  {
    if s != [] && s[0] != 0 {
      UpToNulWhole(s[1..]);
      assert s == [s[0]] + s[1..];
    }
  }

  lemma NameSurvives(s: Bytes, n: nat)
    ensures UpToNul(Padded(s, n)) == s <==> |s| <= n && 0 !in s
  {
    UpToNulPadded(s, n);
    UpToNulWhole(Cut(s, n));
  }

  lemma ChecksumReads(h: Bytes)
    requires |h| == BLOCK && h[148..156] == ChecksumField(Checksum(h))
    ensures ReadOctal(h[148..156], 0) == Checksum(h)
  {
    var sum := Checksum(h);
    ChecksumFits(h);
    FormatFits(sum);
    EndOfFormat(sum, 6);
    assert Format(sum, 6)[0..] == Format(sum, 6);
    ReadDigits(sum, 6, [0, SPACE]);
    assert [0, SPACE][1..] == [SPACE];
    assert ReadOctal([0, SPACE], sum) == ReadOctal([SPACE], sum) == sum;
  }

  /** What is read back of the fields of a header. */
  function ReadBack(m: Meta): Header {
    Header(UpToNul(Padded(m.name, 100)), m.mode % Pow8(4), m.uid % Pow8(7), m.gid % Pow8(7),
           m.size % Pow8(11), m.typeflag, UpToNul(Padded(m.linkname, 100)))
  }

  lemma ReadIsWritten(m: Meta)
    ensures ReadBack(m) == HeaderOf(m) <==> InLimits(m)
  {
    NameSurvives(m.name, 100);
    NameSurvives(m.linkname, 100);
    ModSurvives(m.uid, Pow8(7));
    ModSurvives(m.gid, Pow8(7));
    ModSurvives(m.size, Pow8(11));
  }

  lemma ModSurvives(v: nat, range: nat)
    requires range > 0
    ensures v % range == v <==> v < range
  {
  }

  /** What comes back, for every header: numbers modulo their field's range, names cut off at 100
      bytes or at a NUL. */
  lemma BuiltHeaderReads(h: Bytes, m: Meta)
    requires Holds(h, m)
    ensures ParseHeader(h) == Ok(Some(ReadBack(m)))
  {
    assert h[257] == h[257..263][0] == 117;
    ChecksumReads(h);
    OctalRoundTrip(m.mode % Pow8(4), 8);
    ModeFits(m.mode);
    OctalRoundTrip(m.uid, 8);
    OctalRoundTrip(m.gid, 8);
    OctalRoundTrip(m.size, 12);
    assert h[345..500] == h[265..][80..235];
    assert UpToNul(h[345..500]) == [];
  }

  lemma ModeFits(mode: nat)
    ensures mode % Pow8(4) % Pow8(7) == mode % Pow8(4)
  {
    Powers();
  }

  /** A header is read back unchanged exactly if everything in it is within the limits. */
  lemma HeaderRoundTrip(h: Bytes, m: Meta)
    requires Holds(h, m)
    ensures ParseHeader(h) == Ok(Some(HeaderOf(m))) <==> InLimits(m)
  {
    BuiltHeaderReads(h, m);
    ReadIsWritten(m);
  }

  /** A header with a prefix, as other writers make them: the prefix, a slash and the name. */
  lemma PrefixedName(h: Bytes, prefix: Bytes, name: Bytes, x: Header)
    requires |h| == BLOCK && ParseHeader(h) == Ok(Some(x))
    requires |prefix| <= 155 && 0 !in prefix && |name| <= 100 && 0 !in name
    requires h[345..500] == prefix + Zeros(155 - |prefix|) && h[..100] == name + Zeros(100 - |name|)
    ensures x.name == if prefix == [] then name else prefix + [47] + name
  {
    FieldRead(h[345..500], prefix, 155);
    FieldRead(h[..100], name, 100);
    NameIsFull(h);
  }

  lemma FieldRead(field: Bytes, s: Bytes, n: nat)
    requires |s| <= n && 0 !in s && field == s + Zeros(n - |s|)
    ensures UpToNul(field) == s
  {
    assert field == Padded(s, n);
    NameSurvives(s, n);
  }

  lemma NameIsFull(h: Bytes)
    requires |h| == BLOCK
    ensures Fields(h).name == FullName(UpToNul(h[345..500]), UpToNul(h[..100]))
  {
  }

  /** Blanks and NULs before, between and after the digits of a field are skipped. */
  lemma {:induction false} BlanksSkipped(a: Bytes, blanks: Bytes, b: Bytes, v: nat)
    requires (forall i :: 0 <= i < |a| ==> 48 <= a[i] < 56) && forall i :: 0 <= i < |blanks| ==> blanks[i] in {0, 32}
    ensures ReadOctal(a + (blanks + b), v) == ReadOctal(a + b, v)
    decreases |a|, |blanks|
  {
    if a != [] {
      assert (a + (blanks + b))[1..] == a[1..] + (blanks + b) && (a + b)[1..] == a[1..] + b;
      BlanksSkipped(a[1..], blanks, b, v * 8 + (a[0] - 48));
    } else {
      assert [] + (blanks + b) == blanks + b && [] + b == b;
      if blanks == [] {
        assert blanks + b == b;
      } else {
        assert (blanks + b)[1..] == blanks[1..] + b;
        BlanksSkipped([], blanks[1..], b, v);
        assert [] + (blanks[1..] + b) == blanks[1..] + b;
      }
    }
  }

  /** Any other byte ends the number. */
  lemma {:induction false} OthersEnd(a: Bytes, x: Byte, b: Bytes, v: nat)
    requires (forall i :: 0 <= i < |a| ==> 48 <= a[i] < 56) && x !in {0, 32} && !(48 <= x < 56)
    ensures ReadOctal(a + ([x] + b), v) == ReadOctal(a, v)
    decreases |a|
  {
    if a == [] {
      assert a + ([x] + b) == [x] + b;
    } else {
      assert (a + ([x] + b))[1..] == a[1..] + ([x] + b);
      OthersEnd(a[1..], x, b, v * 8 + (a[0] - 48));
    }
  }
}
