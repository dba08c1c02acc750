/** What an archive says about each entry, field by field (src/applets/file/tar.rs). */
module TarFields {
  import opened Prelude
  import opened TarHeader
  import opened TarArchive

  /** The path in the archive: that of a directory ends in a slash. */
  function ListedName(e: Entry): Bytes {
    match e.kind
    case Dir => if e.path != [] && e.path[|e.path| - 1] == 47 then e.path else e.path + [47]
    case _ => e.path
  }

  function Length(e: Entry): nat {
    match e.kind case File(data) => |data| case _ => 0
  }

  /** The format has room for the entry: 100 bytes for a name, seven octal digits for an owner, eleven
      for a length. */
  predicate Fits(e: Entry) {
    && |ListedName(e)| <= 100 && 0 !in e.path
    && (e.kind.Symlink? ==> |e.kind.target| <= 100 && 0 !in e.kind.target)
    && e.uid < 0x20_0000 && e.gid < 0x20_0000 && Length(e) < 0x2_0000_0000
  }

  /** Where the k-th entry begins: after a block and the data in whole blocks for each one before. */
  function Offset(es: seq<Entry>, k: nat): nat
    requires k <= |es|
  {
    if k == 0 then 0 else Offset(es, k - 1) + Blocks(es[k - 1])
  }

  lemma FitsInLimits(e: Entry)
    requires Fits(e)
    ensures InLimits(MetaOf(e))
  {
    Powers();
  }

  /** What the listing says of the header of one entry. */
  predicate Describes(h: Header, e: Entry) {
    && h.name == ListedName(e)
    && h.uid == e.uid && h.gid == e.gid && h.mode == e.mode % 0x1000 && h.size == Length(e)
    && (match e.kind
        case Dir => h.typeflag == '5' as int && h.linkname == []
        case Symlink(target) => h.typeflag == '2' as int && h.linkname == target
        case File(_) => h.typeflag == '0' as int && h.linkname == [])
  }

  /** Listing an archive of entries that fit describes each of them, in order, as it was. */
  lemma ListedAsTheyWere(s: Bytes, es: seq<Entry>, k: nat)
    requires IsArchive(s, es) && (forall j :: 0 <= j < |es| ==> Fits(es[j])) && k < |es|
    ensures ListFrom(s).error.None? && |ListFrom(s).headers| == |es|
    ensures Describes(ListFrom(s).headers[k], es[k])
  {
    forall j | 0 <= j < |es| ensures InLimits(MetaOf(es[j])) {
      FitsInLimits(es[j]);
    }
    ListRoundTrip(s, es);
    Powers();
  }

  // ----- the bytes of one entry

  lemma {:induction false} JoinedAt(parts: seq<Bytes>, k: nat)
    requires k < |parts|
    ensures Joined(parts) == Joined(parts[..k]) + (parts[k] + Joined(parts[k + 1..]))
    decreases |parts|
  {
    if k == 0 {
      assert parts[..0] == [];
    } else {
      JoinedAt(parts[1..], k - 1);
      assert parts[..k][1..] == parts[1..][..k - 1] && parts[1..][k..] == parts[k + 1..];
      assert Joined(parts[..k]) == parts[0] + Joined(parts[1..][..k - 1]);
    }
  }

  /** The length of an entry in the archive. */
  function Blocks(e: Entry): nat {
    512 + (Length(e) + 511) / 512 * 512
  }

  ghost predicate Sized(parts: seq<Bytes>, es: seq<Entry>) {
    |parts| == |es| && forall j :: 0 <= j < |es| ==> |parts[j]| == Blocks(es[j])
  }

  lemma EntryLength(part: Bytes, e: Entry)
    requires IsEntry(part, e)
    ensures |part| == Blocks(e)
  {
  }

  lemma EntriesSized(parts: seq<Bytes>, es: seq<Entry>)
    requires AreEntries(parts, es)
    ensures Sized(parts, es)
  {
    forall j | 0 <= j < |es| ensures |parts[j]| == Blocks(es[j]) {
      EntryLength(parts[j], es[j]);
    }
  }

  lemma JoinedLength(parts: seq<Bytes>, k: nat)
    requires k < |parts|
    ensures |Joined(parts[..k + 1])| == |Joined(parts[..k])| + |parts[k]|
  {
    JoinedAppend(parts[..k], parts[k]);
    assert parts[..k + 1] == parts[..k] + [parts[k]];
  }

  lemma {:induction false} OffsetIsLength(parts: seq<Bytes>, es: seq<Entry>, k: nat)
    requires Sized(parts, es) && k <= |es|
    ensures |Joined(parts[..k])| == Offset(es, k)
  {
    if k == 0 {
      assert parts[..0] == [];
    } else {
      OffsetIsLength(parts, es, k - 1);
      JoinedLength(parts, k - 1);
    }
  }

  /** At `at` the archive holds a block with the entry's numbers in octal, its type byte and the magic, each
      in its place, and the data after it. */
  predicate WrittenAt(s: Bytes, at: nat, e: Entry) {
    && at + 512 + Length(e) <= |s|
    && NumbersIn(s[at..at + 512], e)
    && (e.kind.File? ==> s[at + 512..at + 512 + Length(e)] == e.kind.data)
  }

  /** The places that the ustar format gives the fields. */
  predicate NumbersIn(h: Bytes, e: Entry)
    requires |h| == 512
  {
    && ReadOctal(h[100..108], 0) == e.mode % 0x1000
    && ReadOctal(h[108..116], 0) == e.uid % 0x20_0000
    && ReadOctal(h[116..124], 0) == e.gid % 0x20_0000
    && ReadOctal(h[124..136], 0) == Length(e) % 0x2_0000_0000
    && ReadOctal(h[136..148], 0) == (if e.mtime > 0 then e.mtime else 0) % 0x2_0000_0000
    && h[156] == (match e.kind case Dir => '5' case Symlink(_) => '2' case File(_) => '0') as int
    && h[257..265] == [117, 115, 116, 97, 114, 0, 48, 48]
  }

  /** So it is with each entry at its place. */
  lemma WrittenAtOffset(s: Bytes, es: seq<Entry>, k: nat)
    requires IsArchive(s, es) && k < |es|
    ensures WrittenAt(s, Offset(es, k), es[k])
  {
    var parts :| AreEntries(parts, es) && s == Joined(parts) + Zeros(2 * BLOCK);
    EntriesSized(parts, es);
    OffsetIsLength(parts, es, k);
    SplitAtPart(s, parts, k);
    SeenAt(s, Joined(parts[..k]), parts[k], Joined(parts[k + 1..]) + Zeros(2 * BLOCK), es[k]);
  }

  lemma SplitAtPart(s: Bytes, parts: seq<Bytes>, k: nat)
    requires k < |parts| && s == Joined(parts) + Zeros(2 * BLOCK)
    ensures s == Joined(parts[..k]) + (parts[k] + (Joined(parts[k + 1..]) + Zeros(2 * BLOCK)))
  {
    JoinedAt(parts, k);
    Regroup(Joined(parts[..k]), parts[k], Joined(parts[k + 1..]), Zeros(2 * BLOCK));
  }

  lemma Regroup(a: Bytes, b: Bytes, c: Bytes, d: Bytes)
    ensures a + (b + c) + d == a + (b + (c + d))
  {
  }

  lemma SeenAt(s: Bytes, before: Bytes, part: Bytes, rest: Bytes, e: Entry)
    requires s == before + (part + rest) && IsEntry(part, e)
    ensures WrittenAt(s, |before|, e)
  {
    NumbersHeld(part[..BLOCK], e);
    DataFollow(part, e);
    Shifted(s, before, part, rest, e);
  }

  /** A block and its data stand in the archive as they stand by themselves. */
  lemma Shifted(s: Bytes, before: Bytes, part: Bytes, rest: Bytes, e: Entry)
    requires s == before + (part + rest) && |part| >= 512 + Length(e) && NumbersIn(part[..512], e)
    requires e.kind.File? ==> part[512..512 + Length(e)] == e.kind.data
    ensures WrittenAt(s, |before|, e)
  {
    assert s[|before|..|before| + 512] == part[..512] by {
      Within(before, part, rest, 0, 512);
    }
    Within(before, part, rest, 512, 512 + Length(e));
  }

  lemma Within(before: Bytes, part: Bytes, rest: Bytes, i: nat, j: nat)
    requires i <= j <= |part|
    ensures (before + (part + rest))[|before| + i..|before| + j] == part[i..j]
  {
  }

  lemma SmallField(t: nat)
    ensures ReadOctal(OctalField(t, 8), 0) == t % 0x20_0000
  {
    OctalRoundTrip(t, 8);
    Powers();
  }

  lemma LargeField(t: nat)
    ensures ReadOctal(OctalField(t, 12), 0) == t % 0x2_0000_0000
  {
    OctalRoundTrip(t, 12);
    Powers();
  }

  lemma ModeField(mode: nat)
    ensures ReadOctal(OctalField(mode % Pow8(4), 8), 0) == mode % 0x1000
  {
    SmallField(mode % Pow8(4));
    Powers();
  }

  lemma NumbersHeld(h: Bytes, e: Entry)
    requires Holds(h, MetaOf(e))
    ensures NumbersIn(h, e)
  {
    ModeField(e.mode);
    SmallField(e.uid);
    SmallField(e.gid);
    LargeField(Length(e));
    LargeField(if e.mtime > 0 then e.mtime else 0);
    assert h[257..265] == h[257..263] + h[263..265];
  }

  lemma DataFollow(part: Bytes, e: Entry)
    requires IsEntry(part, e)
    ensures |part| >= 512 + Length(e) && (e.kind.File? ==> part[512..512 + Length(e)] == e.kind.data)
  {
    assert |part[BLOCK..]| == |part| - BLOCK;
    assert part[512..512 + Length(e)] == part[BLOCK..][..Length(e)];
  }

  // ----- what extraction makes of a header

  /** The type byte decides: '5' is a directory, '2' a link, '0' or NUL a file, which needs its data to be
      there; no other is supported. */
  lemma TypeByteDecides(h: Header, path: Bytes, after: Bytes)
    ensures h.typeflag == '5' as int ==> ItemOf(h, path, after) == Ok(MadeDir(path, h.mode))
    ensures h.typeflag == '2' as int ==> ItemOf(h, path, after) == Ok(MadeLink(path, h.linkname))
    ensures h.typeflag == '0' as int || h.typeflag == 0 ==>
      ItemOf(h, path, after)
      == if |after| >= h.size then Ok(MadeFile(path, h.mode, after[..h.size])) else Err(TruncatedData)
    ensures h.typeflag !in {'5' as int, '2' as int, '0' as int, 0} ==> ItemOf(h, path, after) == Err(UnsupportedType)
  {
  }

  /** All slashes at the end of a name are dropped before it is placed, and nothing else. */
  lemma {:induction false} SlashesDropped(path: Bytes, slashes: Bytes)
    requires (path != [] ==> path[|path| - 1] != 47) && forall i :: 0 <= i < |slashes| ==> slashes[i] == 47
    ensures TrimSlashes(path + slashes) == path
    decreases |slashes|
  {
    if slashes == [] {
      assert path + slashes == path;
    } else {
      var rest := slashes[..|slashes| - 1];
      assert (path + slashes)[..|path + slashes| - 1] == path + rest;
      SlashesDropped(path, rest);
    }
  }
}
