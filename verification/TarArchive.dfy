/** Archives: entries written one after another, and read back through a reader that may return
    fewer bytes than asked for (src/applets/file/tar.rs). */
module TarArchive {
  import opened Prelude
  import opened TarHeader

  // ----- reading with short reads

  /** A source of bytes. A read returns at least one byte unless none are left or wanted, but how
      many is not determined. */
  class Reader {
    const data: Bytes
    var pos: nat

    ghost predicate Valid()
      reads this
    {
      pos <= |data|
    }

    ghost function Rest(): Bytes
      requires Valid()
      reads this
    {
      data[pos..]
    }

    constructor (data: Bytes)
      ensures Valid() && Rest() == data
    {
      this.data, pos := data, 0;
    }

    method Read(max: nat) returns (chunk: Bytes)
      requires Valid()
      modifies this`pos
      ensures Valid() && |chunk| <= max && old(Rest()) == chunk + Rest()
      ensures chunk == [] <==> max == 0 || old(Rest()) == []
    {
      if max == 0 || pos == |data| {
        chunk := [];
      } else {
        var n: nat :| 1 <= n <= max && pos + n <= |data|;
        chunk := data[pos..pos + n];
        pos := pos + n;
      }
    }
  }

  function Drop(s: Bytes, n: nat): (t: Bytes)
    ensures |t| <= |s|
  {
    if n <= |s| then s[n..] else []
  }

  function Take(s: Bytes, n: nat): Bytes {
    if n <= |s| then s[..n] else s
  }

  lemma TakeAndDrop(got: Bytes, rest: Bytes, n: nat)
    requires |got| == n || (|got| < n && rest == [])
    ensures got == Take(got + rest, n) && rest == Drop(got + rest, n)
  {
  }

  lemma JoinThree(a: Bytes, b: Bytes, c: Bytes)
    ensures a + b + c == a + (b + c)
  {
  }

  /** Reads until `n` bytes have been read or none are left. */
  method ReadUpTo(r: Reader, n: nat) returns (got: Bytes)
    requires r.Valid()
    modifies r`pos
    ensures r.Valid() && got == Take(old(r.Rest()), n) && r.Rest() == Drop(old(r.Rest()), n)
  {
    got := [];
    while |got| < n
      invariant r.Valid() && |got| <= n && old(r.Rest()) == got + r.Rest()
      decreases n - |got|
    {
      var want := n - |got|;
      var chunk := r.Read(if want < 8192 then want else 8192);
      if chunk == [] {
        break;
      }
      JoinThree(got, chunk, r.Rest());
      got := got + chunk;
    }
    TakeAndDrop(got, r.Rest(), n);
  }

  /** What `read_header` finds in the bytes to come. */
  function NextHeader(rest: Bytes): Result<Option<Header>, Error> {
    if rest == [] then Ok(None)
    else if |rest| < BLOCK then Err(Truncated)
    else ParseHeader(rest[..BLOCK])
  }

  method ReadHeader(r: Reader) returns (res: Result<Option<Header>, Error>)
    requires r.Valid()
    modifies r`pos
    ensures r.Valid() && res == NextHeader(old(r.Rest())) && r.Rest() == Drop(old(r.Rest()), BLOCK)
  {
    var h := ReadUpTo(r, BLOCK);
    if h == [] {
      res := Ok(None);
    } else if |h| < BLOCK {
      res := Err(Truncated);
    } else if AllZero(h) {
      res := Ok(None);
    } else {
      var stored := ReadOctalField(h[148..156]);
      var actual := Total(h[..148] + BLANKS + h[156..]);
      res := if stored != actual then Err(BadChecksum) else Ok(Some(Fields(h)));
    }
  }

  /** A size rounded up to whole blocks. */
  function PaddedSize(n: nat): (p: nat)
    ensures n <= p < n + BLOCK
  {
    (n + BLOCK - 1) / BLOCK * BLOCK
  }

  lemma PaddedAligned(n: nat)
    ensures (BLOCK + PaddedSize(n)) % BLOCK == 0
  {
    DivisionIsUnique(BLOCK + PaddedSize(n), BLOCK, 1 + (n + BLOCK - 1) / BLOCK, 0);
  }

  function Padding(n: nat): nat {
    (BLOCK - n % BLOCK) % BLOCK
  }

  lemma PaddingFills(n: nat)
    ensures n + Padding(n) == PaddedSize(n)
  {
    var q, r := n / BLOCK, n % BLOCK;
    assert n == BLOCK * q + r;
    if r == 0 {
      assert (n + BLOCK - 1) / BLOCK == q;
    } else {
      assert (n + BLOCK - 1) / BLOCK == q + 1;
    }
  }

  method SkipData(r: Reader, size: nat)
    requires r.Valid()
    modifies r`pos
    ensures r.Valid() && r.Rest() == Drop(old(r.Rest()), PaddedSize(size))
  {
    var remaining: nat := PaddedSize(size);
    while remaining > 0
      invariant r.Valid() && remaining <= PaddedSize(size)
      invariant Drop(r.Rest(), remaining) == Drop(old(r.Rest()), PaddedSize(size))
      decreases remaining
    {
      var chunk := r.Read(if remaining < 8192 then remaining else 8192);
      if chunk == [] {
        break;
      }
      remaining := remaining - |chunk|;
    }
  }

  // ----- listing

  datatype Listing = Listing(headers: seq<Header>, error: Option<Error>)

  function ListFrom(rest: Bytes): Listing
    decreases |rest|
  {
    match NextHeader(rest)
    case Err(e) => Listing([], Some(e))
    case Ok(None) => Listing([], None)
    case Ok(Some(h)) =>
      var more := ListFrom(Drop(Drop(rest, BLOCK), PaddedSize(h.size)));
      Listing([h] + more.headers, more.error)
  }

  /** `headers` have been listed and `rest` is still to be read. */
  ghost predicate Lists(all: Bytes, headers: seq<Header>, rest: Bytes) {
    ListFrom(all) == Listing(headers + ListFrom(rest).headers, ListFrom(rest).error)
  }

  lemma ListsMore(all: Bytes, headers: seq<Header>, rest: Bytes, h: Header, next: Bytes)
    requires Lists(all, headers, rest)
    requires ListFrom(rest) == Listing([h] + ListFrom(next).headers, ListFrom(next).error)
    ensures Lists(all, headers + [h], next)
  {
    ListAppends(headers, h, ListFrom(next).headers);
  }

  lemma ListAppends(headers: seq<Header>, h: Header, more: seq<Header>)
    ensures headers + ([h] + more) == headers + [h] + more
  {
  }

  method ListArchive(r: Reader) returns (l: Listing)
    requires r.Valid()
    modifies r`pos
    ensures l == ListFrom(old(r.Rest()))
  {
    var headers := [];
    while true
      invariant r.Valid() && Lists(old(r.Rest()), headers, r.Rest())
      decreases |r.Rest()|
    {
      ghost var before := r.Rest();
      var res := ReadHeader(r);
      match res {
        case Err(e) => return Listing(headers, Some(e));
        case Ok(None) => return Listing(headers, None);
        case Ok(Some(h)) =>
          SkipData(r, h.size);
          ListsMore(old(r.Rest()), headers, before, h, r.Rest());
          headers := headers + [h];
      }
    }
  }

  // ----- extracting

  const DIRECTORY: Byte := 53
  const SYMLINK: Byte := 50
  const REGULAR: Byte := 48
  const SLASH: Byte := 47

  /** What is made in the file system; `Partial` is a file whose data ended early. */
  datatype Item =
    | MadeDir(path: Bytes, mode: nat)
    | MadeLink(path: Bytes, target: Bytes)
    | MadeFile(path: Bytes, mode: nat, data: Bytes)
    | Partial(path: Bytes, data: Bytes)

  datatype Extraction = Extraction(items: seq<Item>, error: Option<Error>)

  function TrimSlashes(s: Bytes): Bytes {
    if s != [] && s[|s| - 1] == SLASH then TrimSlashes(s[..|s| - 1]) else s
  }

  /** The item that a header stands for, its data taken from the bytes that follow. */
  function ItemOf(h: Header, path: Bytes, after: Bytes): Result<Item, Error> {
    if h.typeflag == DIRECTORY then Ok(MadeDir(path, h.mode))
    else if h.typeflag == SYMLINK then Ok(MadeLink(path, h.linkname))
    else if h.typeflag == 0 || h.typeflag == REGULAR then
      if |after| < h.size then Err(TruncatedData) else Ok(MadeFile(path, h.mode, after[..h.size]))
    else Err(UnsupportedType)
  }

  /** The rest of an extraction; `place` says where a name goes, if it is safe. */
  function ExtractFrom(rest: Bytes, place: Bytes -> Option<Bytes>): Extraction
    decreases |rest|
  {
    match NextHeader(rest)
    case Err(e) => Extraction([], Some(e))
    case Ok(None) => Extraction([], None)
    case Ok(Some(h)) =>
      var after := Drop(rest, BLOCK);
      match place(TrimSlashes(h.name))
      case None => Extraction([], Some(UnsafePath))
      case Some(path) =>
        match ItemOf(h, path, after)
        case Err(e) => Extraction(if e == TruncatedData then [Partial(path, after)] else [], Some(e))
        case Ok(item) =>
          var more := ExtractFrom(Drop(after, PaddedSize(h.size)), place);
          Extraction([item] + more.items, more.error)
  }

  /** The data of a file and the padding after it. */
  method ReadFile(r: Reader, size: nat) returns (data: Bytes)
    requires r.Valid()
    modifies r`pos
    ensures r.Valid() && data == Take(old(r.Rest()), size)
    ensures |data| == size ==> r.Rest() == Drop(old(r.Rest()), PaddedSize(size))
  {
    data := ReadUpTo(r, size);
    if |data| == size {
      PaddingFills(size);
      var pad := ReadUpTo(r, Padding(size));
    }
  }

  method ExtractOne(r: Reader, h: Header, path: Bytes) returns (item: Result<Item, Error>, partial: Bytes)
    requires r.Valid()
    modifies r`pos
    ensures r.Valid() && item == ItemOf(h, path, old(r.Rest()))
    ensures item.Ok? ==> r.Rest() == Drop(old(r.Rest()), PaddedSize(h.size))
    ensures item == Err(TruncatedData) ==> partial == old(r.Rest())
  {
    partial := [];
    if h.typeflag == DIRECTORY {
      item := Ok(MadeDir(path, h.mode));
      SkipData(r, h.size);
    } else if h.typeflag == SYMLINK {
      item := Ok(MadeLink(path, h.linkname));
      SkipData(r, h.size);
    } else if h.typeflag == 0 || h.typeflag == REGULAR {
      partial := ReadFile(r, h.size);
      item := if |partial| < h.size then Err(TruncatedData) else Ok(MadeFile(path, h.mode, partial));
    } else {
      item := Err(UnsupportedType);
    }
  }

  /** `items` have been extracted and `rest` is still to be read. */
  ghost predicate Extracts(all: Bytes, place: Bytes -> Option<Bytes>, items: seq<Item>, rest: Bytes) {
    var more := ExtractFrom(rest, place);
    ExtractFrom(all, place) == Extraction(items + more.items, more.error)
  }

  lemma ExtractsMore(all: Bytes, place: Bytes -> Option<Bytes>, items: seq<Item>, rest: Bytes, item: Item, next: Bytes)
    requires Extracts(all, place, items, rest)
    requires ExtractFrom(rest, place)
             == Extraction([item] + ExtractFrom(next, place).items, ExtractFrom(next, place).error)
    ensures Extracts(all, place, items + [item], next)
  {
  }

  /** One round of the extraction: an item, or how it ends with the last items. */
  method ExtractNext(r: Reader, place: Bytes -> Option<Bytes>) returns (item: Option<Item>, last: Extraction)
    requires r.Valid()
    modifies r`pos
    ensures r.Valid() && (item.Some? ==> |r.Rest()| < |old(r.Rest())|)
    ensures item.Some? ==> var more := ExtractFrom(r.Rest(), place);
              ExtractFrom(old(r.Rest()), place) == Extraction([item.value] + more.items, more.error)
    ensures item.None? ==> ExtractFrom(old(r.Rest()), place) == last
  {
    item, last := None, Extraction([], None);
    var res := ReadHeader(r);
    match res {
      case Err(e) => last := Extraction([], Some(e));
      case Ok(None) =>
      case Ok(Some(h)) =>
        var path := place(TrimSlashes(h.name));
        if path.None? {
          last := Extraction([], Some(UnsafePath));
        } else {
          var made, partial := ExtractOne(r, h, path.value);
          match made {
            case Err(e) =>
              last := Extraction(if e == TruncatedData then [Partial(path.value, partial)] else [], Some(e));
            case Ok(i) => item := Some(i);
          }
        }
    }
  }

  method ExtractArchive(r: Reader, place: Bytes -> Option<Bytes>) returns (x: Extraction)
    requires r.Valid()
    modifies r`pos
    ensures x == ExtractFrom(old(r.Rest()), place)
  {
    var items := [];
    while true
      invariant r.Valid() && Extracts(old(r.Rest()), place, items, r.Rest())
      decreases |r.Rest()|
    {
      ghost var before := r.Rest();
      var item, last := ExtractNext(r, place);
      if item.None? {
        return Extraction(items + last.items, last.error);
      }
      ExtractsMore(old(r.Rest()), place, items, before, item.value, r.Rest());
      items := items + [item.value];
    }
  }

  // ----- writing

  datatype Kind = Dir | Symlink(target: Bytes) | File(data: Bytes)

  datatype Entry = Entry(path: Bytes, mode: nat, uid: nat, gid: nat, mtime: int, kind: Kind)

  function DataOf(e: Entry): Bytes {
    if e.kind.File? then e.kind.data else []
  }

  function NameOf(e: Entry): Bytes {
    if e.kind.Dir? && (e.path == [] || e.path[|e.path| - 1] != SLASH) then e.path + [SLASH] else e.path
  }

  function MetaOf(e: Entry): Meta {
    Meta(NameOf(e), e.mode, e.uid, e.gid, |DataOf(e)|, e.mtime,
         match e.kind case Dir => DIRECTORY case Symlink(_) => SYMLINK case File(_) => REGULAR,
         if e.kind.Symlink? then e.kind.target else [])
  }

  function SizeOf(e: Entry): nat {
    BLOCK + PaddedSize(|DataOf(e)|)
  }

  /** A header, the data, and NULs up to the next block. */
  ghost predicate IsEntry(s: Bytes, e: Entry) {
    && |s| == SizeOf(e)
    && Holds(s[..BLOCK], MetaOf(e))
    && s[BLOCK..] == DataOf(e) + Zeros(PaddedSize(|DataOf(e)|) - |DataOf(e)|)
  }

  /** The parts of an archive, one for each entry. */
  ghost predicate AreEntries(parts: seq<Bytes>, es: seq<Entry>) {
    |parts| == |es| && forall k :: 0 <= k < |es| ==> IsEntry(parts[k], es[k])
  }

  function Joined(parts: seq<Bytes>): Bytes {
    if parts == [] then [] else parts[0] + Joined(parts[1..])
  }

  /** The entries one after another, then two blocks of NULs. */
  ghost predicate IsArchive(s: Bytes, es: seq<Entry>) {
    exists parts :: AreEntries(parts, es) && s == Joined(parts) + Zeros(2 * BLOCK)
  }

  lemma {:induction false} JoinedAppend(parts: seq<Bytes>, t: Bytes)
    ensures Joined(parts + [t]) == Joined(parts) + t
    decreases |parts|
  {
    if parts == [] {
      assert parts + [t] == [t] && [t][1..] == [];
    } else {
      assert (parts + [t])[1..] == parts[1..] + [t];
      JoinedAppend(parts[1..], t);
    }
  }

  /** Copies a file of unknown length in the chunks that its reads return. */
  method CopyFile(data: Bytes, out: Bytes) returns (all: Bytes, written: nat)
    ensures all == out + data && written == |data|
  {
    var f := new Reader(data);
    all, written := out, 0;
    while true
      invariant f.Valid() && out + data == all + f.Rest() && written + |f.Rest()| == |data|
      decreases |f.Rest()|
    {
      var chunk := f.Read(8192);
      if chunk == [] {
        break;
      }
      all, written := all + chunk, written + |chunk|;
    }
  }

  lemma EntryBytes(h: Bytes, e: Entry)
    requires Holds(h, MetaOf(e))
    ensures IsEntry(h + (DataOf(e) + Zeros(Padding(|DataOf(e)|))), e)
  {
    var s := h + (DataOf(e) + Zeros(Padding(|DataOf(e)|)));
    PaddingFills(|DataOf(e)|);
    assert s[..BLOCK] == h && s[BLOCK..] == DataOf(e) + Zeros(Padding(|DataOf(e)|));
  }

  /** The data of a file and its padding; nothing for a directory or a link. */
  method WriteData(kind: Kind, out: Bytes) returns (all: Bytes)
    ensures kind.File? ==> all == out + (kind.data + Zeros(Padding(|kind.data|)))
    ensures !kind.File? ==> all == out
  {
    all := out;
    if kind.File? {
      var copied, written := CopyFile(kind.data, out);
      all := copied + Zeros(Padding(written));
    }
  }

  method WriteEntry(e: Entry, out: Bytes) returns (all: Bytes, ghost part: Bytes)
    ensures all == out + part && IsEntry(part, e)
  {
    var h := BuildHeader(MetaOf(e));
    ghost var body := DataOf(e) + Zeros(Padding(|DataOf(e)|));
    part := h[..] + body;
    EntryBytes(h[..], e);
    all := WriteData(e.kind, out + h[..]);
    assert e.kind.File? || body == [];
    JoinThree(out, h[..], body);
  }

  lemma OneMoreEntry(parts: seq<Bytes>, es: seq<Entry>, i: nat, part: Bytes)
    requires i < |es| && AreEntries(parts, es[..i]) && IsEntry(part, es[i])
    ensures AreEntries(parts + [part], es[..i + 1])
  {
    forall k | 0 <= k < i + 1 ensures IsEntry((parts + [part])[k], es[..i + 1][k]) {
      if k < i {
        assert IsEntry(parts[k], es[..i][k]);
      }
    }
  }

  method CreateArchive(es: seq<Entry>) returns (out: Bytes)
    ensures IsArchive(out, es)
  {
    out := [];
    ghost var parts: seq<Bytes> := [];
    for i := 0 to |es|
      invariant AreEntries(parts, es[..i]) && out == Joined(parts)
    {
      ghost var part;
      out, part := WriteEntry(es[i], out);
      JoinedAppend(parts, part);
      OneMoreEntry(parts, es, i, part);
      parts := parts + [part];
    }
    assert es[..|es|] == es;
    out := out + Zeros(2 * BLOCK);
  }

  // ----- what is read is what was written

  /** The part starts with this header and data and is padded to whole blocks. */
  ghost predicate Parses(s: Bytes, h: Header, data: Bytes) {
    && |s| == BLOCK + PaddedSize(|data|) && h.size == |data|
    && ParseHeader(s[..BLOCK]) == Ok(Some(h))
    && data <= s[BLOCK..]
  }

  lemma EntryParses(s: Bytes, e: Entry)
    requires IsEntry(s, e) && InLimits(MetaOf(e))
    ensures Parses(s, HeaderOf(MetaOf(e)), DataOf(e))
  {
    HeaderRoundTrip(s[..BLOCK], MetaOf(e));
  }

  lemma PartRead(s: Bytes, h: Header, data: Bytes, tail: Bytes)
    requires Parses(s, h, data)
    ensures NextHeader(s + tail) == Ok(Some(h))
    ensures data <= Drop(s + tail, BLOCK)
    ensures Drop(Drop(s + tail, BLOCK), PaddedSize(h.size)) == tail
  {
    assert (s + tail)[..BLOCK] == s[..BLOCK];
    assert (s + tail)[BLOCK..] == s[BLOCK..] + tail;
  }

  predicate AllInLimits(es: seq<Entry>) {
    forall k :: 0 <= k < |es| ==> InLimits(MetaOf(es[k]))
  }

  ghost predicate AllParse(parts: seq<Bytes>, hs: seq<Header>, datas: seq<Bytes>) {
    |parts| == |hs| == |datas| && forall k :: 0 <= k < |hs| ==> Parses(parts[k], hs[k], datas[k])
  }

  function HeadersOf(es: seq<Entry>): seq<Header> {
    seq(|es|, k requires 0 <= k < |es| => HeaderOf(MetaOf(es[k])))
  }

  function DatasOf(es: seq<Entry>): seq<Bytes> {
    seq(|es|, k requires 0 <= k < |es| => DataOf(es[k]))
  }

  lemma EntriesParse(parts: seq<Bytes>, es: seq<Entry>)
    requires AreEntries(parts, es) && AllInLimits(es)
    ensures AllParse(parts, HeadersOf(es), DatasOf(es))
  {
    forall k | 0 <= k < |es| ensures Parses(parts[k], HeadersOf(es)[k], DatasOf(es)[k]) {
      assert IsEntry(parts[k], es[k]);
      EntryParses(parts[k], es[k]);
    }
  }

  lemma JoinedFirst(parts: seq<Bytes>, tail: Bytes)
    requires parts != []
    ensures Joined(parts) + tail == parts[0] + (Joined(parts[1..]) + tail)
  {
  }

  lemma ListStep(part: Bytes, h: Header, data: Bytes, tail: Bytes)
    requires Parses(part, h, data)
    ensures ListFrom(part + tail) == Listing([h] + ListFrom(tail).headers, ListFrom(tail).error)
  {
    PartRead(part, h, data, tail);
  }

  lemma ListPrepend(h: Header, hs: seq<Header>, l: Listing)
    ensures Listing([h] + (hs + l.headers), l.error) == Listing([h] + hs + l.headers, l.error)
  {
  }

  lemma {:induction false} ListsParts(parts: seq<Bytes>, hs: seq<Header>, datas: seq<Bytes>, tail: Bytes)
    requires AllParse(parts, hs, datas)
    ensures ListFrom(Joined(parts) + tail) == Listing(hs + ListFrom(tail).headers, ListFrom(tail).error)
    decreases |hs|
  {
    if hs == [] {
      assert Joined(parts) + tail == tail;
    } else {
      JoinedFirst(parts, tail);
      ListStep(parts[0], hs[0], datas[0], Joined(parts[1..]) + tail);
      ListsParts(parts[1..], hs[1..], datas[1..], tail);
      ListPrepend(hs[0], hs[1..], ListFrom(tail));
      assert hs == [hs[0]] + hs[1..];
    }
  }

  lemma TrailerEnds()
    ensures NextHeader(Zeros(2 * BLOCK)) == Ok(None)
  {
  }

  /** Listing an archive gives the header of every entry, in order. */
  lemma ListRoundTrip(s: Bytes, es: seq<Entry>)
    requires IsArchive(s, es) && AllInLimits(es)
    ensures ListFrom(s) == Listing(HeadersOf(es), None)
  {
    var parts :| AreEntries(parts, es) && s == Joined(parts) + Zeros(2 * BLOCK);
    EntriesParse(parts, es);
    ListsParts(parts, HeadersOf(es), DatasOf(es), Zeros(2 * BLOCK));
    TrailerEnds();
  }

  /** What extracting an entry to `path` makes. */
  function Restored(e: Entry, path: Bytes): Item {
    match e.kind
    case Dir => MadeDir(path, e.mode % Pow8(4))
    case Symlink(target) => MadeLink(path, target)
    case File(data) => MadeFile(path, e.mode % Pow8(4), data)
  }

  function PlaceOf(e: Entry, place: Bytes -> Option<Bytes>): Option<Bytes> {
    place(TrimSlashes(NameOf(e)))
  }

  ghost predicate AllPlaced(es: seq<Entry>, place: Bytes -> Option<Bytes>) {
    forall k :: 0 <= k < |es| ==> PlaceOf(es[k], place).Some?
  }

  function ItemsOf(es: seq<Entry>, place: Bytes -> Option<Bytes>): seq<Item>
    requires AllPlaced(es, place)
  {
    seq(|es|, k requires 0 <= k < |es| => Restored(es[k], PlaceOf(es[k], place).value))
  }

  lemma EntryItem(e: Entry, path: Bytes, after: Bytes)
    requires DataOf(e) <= after
    ensures ItemOf(HeaderOf(MetaOf(e)), path, after) == Ok(Restored(e, path))
  {
    assert after[..|DataOf(e)|] == DataOf(e);
  }

  /** The header yields the item, whatever follows its data. */
  ghost predicate Yields(h: Header, data: Bytes, item: Item, place: Bytes -> Option<Bytes>) {
    && place(TrimSlashes(h.name)).Some?
    && forall after :: data <= after ==> ItemOf(h, place(TrimSlashes(h.name)).value, after) == Ok(item)
  }

  ghost predicate AllYield(hs: seq<Header>, datas: seq<Bytes>, items: seq<Item>, place: Bytes -> Option<Bytes>) {
    |hs| == |datas| == |items| && forall k :: 0 <= k < |hs| ==> Yields(hs[k], datas[k], items[k], place)
  }

  lemma EntriesYield(es: seq<Entry>, place: Bytes -> Option<Bytes>)
    requires AllPlaced(es, place)
    ensures AllYield(HeadersOf(es), DatasOf(es), ItemsOf(es, place), place)
  {
    forall k | 0 <= k < |es| ensures Yields(HeadersOf(es)[k], DatasOf(es)[k], ItemsOf(es, place)[k], place) {
      forall after | DataOf(es[k]) <= after
        ensures ItemOf(HeaderOf(MetaOf(es[k])), PlaceOf(es[k], place).value, after) == Ok(ItemsOf(es, place)[k])
      {
        EntryItem(es[k], PlaceOf(es[k], place).value, after);
      }
    }
  }

  lemma ExtractStep(part: Bytes, h: Header, data: Bytes, item: Item, tail: Bytes, place: Bytes -> Option<Bytes>)
    requires Parses(part, h, data) && Yields(h, data, item, place)
    ensures ExtractFrom(part + tail, place)
            == Extraction([item] + ExtractFrom(tail, place).items, ExtractFrom(tail, place).error)
  {
    PartRead(part, h, data, tail);
  }

  lemma ItemsPrepend(items: seq<Item>, more: seq<Item>)
    requires items != []
    ensures [items[0]] + (items[1..] + more) == items + more
  {
  }

  lemma YieldsDrop(parts: seq<Bytes>, hs: seq<Header>, datas: seq<Bytes>, items: seq<Item>,
                   place: Bytes -> Option<Bytes>)
    requires AllParse(parts, hs, datas) && AllYield(hs, datas, items, place) && hs != []
    ensures Parses(parts[0], hs[0], datas[0]) && Yields(hs[0], datas[0], items[0], place)
    ensures AllParse(parts[1..], hs[1..], datas[1..]) && AllYield(hs[1..], datas[1..], items[1..], place)
  {
  }

  lemma {:induction false} ExtractsParts(parts: seq<Bytes>, hs: seq<Header>, datas: seq<Bytes>, items: seq<Item>,
                                         tail: Bytes, place: Bytes -> Option<Bytes>)
    requires AllParse(parts, hs, datas) && AllYield(hs, datas, items, place)
    ensures ExtractFrom(Joined(parts) + tail, place)
            == Extraction(items + ExtractFrom(tail, place).items, ExtractFrom(tail, place).error)
    decreases |hs|
  {
    if hs == [] {
      assert Joined(parts) + tail == tail;
    } else {
      YieldsDrop(parts, hs, datas, items, place);
      JoinedFirst(parts, tail);
      ExtractStep(parts[0], hs[0], datas[0], items[0], Joined(parts[1..]) + tail, place);
      ExtractsParts(parts[1..], hs[1..], datas[1..], items[1..], tail, place);
      ItemsPrepend(items, ExtractFrom(tail, place).items);
    }
  }

  /** Extracting an archive makes every entry again, in order, with its data, target and mode. */
  lemma ExtractRoundTrip(s: Bytes, es: seq<Entry>, place: Bytes -> Option<Bytes>)
    requires IsArchive(s, es) && AllInLimits(es) && AllPlaced(es, place)
    ensures ExtractFrom(s, place) == Extraction(ItemsOf(es, place), None)
  {
    var parts :| AreEntries(parts, es) && s == Joined(parts) + Zeros(2 * BLOCK);
    EntriesParse(parts, es);
    EntriesYield(es, place);
    ExtractsParts(parts, HeadersOf(es), DatasOf(es), ItemsOf(es, place), Zeros(2 * BLOCK), place);
    TrailerEnds();
  }

  lemma {:induction false} JoinedAligned(parts: seq<Bytes>)
    requires forall k :: 0 <= k < |parts| ==> |parts[k]| % BLOCK == 0
    ensures |Joined(parts)| % BLOCK == 0
    decreases |parts|
  {
    if parts != [] {
      JoinedAligned(parts[1..]);
    }
  }

  /** Every entry fills whole blocks, so each starts at a multiple of 512. */
  lemma ArchiveAligned(parts: seq<Bytes>, es: seq<Entry>, i: nat)
    requires AreEntries(parts, es) && i <= |parts|
    ensures |Joined(parts[..i])| % BLOCK == 0
  {
    forall k | 0 <= k < i ensures |parts[k]| % BLOCK == 0 {
      assert IsEntry(parts[k], es[k]);
      PaddedAligned(|DataOf(es[k])|);
    }
    JoinedAligned(parts[..i]);
  }
}
