/** The WRPB byte format: written by Python
    (leapp/leapp_graph/custom_operator_registry/warp_operator/bundle.py), read by the runtime
    (runtime/core/wrpb_archive.cc beside it). */
module WrpbArchive {
  import opened Ports

  type byte = b: int | 0 <= b < 256

  type Bytes = seq<byte>

  datatype Entry = Entry(path: Bytes, data: Bytes)

  const MAGIC: Bytes := [87, 82, 80, 66]  // "WRPB"
  const VERSION := 1

  // ----- little-endian numbers

  function Limit(width: nat): nat {
    if width == 0 then 1 else 256 * Limit(width - 1)
  }

  function Packed(n: nat, width: nat): (r: Bytes)
    ensures |r| == width
    decreases width, n
  {
    if width == 0 then [] else [n % 256] + Packed(n / 256, width - 1)
  }

  function Number(bytes: Bytes): nat {
    if bytes == [] then 0 else bytes[0] + 256 * Number(bytes[1..])
  }

  lemma {:induction false} NumberOfPacked(n: nat, width: nat)
    requires n < Limit(width)
    ensures Number(Packed(n, width)) == n
  {
    if width > 0 { NumberOfPacked(n / 256, width - 1); }
  }

  lemma Limits()
    ensures Limit(4) == 0x1_0000_0000 && Limit(8) == 0x1_0000_0000_0000_0000
  {
    assert Limit(1) == 256 && Limit(2) == 65536 && Limit(3) == 16777216 && Limit(4) == 0x1_0000_0000;
    assert Limit(5) == 0x100_0000_0000 && Limit(6) == 0x1_0000_0000_0000 && Limit(7) == 0x100_0000_0000_0000;
  }

  // ----- writing

  /** The length fields hold 4 bytes for a path and 8 for its data. */
  predicate Writable(e: Entry) {
    |e.path| < 0x1_0000_0000 && |e.data| < 0x1_0000_0000_0000_0000
  }

  /** A block behind its length. */
  function BlockBytes(block: Bytes, width: nat): Bytes {
    Packed(|block|, width) + block
  }

  function EntryBytes(e: Entry): Bytes {
    BlockBytes(e.path, 4) + BlockBytes(e.data, 8)
  }

  /** The bytes of the entries from the i-th on. */
  function EntriesBytes(entries: seq<Entry>, i: nat): Bytes
    requires i <= |entries|
    decreases |entries| - i
  {
    if i == |entries| then [] else EntryBytes(entries[i]) + EntriesBytes(entries, i + 1)
  }

  lemma Joined(a: Bytes, b: Bytes, c: Bytes)
    ensures (a + b) + c == a + (b + c)
  {
  }

  function Archive(entries: seq<Entry>): Bytes {
    MAGIC + (Packed(VERSION, 4) + (Packed(|entries|, 4) + EntriesBytes(entries, 0)))
  }

  predicate AllWritable(entries: seq<Entry>) {
    |entries| < 0x1_0000_0000 && WritableTo(entries, |entries|)
  }

  /** The length fields of the entries before the i-th hold. */
  predicate WritableTo(entries: seq<Entry>, i: nat)
    requires i <= |entries|
  {
    forall j | 0 <= j < i :: Writable(entries[j])
  }

  method AppendEntries(header: Bytes, entries: seq<Entry>) returns (r: Option<Bytes>)
    ensures r == if WritableTo(entries, |entries|) then Some(header + EntriesBytes(entries, 0)) else None
  {
    var out := header;
    for i := 0 to |entries|
      invariant WritableTo(entries, i)
      invariant out + EntriesBytes(entries, i) == header + EntriesBytes(entries, 0)
    {
      var e := entries[i];
      if |e.path| >= 0x1_0000_0000 || |e.data| >= 0x1_0000_0000_0000_0000 { return None; }
      Joined(out, EntryBytes(e), EntriesBytes(entries, i + 1));
      out := out + EntryBytes(e);
    }
    assert out + [] == out;
    return Some(out);
  }

  /** Absent when a length does not fit its field. */
  method BuildArchive(entries: seq<Entry>) returns (r: Option<Bytes>)
    ensures r == if AllWritable(entries) then Some(Archive(entries)) else None
  {
    if |entries| >= 0x1_0000_0000 { return None; }
    r := AppendEntries(MAGIC + (Packed(VERSION, 4) + Packed(|entries|, 4)), entries);
    Regroup(MAGIC, Packed(VERSION, 4), Packed(|entries|, 4), EntriesBytes(entries, 0));
  }

  lemma Regroup(a: Bytes, b: Bytes, c: Bytes, d: Bytes)
    ensures (a + (b + c)) + d == a + (b + (c + d))
  {
  }

  // ----- reading

  /** A number of `width` bytes at the front, and the bytes behind it. */
  function Take(bytes: Bytes, width: nat): Option<(nat, Bytes)> {
    if |bytes| < width then None else Some((Number(bytes[..width]), bytes[width..]))
  }

  /** Some component of the path is two dots; `first` when the path starts a component. */
  predicate StepsUp(path: Bytes, first: bool) {
    path != [] &&
    ((first && |path| >= 2 && path[0] == 46 && path[1] == 46 && (|path| == 2 || path[2] == 47)) ||
     StepsUp(path[1..], path[0] == 47))
  }

  /** A non-empty relative path with no step up. */
  predicate Contained(path: Bytes) {
    path != [] && path[0] != 47 && !StepsUp(path, true)
  }

  /** A block behind its length, and the bytes behind it. */
  function ReadBlock(bytes: Bytes, width: nat): Option<(Bytes, Bytes)> {
    match Take(bytes, width)
    case None => None
    case Some((length, rest)) => if |rest| < length then None else Some((rest[..length], rest[length..]))
  }

  /** The next entry and the bytes behind it; `strict` refuses a path that leaves the directory or
      was read before. */
  function NextEntry(bytes: Bytes, seen: seq<Entry>, strict: bool): Option<(Entry, Bytes)> {
    match ReadBlock(bytes, 4)
    case None => None
    case Some((path, behind)) =>
      if strict && !(Contained(path) && NewPath(path, seen)) then None
      else
        match ReadBlock(behind, 8)
        case None => None
        case Some((data, rest)) => Some((Entry(path, data), rest))
  }

  function ReadEntries(bytes: Bytes, count: nat, seen: seq<Entry>, strict: bool): Option<seq<Entry>> {
    if count == 0 then (if bytes == [] then Some(seen) else None)
    else
      var next := NextEntry(bytes, seen, strict);
      if next.None? then None else ReadEntries(next.value.1, count - 1, seen + [next.value.0], strict)
  }

  predicate NewPath(path: Bytes, seen: seq<Entry>) {
    forall i | 0 <= i < |seen| :: seen[i].path != path
  }

  function Parse(bytes: Bytes, strict: bool): Option<seq<Entry>> {
    if |bytes| < 12 || bytes[..4] != MAGIC then None
    else
      var (version, rest) := Take(bytes[4..], 4).value;
      if version != VERSION then None
      else
        var (count, body) := Take(rest, 4).value;
        ReadEntries(body, count, [], strict)
  }

  /** One length-prefixed block read at an offset. */
  method ReadBlockAt(data: Bytes, offset: nat, width: nat) returns (block: Option<Bytes>, next: nat)
    requires offset <= |data|
    ensures offset <= next <= |data|
    ensures ReadBlock(data[offset..], width) == if block.None? then None else Some((block.value, data[next..]))
  {
    next := offset;
    if offset + width > |data| { return None, offset; }
    var length := Number(data[offset..offset + width]);
    assert data[offset..][..width] == data[offset..offset + width];
    assert data[offset..][width..] == data[offset + width..];
    next := offset + width;
    if next + length > |data| { return None, next; }
    assert data[next..][..length] == data[next..next + length] && data[next..][length..] == data[next + length..];
    return Some(data[next..next + length]), next + length;
  }

  method ReadEntryAt(data: Bytes, offset: nat, seen: seq<Entry>) returns (e: Option<Entry>, next: nat)
    requires offset <= |data|
    ensures offset <= next <= |data|
    ensures NextEntry(data[offset..], seen, true) == if e.None? then None else Some((e.value, data[next..]))
  {
    var path, behind := ReadBlockAt(data, offset, 4);
    if path.None? || !Contained(path.value) || !NewPath(path.value, seen) { return None, behind; }
    var content, end := ReadBlockAt(data, behind, 8);
    if content.None? { return None, end; }
    return Some(Entry(path.value, content.value)), end;
  }

  method ReadBody(body: Bytes, count: nat) returns (r: Option<seq<Entry>>)
    ensures r == ReadEntries(body, count, [], true)
  {
    var offset := 0;
    var entries: seq<Entry> := [];
    assert body[0..] == body;
    for i := 0 to count
      invariant offset <= |body|
      invariant ReadEntries(body[offset..], count - i, entries, true) == ReadEntries(body, count, [], true)
    {
      var e, next := ReadEntryAt(body, offset, entries);
      if e.None? { return None; }
      offset := next;
      entries := entries + [e.value];
    }
    if offset != |body| { return None; }
    return Some(entries);
  }

  /** The runtime's reader; absent when it throws. */
  method ParseWrpb(data: Bytes) returns (r: Option<seq<Entry>>)
    ensures r == Parse(data, true)
  {
    if |data| < 12 || data[..4] != MAGIC { return None; }
    var (version, rest) := Take(data[4..], 4).value;
    if version != VERSION { return None; }
    var (count, body) := Take(rest, 4).value;
    r := ReadBody(body, count);
  }

  // ----- the format is uniquely decodable

  lemma TakePacked(n: nat, width: nat, rest: Bytes)
    requires n < Limit(width)
    ensures Take(Packed(n, width) + rest, width) == Some((n, rest))
  {
    NumberOfPacked(n, width);
    assert (Packed(n, width) + rest)[..width] == Packed(n, width) && (Packed(n, width) + rest)[width..] == rest;
  }

  lemma Front(a: Bytes, b: Bytes)
    ensures (a + b)[..|a|] == a && (a + b)[|a|..] == b
  {
  }

  lemma BlockReadsBack(block: Bytes, width: nat, rest: Bytes)
    requires |block| < Limit(width)
    ensures ReadBlock(BlockBytes(block, width) + rest, width) == Some((block, rest))
  {
    TakePacked(|block|, width, block + rest);
    Front(block, rest);
    Joined(Packed(|block|, width), block, rest);
  }

  lemma EntryReadsBack(e: Entry, rest: Bytes, seen: seq<Entry>, strict: bool)
    requires Writable(e)
    ensures NextEntry(EntryBytes(e) + rest, seen, strict) ==
      if Refused(e, seen, strict) then None else Some((e, rest))
  {
    Limits();
    Joined(BlockBytes(e.path, 4), BlockBytes(e.data, 8), rest);
    BlockReadsBack(e.path, 4, BlockBytes(e.data, 8) + rest);
    BlockReadsBack(e.data, 8, rest);
  }

  predicate Refused(e: Entry, seen: seq<Entry>, strict: bool) {
    strict && !(Contained(e.path) && NewPath(e.path, seen))
  }

  /** Read in order from the i-th on, no entry is refused. */
  predicate NoneRefused(entries: seq<Entry>, i: nat, strict: bool)
    requires i <= |entries|
    decreases |entries| - i
  {
    i == |entries| || (!Refused(entries[i], entries[..i], strict) && NoneRefused(entries, i + 1, strict))
  }

  /** What is written from the i-th entry on reads as these entries. */
  lemma {:induction false} EntriesReadBack(entries: seq<Entry>, i: nat, seen: seq<Entry>, strict: bool)
    requires i <= |entries| && WritableTo(entries, |entries|) && seen == entries[..i]
    ensures NoneRefused(entries, i, strict) ==>
      ReadEntries(EntriesBytes(entries, i), |entries| - i, seen, strict) == Some(entries)
    ensures !NoneRefused(entries, i, strict) ==>
      ReadEntries(EntriesBytes(entries, i), |entries| - i, seen, strict) == None
    decreases |entries| - i
  {
    if i == |entries| {
      assert seen == entries;
    } else {
      var e := entries[i];
      assert seen + [e] == entries[..i + 1];
      OneReadsBack(e, EntriesBytes(entries, i + 1), |entries| - i, seen, strict);
      if !Refused(e, seen, strict) { EntriesReadBack(entries, i + 1, seen + [e], strict); }
    }
  }

  lemma OneReadsBack(e: Entry, rest: Bytes, count: nat, seen: seq<Entry>, strict: bool)
    requires Writable(e) && count > 0
    ensures ReadEntries(EntryBytes(e) + rest, count, seen, strict) ==
      if Refused(e, seen, strict) then None else ReadEntries(rest, count - 1, seen + [e], strict)
  {
    EntryReadsBack(e, rest, seen, strict);
    ReadStep(EntryBytes(e) + rest, count, seen, strict);
  }

  lemma ReadStep(bytes: Bytes, count: nat, seen: seq<Entry>, strict: bool)
    requires count > 0
    ensures
      var next := NextEntry(bytes, seen, strict);
      ReadEntries(bytes, count, seen, strict) ==
        if next.None? then None else ReadEntries(next.value.1, count - 1, seen + [next.value.0], strict)
  {
  }

  lemma {:induction false} NoneRefusedMeans(entries: seq<Entry>, i: nat)
    requires i <= |entries|
    ensures NoneRefused(entries, i, true) <==> forall j | i <= j < |entries| :: !Refused(entries[j], entries[..j], true)
    decreases |entries| - i
  {
    if i < |entries| { NoneRefusedMeans(entries, i + 1); }
  }

  /** Every path stays inside the directory, and no two are equal. */
  predicate AllGood(entries: seq<Entry>) {
    (forall i | 0 <= i < |entries| :: Contained(entries[i].path)) &&
    forall i, j | 0 <= i < j < |entries| :: entries[i].path != entries[j].path
  }

  lemma GoodIsNotRefused(entries: seq<Entry>)
    ensures AllGood(entries) <==> NoneRefused(entries, 0, true)
  {
    NoneRefusedMeans(entries, 0);
    forall j | 0 <= j < |entries|
      ensures NewPath(entries[j].path, entries[..j]) <==> forall i | 0 <= i < j :: entries[i].path != entries[j].path
    {
      assert forall i | 0 <= i < j :: entries[..j][i] == entries[i];
    }
    if NoneRefused(entries, 0, true) {
      forall i, j | 0 <= i < j < |entries| ensures entries[i].path != entries[j].path {
        assert !Refused(entries[j], entries[..j], true);
      }
      forall j | 0 <= j < |entries| ensures Contained(entries[j].path) {
        assert !Refused(entries[j], entries[..j], true);
      }
    }
  }

  lemma {:induction false} NothingRefused(entries: seq<Entry>, i: nat)
    requires i <= |entries|
    ensures NoneRefused(entries, i, false)
    decreases |entries| - i
  {
    if i < |entries| { NothingRefused(entries, i + 1); }
  }

  lemma HeaderReads(count: nat, body: Bytes, strict: bool)
    requires count < 0x1_0000_0000
    ensures Parse(MAGIC + (Packed(VERSION, 4) + (Packed(count, 4) + body)), strict) == ReadEntries(body, count, [], strict)
  {
    Limits();
    Front(MAGIC, Packed(VERSION, 4) + (Packed(count, 4) + body));
    TakePacked(VERSION, 4, Packed(count, 4) + body);
    TakePacked(count, 4, body);
  }

  /** The runtime reads an archive back exactly when every path stays inside and none repeats; it
      refuses every other. */
  lemma ArchiveRoundTrip(entries: seq<Entry>)
    requires AllWritable(entries)
    ensures Parse(Archive(entries), true) == if AllGood(entries) then Some(entries) else None
  {
    HeaderReads(|entries|, EntriesBytes(entries, 0), true);
    EntriesReadBack(entries, 0, [], true);
    GoodIsNotRefused(entries);
    assert entries[..0] == [];
  }

  /** Two different lists of files never give the same bytes. */
  lemma ArchiveInjective(a: seq<Entry>, b: seq<Entry>)
    requires AllWritable(a) && AllWritable(b) && Archive(a) == Archive(b)
    ensures a == b
  {
    HeaderReads(|a|, EntriesBytes(a, 0), false);
    HeaderReads(|b|, EntriesBytes(b, 0), false);
    EntriesReadBack(a, 0, [], false);
    EntriesReadBack(b, 0, [], false);
    NothingRefused(a, 0);
    NothingRefused(b, 0);
    assert a[..0] == [] && b[..0] == [];
  }
}
