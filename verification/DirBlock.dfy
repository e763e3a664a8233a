/** A linear directory block: variable-length records that tile the data area.
    Records are split, reused and merged in place. */
module DirBlock {
  import opened Bytes

  const REC_HEADER_BYTES: nat := 8
  const TAIL_BYTES: nat := 12
  const MAX_FILE_TYPE: byte := 7

  type Name = s: seq<byte> | |s| < 256

  /** One record; inode zero marks it as unused. */
  datatype Rec = Rec(inode: u32, len: u16, name: Name, ftype: byte)
  {
    predicate Unused() {
      inode == 0
    }

    /** The bytes the record needs for itself. */
    function Used(): nat {
      RequiredSize(|name|)
    }

    /** A name of this length can be put into the record's spare bytes. */
    predicate RoomFor(nameLen: nat) {
      (Unused() && RequiredSize(nameLen) <= len) || Used() + RequiredSize(nameLen) <= len
    }
  }

  /** A named entry, as the file system sees it. */
  datatype DirEntry = DirEntry(name: Name, inode: u32, ftype: byte)

  function RequiredSize(nameLen: nat): (n: nat)
    ensures n % 4 == 0 && REC_HEADER_BYTES + nameLen <= n < REC_HEADER_BYTES + nameLen + 4
  {
    (REC_HEADER_BYTES + nameLen + 3) / 4 * 4
  }

  /** The end of the records in a block. */
  function DataEnd(csum: bool): nat {
    if csum then BLOCK_SIZE - TAIL_BYTES else BLOCK_SIZE
  }

  // ---- Records in bytes ------------------------------------------------------

  /** A sound record starts here and ends at or before `end`. */
  predicate RecordAt(bytes: seq<byte>, off: nat, end: nat)
    requires end <= |bytes|
  {
    && off + REC_HEADER_BYTES <= end
    && var len := Le16(bytes, off + 4);
    && REC_HEADER_BYTES <= len && len % 4 == 0 && off + len <= end
    && REC_HEADER_BYTES + bytes[off + 6] as int <= len
    && bytes[off + 7] <= MAX_FILE_TYPE
  }

  function ReadRec(bytes: seq<byte>, off: nat): Rec
    requires off + REC_HEADER_BYTES <= |bytes| && off + REC_HEADER_BYTES + bytes[off + 6] as int <= |bytes|
  {
    var n := bytes[off + 6] as int;
    Rec(Le32(bytes, off), Le16(bytes, off + 4), bytes[off + REC_HEADER_BYTES..off + REC_HEADER_BYTES + n],
        bytes[off + 7])
  }

  /** Records fill the range without gap or overlap. */
  predicate Tiles(bytes: seq<byte>, off: nat, end: nat)
    requires end <= |bytes|
    decreases end - off
  {
    off == end || (RecordAt(bytes, off, end) && Tiles(bytes, off + Le16(bytes, off + 4), end))
  }

  function Records(bytes: seq<byte>, off: nat, end: nat): seq<Rec>
    requires end <= |bytes| && Tiles(bytes, off, end)
    decreases end - off
  {
    if off == end then []
    else [ReadRec(bytes, off)] + Records(bytes, off + Le16(bytes, off + 4), end)
  }

  lemma Empty(bytes: seq<byte>, off: nat)
    requires off <= |bytes|
    ensures Tiles(bytes, off, off) && Records(bytes, off, off) == []
  {
  }

  lemma OneRecord(bytes: seq<byte>, off: nat, end: nat)
    requires end <= |bytes| && RecordAt(bytes, off, end)
    ensures var next := off + Le16(bytes, off + 4);
            && next <= end && off < next && RecordAt(bytes, off, next)
            && Tiles(bytes, off, next) && Records(bytes, off, next) == [ReadRec(bytes, off)]
            && ReadRec(bytes, off).len == next - off
            && ReadRec(bytes, off).Used() <= next - off
            && off + REC_HEADER_BYTES + |ReadRec(bytes, off).name| <= next
  {
    var next := off + Le16(bytes, off + 4);
    Empty(bytes, next);
    assert Records(bytes, off, next) == [ReadRec(bytes, off)] + [];
  }

  /** A record that fits a range fits every larger range. */
  lemma RecordWithin(bytes: seq<byte>, off: nat, mid: nat, end: nat)
    requires mid <= end <= |bytes| && RecordAt(bytes, off, mid)
    ensures RecordAt(bytes, off, end)
  {
  }

  lemma {:induction false} TilesConcat(bytes: seq<byte>, off: nat, mid: nat, end: nat)
    requires off <= mid <= end <= |bytes| && Tiles(bytes, off, mid) && Tiles(bytes, mid, end)
    ensures Tiles(bytes, off, end)
    ensures Records(bytes, off, end) == Records(bytes, off, mid) + Records(bytes, mid, end)
    decreases mid - off
  {
    hide ReadRec;
    if off == mid {
      assert [] + Records(bytes, mid, end) == Records(bytes, mid, end);
    } else {
      var next := off + Le16(bytes, off + 4);
      RecordWithin(bytes, off, mid, end);
      TilesConcat(bytes, next, mid, end);
      Prepend(ReadRec(bytes, off), Records(bytes, next, mid), Records(bytes, mid, end));
    }
  }

  lemma Prepend<T>(x: T, a: seq<T>, b: seq<T>)
    ensures [x] + (a + b) == [x] + a + b
  {
  }

  /** Records only depend on the bytes of their range. */
  lemma {:induction false} TilesFrame(a: seq<byte>, b: seq<byte>, off: nat, end: nat)
    requires off <= end <= |a| && |a| == |b| && forall i :: off <= i < end ==> a[i] == b[i]
    ensures Tiles(a, off, end) == Tiles(b, off, end)
    ensures Tiles(a, off, end) ==> Records(a, off, end) == Records(b, off, end)
    decreases end - off
  {
    if off < end && off + REC_HEADER_BYTES <= end {
      SameRecord(a, b, off, end);
      if RecordAt(a, off, end) {
        TilesFrame(a, b, off + Le16(a, off + 4), end);
      }
    }
  }

  lemma SameRecord(a: seq<byte>, b: seq<byte>, off: nat, end: nat)
    requires off + REC_HEADER_BYTES <= end <= |a| && |a| == |b| && forall i :: off <= i < end ==> a[i] == b[i]
    ensures RecordAt(a, off, end) == RecordAt(b, off, end) && Le16(a, off + 4) == Le16(b, off + 4)
    ensures RecordAt(a, off, end) ==> ReadRec(a, off) == ReadRec(b, off)
  {
    if RecordAt(a, off, end) {
      var n := a[off + 6] as int;
      assert a[off + REC_HEADER_BYTES..off + REC_HEADER_BYTES + n]
             == b[off + REC_HEADER_BYTES..off + REC_HEADER_BYTES + n];
    }
  }

  /** Header and name as they are written. */
  function RecBytes(r: Rec): (s: seq<byte>)
    ensures |s| == REC_HEADER_BYTES + |r.name|
  {
    ToLe32(r.inode) + ToLe16(r.len) + [|r.name|, r.ftype] + r.name
  }

  predicate SoundRec(r: Rec) {
    REC_HEADER_BYTES <= r.len && r.len % 4 == 0 && REC_HEADER_BYTES + |r.name| <= r.len && r.ftype <= MAX_FILE_TYPE
  }

  /** A record that was written reads back. */
  lemma WriteRec(bytes: seq<byte>, off: nat, r: Rec)
    requires off + r.len <= |bytes| && SoundRec(r)
    ensures var now := Put(bytes, off, RecBytes(r));
            && RecordAt(now, off, off + r.len) && ReadRec(now, off) == r && Le16(now, off + 4) == r.len
            && (forall i :: 0 <= i < off ==> now[i] == bytes[i])
            && (forall i :: off + |RecBytes(r)| <= i < |bytes| ==> now[i] == bytes[i])
  {
    var s := RecBytes(r);
    var now := Put(bytes, off, s);
    RecFields(r);
    forall k | 0 <= k < |s|
      ensures now[off + k] == s[k]
    {
      assert now[off..off + |s|][k] == now[off + k];
    }
    SameLe(now, off, s);
    assert now[off + 8..off + 8 + |r.name|] == r.name by {
      forall k | 0 <= k < |r.name|
        ensures now[off + 8 + k] == r.name[k]
      {
        assert now[off + (8 + k)] == s[8 + k];
      }
    }
    OutsidePut(bytes, off, s);
  }

  /** A record can be read exactly where one was, or could have been, written:
      inode, length, name length, type and name in eight bytes and those of the
      name, of a length that is a multiple of four and has room for them, and of
      one of the types up to seven. */
  lemma RecordOnDisk(bytes: seq<byte>, off: nat, end: nat)
    requires end <= |bytes|
    ensures RecordAt(bytes, off, end) ==>
              var r := ReadRec(bytes, off);
              && 8 + |r.name| <= r.len && r.len % 4 == 0 && r.ftype <= 7 && off + r.len <= end
              && bytes[off..off + 8 + |r.name|] == RecBytes(r)
    ensures forall r: Rec ::
              && 8 + |r.name| <= r.len && r.len % 4 == 0 && r.ftype <= 7 && off + r.len <= end
              && bytes[off..off + 8 + |r.name|] == RecBytes(r)
              ==> RecordAt(bytes, off, end) && ReadRec(bytes, off) == r
  {
    hide RecBytes;
    if RecordAt(bytes, off, end) {
      var r := ReadRec(bytes, off);
      RecFields(r);
      RecFromFields(bytes, off, r);
    }
    forall r: Rec
      | && 8 + |r.name| <= r.len && r.len % 4 == 0 && r.ftype <= 7 && off + r.len <= end
        && bytes[off..off + 8 + |r.name|] == RecBytes(r)
      ensures RecordAt(bytes, off, end) && ReadRec(bytes, off) == r
    {
      var s := RecBytes(r);
      RecFields(r);
      forall k | 0 <= k < |s|
        ensures bytes[off + k] == s[k]
      {
        assert bytes[off..off + |s|][k] == bytes[off + k];
      }
      SameLe(bytes, off, s);
      assert bytes[off + 8..off + 8 + |r.name|] == r.name by {
        forall k | 0 <= k < |r.name|
          ensures bytes[off + 8 + k] == r.name[k]
        {
          assert bytes[off + (8 + k)] == s[8 + k];
        }
      }
    }
  }

  lemma RecFromFields(bytes: seq<byte>, off: nat, r: Rec)
    requires off + 8 + |r.name| <= |bytes| && bytes[off + 6] == |r.name| && r == ReadRec(bytes, off)
    ensures bytes[off..off + 8 + |r.name|] == RecBytes(r)
  {
    var s := RecBytes(r);
    var w := bytes[off..off + 8];
    Le32Bytes(bytes, off);
    Le16Bytes(bytes, off + 4);
    assert bytes[off..off + 8 + |r.name|]
           == bytes[off..off + 4] + bytes[off + 4..off + 6] + [bytes[off + 6], bytes[off + 7]] + r.name;
  }

  /** The record can be cut in two behind `own` bytes, aligned and long enough
      for what it holds, if anything, and for a name of this length. */
  predicate CutsAt(r: Rec, own: nat, nameLen: nat) {
    && own <= r.len && own % 4 == 0 && (r.len - own) % 4 == 0
    && (r.inode == 0 || 8 + |r.name| <= own) && 8 + nameLen <= r.len - own
  }

  /** There is room for another name exactly if there is such a cut. */
  lemma RoomIsCut(r: Rec, nameLen: nat)
    requires r.len % 4 == 0
    ensures r.RoomFor(nameLen) <==> exists own: nat :: CutsAt(r, own, nameLen)
  {
    if r.RoomFor(nameLen) {
      var own := if r.Unused() && RequiredSize(nameLen) <= r.len then 0 else r.Used();
      assert CutsAt(r, own, nameLen);
    }
    forall own: nat | CutsAt(r, own, nameLen)
      ensures r.RoomFor(nameLen)
    {
      RequiredIsLeast(nameLen, r.len - own);
      if r.inode != 0 {
        RequiredIsLeast(|r.name|, own);
      }
    }
  }

  lemma RequiredIsLeast(nameLen: nat, k: nat)
    requires k % 4 == 0 && 8 + nameLen <= k
    ensures RequiredSize(nameLen) <= k
  {
  }

  /** Where the records end, and the tail behind them. */
  lemma TailOnDisk(bytes: Block)
    ensures DataEnd(false) == 4096 && DataEnd(true) == 4084
    ensures NewTail() == [0, 0, 0, 0, 12, 0, 0, 0xDE, 0, 0, 0, 0]
    ensures TailShape(bytes) <==> bytes[4084..4092] == [0, 0, 0, 0, 12, 0, 0, 0xDE]
  {
    assert ToLe16(12) == [12, 0] && Zeros(4) == [0, 0, 0, 0];
    var t := bytes[4084..4092];
    assert bytes[4084..4088] == t[0..4] && bytes[4088..4090] == t[4..6] && bytes[4090] == t[6] && bytes[4091] == t[7];
    assert t == t[0..4] + t[4..6] + [t[6], t[7]];
  }

  lemma OutsidePut(bytes: seq<byte>, off: nat, s: seq<byte>)
    requires off + |s| <= |bytes|
    ensures forall i :: 0 <= i < off ==> Put(bytes, off, s)[i] == bytes[i]
    ensures forall i :: off + |s| <= i < |bytes| ==> Put(bytes, off, s)[i] == bytes[i]
  {
  }

  lemma RecFields(r: Rec)
    ensures var s := RecBytes(r);
            && s[0..4] == ToLe32(r.inode) && s[4..6] == ToLe16(r.len)
            && s[6] == |r.name| && s[7] == r.ftype
            && (forall k :: 0 <= k < |r.name| ==> s[8 + k] == r.name[k])
            && Le32(s, 0) == r.inode && Le16(s, 4) == r.len
  {
    var s := RecBytes(r);
    assert s[0..4] == ToLe32(r.inode) && s[4..6] == ToLe16(r.len);
    var a, b := ToLe32(r.inode), ToLe16(r.len);
    assert s[0] == a[0] && s[1] == a[1] && s[2] == a[2] && s[3] == a[3];
    assert s[4] == s[4..6][0] == b[0] && s[5] == s[4..6][1] == b[1];
  }

  lemma SameLe(now: seq<byte>, off: nat, s: seq<byte>)
    requires off + |s| <= |now| && |s| >= REC_HEADER_BYTES && forall k :: 0 <= k < |s| ==> now[off + k] == s[k]
    ensures Le32(now, off) == Le32(s, 0) && Le16(now, off + 4) == Le16(s, 4)
    ensures now[off + 6] == s[6] && now[off + 7] == s[7]
  {
    assert now[off + 0] == s[0] && now[off + 1] == s[1] && now[off + 2] == s[2] && now[off + 3] == s[3];
    assert now[off + 4] == s[4] && now[off + 5] == s[5];
  }

  /** Exchanging what one stretch of the block holds. */
  lemma Patched(was: seq<byte>, now: seq<byte>, at: nat, next: nat, end: nat)
    requires at <= next <= end <= |was| == |now|
    requires Tiles(was, 0, at) && Tiles(was, next, end) && Tiles(now, at, next)
    requires forall i :: 0 <= i < at ==> now[i] == was[i]
    requires forall i :: next <= i < end ==> now[i] == was[i]
    ensures Tiles(now, 0, end)
    ensures Records(now, 0, end) == Records(was, 0, at) + Records(now, at, next) + Records(was, next, end)
    ensures Tiles(now, 0, at) && Records(now, 0, at) == Records(was, 0, at)
  {
    hide Tiles;
    hide Records;
    TilesFrame(was, now, 0, at);
    TilesFrame(was, now, next, end);
    TilesConcat(now, 0, at, next);
    TilesConcat(now, 0, next, end);
  }

  // ---- Entries -----------------------------------------------------------------

  /** The entries of the used records, in order. */
  function Entries(recs: seq<Rec>): seq<DirEntry> {
    if recs == [] then []
    else
      var r := recs[|recs| - 1];
      Entries(recs[..|recs| - 1]) + (if r.Unused() then [] else [DirEntry(r.name, r.inode, r.ftype)])
  }

  function EntryOf(r: Rec): DirEntry {
    DirEntry(r.name, r.inode, r.ftype)
  }

  lemma {:induction false} EntriesConcat(a: seq<Rec>, b: seq<Rec>)
    ensures Entries(a + b) == Entries(a) + Entries(b)
    decreases |b|
  {
    if b == [] {
      assert a + b == a;
    } else {
      var n := |b| - 1;
      assert (a + b)[..|a + b| - 1] == a + b[..n];
      EntriesConcat(a, b[..n]);
    }
  }

  lemma EntriesOne(r: Rec)
    ensures Entries([r]) == if r.Unused() then [] else [EntryOf(r)]
  {
    assert [r][..0] == [];
    assert Entries([]) == [];
  }

  /** Some record can take a name of this length. */
  predicate HasRoom(recs: seq<Rec>, nameLen: nat) {
    exists i :: 0 <= i < |recs| && recs[i].RoomFor(nameLen)
  }

  /** `name` is not among the entries. */
  predicate Absent(entries: seq<DirEntry>, name: Name) {
    forall e :: e in entries ==> e.name != name
  }

  lemma AbsentConcat(a: seq<DirEntry>, b: seq<DirEntry>, name: Name)
    ensures Absent(a + b, name) <==> Absent(a, name) && Absent(b, name)
  {
    assert forall e :: e in a + b <==> e in a || e in b;
  }

  lemma AbsentOne(r: Rec, name: Name)
    ensures Absent(Entries([r]), name) <==> r.Unused() || r.name != name
    ensures Absent([], name)
  {
    hide Entries;
    EntriesOne(r);
    assert EntryOf(r) in [EntryOf(r)];
  }

  lemma {:induction false} AbsentMeans(recs: seq<Rec>, name: Name)
    ensures Absent(Entries(recs), name) <==> forall i :: 0 <= i < |recs| ==> recs[i].Unused() || recs[i].name != name
    decreases |recs|
  {
    hide Absent;
    hide Entries;
    if recs == [] {
      NoEntries();
      AbsentOne(Rec(0, 0, [], 0), name);
    } else {
      var n := |recs| - 1;
      AbsentMeans(recs[..n], name);
      assert recs == recs[..n] + [recs[n]];
      EntriesConcat(recs[..n], [recs[n]]);
      AbsentConcat(Entries(recs[..n]), Entries([recs[n]]), name);
      AbsentOne(recs[n], name);
      assert forall i :: 0 <= i < n ==> recs[..n][i] == recs[i];
    }
  }

  lemma NoEntries()
    ensures Entries([]) == []
  {
  }

  /** What taking apart `recs` around one record means for the entries. */
  lemma EntriesAround(left: seq<Rec>, mid: seq<Rec>, right: seq<Rec>)
    ensures Entries(left + mid + right) == Entries(left) + Entries(mid) + Entries(right)
  {
    EntriesConcat(left + mid, right);
    EntriesConcat(left, mid);
  }

  class DirBlock {
    const data: array<byte>
    const csum: bool

    ghost predicate Valid()
      reads data
    {
      data.Length == BLOCK_SIZE && Tiles(data[..], 0, DataEnd(csum))
    }

    ghost function Recs(): seq<Rec>
      requires Valid()
      reads data
    {
      Records(data[..], 0, DataEnd(csum))
    }

    /** The directory entries of the block. */
    ghost function Content(): seq<DirEntry>
      requires Valid()
      reads data
    {
      Entries(Recs())
    }

    constructor (data: array<byte>, csum: bool)
      ensures this.data == data && this.csum == csum
    {
      this.data := data;
      this.csum := csum;
    }

    /** One unused record over the whole data area. */
    method Init()
      requires data.Length == BLOCK_SIZE
      modifies data
      ensures Valid() && Content() == [] && HasRoom(Recs(), 255)
      ensures data[DataEnd(csum)..] == if csum then NewTail() else []
    {
      var end := DataEnd(csum);
      var r := Rec(0, end, [], 0);
      ghost var was := data[..];
      WriteRec(was, 0, r);
      CopyInto(data, 0, RecBytes(r));
      ghost var mid := data[..];
      if csum {
        CopyInto(data, end, NewTail());
      }
      TilesFrame(mid, data[..], 0, end);
      OneRecord(mid, 0, end);
      EntriesOne(r);
      assert Records(data[..], 0, end)[0] == r;
    }

    /** Check the whole layout before any record is interpreted. */
    method ValidateLeaf() returns (ok: bool)
      requires data.Length == BLOCK_SIZE
      ensures ok <==> Valid() && (csum ==> TailShape(data[..]))
    {
      var end := DataEnd(csum);
      if csum {
        assert data[..][end..end + 8] == data[end..end + 8];
        if data[end..end + 4] != Zeros(4) || data[end + 4..end + 6] != ToLe16(TAIL_BYTES) || data[end + 6] != 0
           || data[end + 7] != 0xDE {
          return false;
        }
      }
      var offset := 0;
      while offset < end
        invariant offset <= end
        invariant Tiles(data[..], 0, end) <==> Tiles(data[..], offset, end)
        decreases end - offset
      {
        if !RecordAt(data[..], offset, end) {
          return false;
        }
        offset := offset + Le16(data[..], offset + 4);
      }
      return true;
    }

    /** The inode behind a name. */
    method Get(name: Name) returns (r: Option<u32>)
      requires Valid()
      ensures r.None? <==> Absent(Content(), name)
      ensures r.Some? ==> exists k :: 0 <= k < |Content()| && Content()[k].name == name && Content()[k].inode == r.value
                                      && Absent(Content()[..k], name)
    {
      hide ReadRec;
      hide RecordAt;
      hide Tiles;
      hide Records;
      hide Entries;
      hide Absent;
      ghost var bytes := data[..];
      var offset, end := 0, DataEnd(csum);
      Start(bytes, end);
      while offset < end
        invariant offset <= end && Tiles(bytes, 0, offset) && Tiles(bytes, offset, end)
        invariant forall i :: 0 <= i < |Records(bytes, 0, offset)| ==>
                    Records(bytes, 0, offset)[i].Unused() || Records(bytes, 0, offset)[i].name != name
        decreases end - offset
      {
        Advance(bytes, offset, end);
        AdvanceFits(bytes, offset, end);
        var de := ReadRec(data[..], offset);
        if !de.Unused() && de.name == name {
          FoundEntry(Records(bytes, 0, offset), de, Records(bytes, offset + de.len, end), name);
          return Some(de.inode);
        }
        offset := offset + de.len;
      }
      AbsentMeans(Recs(), name);
      return None;
    }

    /** All entries of the block. */
    method List() returns (entries: seq<DirEntry>)
      requires Valid()
      ensures entries == Content()
    {
      hide ReadRec;
      hide RecordAt;
      hide Tiles;
      hide Records;
      hide Entries;
      ghost var bytes := data[..];
      var offset, end := 0, DataEnd(csum);
      entries := [];
      Start(bytes, end);
      while offset < end
        invariant offset <= end && Tiles(bytes, 0, offset) && Tiles(bytes, offset, end)
        invariant entries == Entries(Records(bytes, 0, offset))
        decreases end - offset
      {
        Advance(bytes, offset, end);
        AdvanceFits(bytes, offset, end);
        var de := ReadRec(data[..], offset);
        EntriesConcat(Records(bytes, 0, offset), [de]);
        EntriesOne(de);
        offset := offset + de.len;
        if !de.Unused() {
          entries := entries + [EntryOf(de)];
        }
      }
    }

    /** Put a new entry into the first record that has room for it. */
    method Insert(name: Name, inode: u32, ftype: byte) returns (ok: bool)
      requires Valid() && inode != 0 && ftype <= MAX_FILE_TYPE
      modifies data
      ensures Valid()
      ensures data[DataEnd(csum)..] == old(data[DataEnd(csum)..])
      ensures ok <==> HasRoom(old(Recs()), |name|)
      ensures ok ==> AddsEntry(old(Content()), Content(), DirEntry(name, inode, ftype))
      ensures !ok ==> data[..] == old(data[..])
    {
      hide ReadRec;
      hide RecordAt;
      hide Tiles;
      hide Records;
      hide Entries;
      hide RecBytes;
      hide RequiredSize;
      hide HasRoom;
      hide AddsEntry;
      ghost var bytes := data[..];
      var offset, end := 0, DataEnd(csum);
      Start(bytes, end);
      RoomNowhere(|name|);
      while offset < end
        invariant offset <= end && Tiles(bytes, 0, offset) && Tiles(bytes, offset, end)
        invariant data[..] == bytes
        invariant !HasRoom(Records(bytes, 0, offset), |name|)
        decreases end - offset
      {
        Advance(bytes, offset, end);
        AdvanceFits(bytes, offset, end);
        var de := ReadRec(data[..], offset);
        RoomHere(Records(bytes, 0, offset), de, Records(bytes, offset + de.len, end), |name|);
        var required := RequiredSize(|name|);
        if de.Unused() && de.len >= required {
          Overwrite(offset, de, Rec(inode, de.len, name, ftype));
          return true;
        }
        if de.len - de.Used() < required {
          offset := offset + de.len;
          continue;
        }
        SplitAt(offset, de, Rec(inode, de.len - de.Used(), name, ftype));
        return true;
      }
      return false;
    }

    /** Put an entry over an unused record. */
    method Overwrite(offset: nat, de: Rec, entry: Rec)
      requires Valid() && offset < DataEnd(csum)
      requires RecordAt(data[..], offset, DataEnd(csum))
               && offset + REC_HEADER_BYTES + data[offset + 6] as int <= BLOCK_SIZE
      requires Tiles(data[..], 0, offset) && Tiles(data[..], offset, DataEnd(csum)) && de == ReadRec(data[..], offset)
      requires de.Unused() && !entry.Unused() && entry.len == de.len && RequiredSize(|entry.name|) <= de.len
               && entry.ftype <= MAX_FILE_TYPE
      modifies data
      ensures Valid() && data[DataEnd(csum)..] == old(data[DataEnd(csum)..])
      ensures AddsEntry(old(Content()), Content(), EntryOf(entry))
    {
      hide ReadRec;
      hide RecordAt;
      hide Tiles;
      hide Records;
      hide Entries;
      hide RecBytes;
      hide AddsEntry;
      ghost var bytes := data[..];
      ghost var end := DataEnd(csum);
      Advance(bytes, offset, end);
      ReplaceOne(bytes, offset, offset + de.len, end, entry);
      ReuseEntries(Records(bytes, 0, offset), de, Records(bytes, offset + de.len, end), entry);
      CopyInto(data, offset, RecBytes(entry));
    }

    /** Cut a record down to what it uses and put an entry behind it. */
    method SplitAt(offset: nat, de: Rec, entry: Rec)
      requires Valid() && offset < DataEnd(csum)
      requires RecordAt(data[..], offset, DataEnd(csum))
               && offset + REC_HEADER_BYTES + data[offset + 6] as int <= BLOCK_SIZE
      requires Tiles(data[..], 0, offset) && Tiles(data[..], offset, DataEnd(csum)) && de == ReadRec(data[..], offset)
      requires de.Used() + RequiredSize(|entry.name|) <= de.len && entry.len == de.len - de.Used()
      requires !entry.Unused() && entry.ftype <= MAX_FILE_TYPE
      modifies data
      ensures Valid() && data[DataEnd(csum)..] == old(data[DataEnd(csum)..])
      ensures AddsEntry(old(Content()), Content(), EntryOf(entry))
    {
      hide ReadRec;
      hide RecordAt;
      hide Tiles;
      hide Records;
      hide Entries;
      hide RecBytes;
      hide AddsEntry;
      hide Put;
      ghost var bytes := data[..];
      ghost var end := DataEnd(csum);
      Advance(bytes, offset, end);
      SplitSound(de, entry);
      var short := de.(len := de.Used());
      ReplaceTwo(bytes, offset, offset + de.Used(), offset + de.len, end, short, entry);
      SplitEntries(Records(bytes, 0, offset), de, Records(bytes, offset + de.len, end), short, entry);
      CopyInto(data, offset, RecBytes(short));
      CopyInto(data, offset + de.Used(), RecBytes(entry));
    }

    /** Remove an entry: its record is merged into the one before it, or becomes
        unused if it is the first.  The freed room can take the name again. */
    method Remove(name: Name) returns (ok: bool)
      requires Valid()
      modifies data
      ensures Valid()
      ensures data[DataEnd(csum)..] == old(data[DataEnd(csum)..])
      ensures ok <==> !Absent(old(Content()), name)
      ensures ok ==> exists k :: 0 <= k < |old(Content())| && old(Content())[k].name == name
                                 && Absent(old(Content())[..k], name)
                                 && Content() == old(Content())[..k] + old(Content())[k + 1..]
      ensures ok ==> HasRoom(Recs(), |name|)
      ensures !ok ==> data[..] == old(data[..])
    {
      hide ReadRec;
      hide RecordAt;
      hide Tiles;
      hide Records;
      hide Entries;
      hide RecBytes;
      hide RequiredSize;
      hide Absent;
      hide HasRoom;
      hide IsPrevious;
      ghost var bytes := data[..];
      var offset, end := 0, DataEnd(csum);
      var previous: Option<nat> := None;
      Start(bytes, end);
      while offset < end
        invariant offset <= end && Tiles(bytes, 0, offset) && Tiles(bytes, offset, end)
        invariant data[..] == bytes
        invariant if previous.None? then offset == 0
                  else IsPrevious(bytes, previous.value, offset)
        invariant forall i :: 0 <= i < |Records(bytes, 0, offset)| ==>
                    Records(bytes, 0, offset)[i].Unused() || Records(bytes, 0, offset)[i].name != name
        decreases end - offset
      {
        Advance(bytes, offset, end);
        AdvanceFits(bytes, offset, end);
        var de := ReadRec(data[..], offset);
        if !de.Unused() && de.name == name {
          FoundEntry(Records(bytes, 0, offset), de, Records(bytes, offset + de.len, end), name);
          ghost var left, right := Records(bytes, 0, offset), Records(bytes, offset + de.len, end);
          if previous.Some? {
            MergeInto(previous.value, offset, de);
          } else {
            ClearFirst(de);
            NoEntries();
            assert [] + Entries(right) == Entries(right);
          }
          return true;
        }
        NowPrevious(bytes, offset, end);
        previous := Some(offset);
        offset := offset + de.len;
      }
      AbsentMeans(Recs(), name);
      return false;
    }

    /** Give the space of an entry to the record before it. */
    method MergeInto(prevOffset: nat, offset: nat, de: Rec)
      requires Valid() && offset < DataEnd(csum) && IsPrevious(data[..], prevOffset, offset)
      requires RecordAt(data[..], offset, DataEnd(csum))
               && offset + REC_HEADER_BYTES + data[offset + 6] as int <= BLOCK_SIZE
      requires Tiles(data[..], 0, offset) && Tiles(data[..], offset, DataEnd(csum)) && de == ReadRec(data[..], offset)
      requires offset + de.len <= DataEnd(csum) && Tiles(data[..], offset + de.len, DataEnd(csum))
      modifies data
      ensures Valid() && data[DataEnd(csum)..] == old(data[DataEnd(csum)..])
      ensures Content() == Entries(old(Records(data[..], 0, offset)))
              + Entries(old(Records(data[..], offset + de.len, DataEnd(csum))))
      ensures HasRoom(Recs(), |de.name|)
    {
      hide ReadRec;
      hide RecordAt;
      hide Tiles;
      hide Records;
      hide Entries;
      hide RecBytes;
      hide HasRoom;
      ghost var bytes := data[..];
      ghost var end := DataEnd(csum);
      Advance(bytes, offset, end);
      Previous(bytes, prevOffset, offset, end);
      var prev := ReadRec(data[..], prevOffset);
      var merged := prev.(len := prev.len + de.len);
      ReplaceOne(bytes, prevOffset, offset + de.len, end, merged);
      MergeEntries(Records(bytes, 0, prevOffset), prev, de, Records(bytes, offset + de.len, end), merged);
      CopyInto(data, prevOffset, RecBytes(merged));
    }

    /** Mark the first record as unused. */
    method ClearFirst(de: Rec)
      requires Valid() && RecordAt(data[..], 0, DataEnd(csum)) && REC_HEADER_BYTES + data[6] as int <= BLOCK_SIZE
      requires de == ReadRec(data[..], 0) && de.len <= DataEnd(csum) && Tiles(data[..], de.len, DataEnd(csum))
      modifies data
      ensures Valid() && data[DataEnd(csum)..] == old(data[DataEnd(csum)..])
      ensures Content() == Entries(old(Records(data[..], de.len, DataEnd(csum))))
      ensures HasRoom(Recs(), |de.name|)
    {
      hide ReadRec;
      hide RecordAt;
      hide Tiles;
      hide Records;
      hide Entries;
      hide RecBytes;
      hide HasRoom;
      ghost var bytes := data[..];
      ghost var end := DataEnd(csum);
      Start(bytes, end);
      Advance(bytes, 0, end);
      var clear := de.(inode := 0, ftype := 0);
      ReplaceOne(bytes, 0, de.len, end, clear);
      ClearEntries(de, Records(bytes, de.len, end), clear);
      CopyInto(data, 0, RecBytes(clear));
    }

    /** Point an existing entry at another inode. */
    method Replace(name: Name, inode: u32, ftype: byte) returns (ok: bool)
      requires Valid() && inode != 0 && ftype <= MAX_FILE_TYPE
      modifies data
      ensures Valid()
      ensures data[DataEnd(csum)..] == old(data[DataEnd(csum)..])
      ensures ok <==> !Absent(old(Content()), name)
      ensures ok ==> exists k :: 0 <= k < |old(Content())| && old(Content())[k].name == name
                                 && Absent(old(Content())[..k], name)
                                 && Content() == old(Content())[k := DirEntry(name, inode, ftype)]
      ensures !ok ==> data[..] == old(data[..])
    {
      hide ReadRec;
      hide RecordAt;
      hide Tiles;
      hide Records;
      hide Entries;
      hide RecBytes;
      hide Absent;
      ghost var bytes := data[..];
      var offset, end := 0, DataEnd(csum);
      Start(bytes, end);
      while offset < end
        invariant offset <= end && Tiles(bytes, 0, offset) && Tiles(bytes, offset, end)
        invariant data[..] == bytes
        invariant forall i :: 0 <= i < |Records(bytes, 0, offset)| ==>
                    Records(bytes, 0, offset)[i].Unused() || Records(bytes, 0, offset)[i].name != name
        decreases end - offset
      {
        Advance(bytes, offset, end);
        AdvanceFits(bytes, offset, end);
        var de := ReadRec(data[..], offset);
        if !de.Unused() && de.name == name {
          FoundEntry(Records(bytes, 0, offset), de, Records(bytes, offset + de.len, end), name);
          var now := de.(inode := inode, ftype := ftype);
          ReplaceOne(bytes, offset, offset + de.len, end, now);
          RepointEntries(Records(bytes, 0, offset), de, Records(bytes, offset + de.len, end), now);
          CopyInto(data, offset, RecBytes(now));
          return true;
        }
        offset := offset + de.len;
      }
      AbsentMeans(Recs(), name);
      return false;
    }
  }

  function NewTail(): (t: seq<byte>)
    ensures |t| == TAIL_BYTES
  {
    Zeros(4) + ToLe16(TAIL_BYTES) + [0, 0xDE] + Zeros(4)
  }

  /** The fixed fields of the checksum tail. */
  predicate TailShape(bytes: Block) {
    var end := BLOCK_SIZE - TAIL_BYTES;
    bytes[end..end + 4] == Zeros(4) && bytes[end + 4..end + 6] == ToLe16(TAIL_BYTES) && bytes[end + 6] == 0
    && bytes[end + 7] == 0xDE
  }

  // ---- One step of a walk --------------------------------------------------------

  lemma Start(bytes: seq<byte>, end: nat)
    requires end <= |bytes|
    ensures Tiles(bytes, 0, 0) && Records(bytes, 0, 0) == [] && Entries([]) == []
  {
  }

  lemma AdvanceFits(bytes: seq<byte>, off: nat, end: nat)
    requires off < end <= |bytes| && Tiles(bytes, off, end)
    ensures off + REC_HEADER_BYTES <= |bytes| && off + REC_HEADER_BYTES + bytes[off + 6] as int <= |bytes|
  {
  }

  lemma Advance(bytes: seq<byte>, off: nat, end: nat)
    requires off < end <= |bytes| && Tiles(bytes, 0, off) && Tiles(bytes, off, end)
    ensures RecordAt(bytes, off, end) && off + REC_HEADER_BYTES + bytes[off + 6] as int <= end
    ensures var de := ReadRec(bytes, off);
            var next := off + de.len;
            && off < next <= end && Le16(bytes, off + 4) == de.len
            && de.Used() <= de.len && SoundRec(de) && RecordAt(bytes, off, next)
            && Tiles(bytes, 0, next) && Tiles(bytes, next, end)
            && Records(bytes, 0, next) == Records(bytes, 0, off) + [de]
            && Tiles(bytes, 0, end)
            && Records(bytes, 0, end) == Records(bytes, 0, off) + [de] + Records(bytes, next, end)
  {
    hide ReadRec;
    hide Le16;
    hide Le32;
    var next := off + Le16(bytes, off + 4);
    RecordHere(bytes, off, end);
    OneRecord(bytes, off, end);
    TilesConcat(bytes, 0, off, next);
    TilesConcat(bytes, 0, next, end);
  }

  lemma RecordHere(bytes: seq<byte>, off: nat, end: nat)
    requires off < end <= |bytes| && Tiles(bytes, off, end)
    ensures RecordAt(bytes, off, end) && off + REC_HEADER_BYTES + bytes[off + 6] as int <= end
    ensures SoundRec(ReadRec(bytes, off)) && ReadRec(bytes, off).len == Le16(bytes, off + 4)
    ensures Tiles(bytes, off + Le16(bytes, off + 4), end)
    ensures Records(bytes, off, end) == [ReadRec(bytes, off)] + Records(bytes, off + Le16(bytes, off + 4), end)
  {
    hide Le16;
    hide Le32;
  }

  /** Both parts of a split record are sound. */
  lemma SplitSound(de: Rec, entry: Rec)
    requires SoundRec(de) && de.Used() + RequiredSize(|entry.name|) <= de.len && entry.len == de.len - de.Used()
    requires entry.ftype <= MAX_FILE_TYPE
    ensures 0 < de.Used() < de.len && SoundRec(de.(len := de.Used())) && SoundRec(entry)
  {
  }

  lemma RoomNowhere(nameLen: nat)
    ensures !HasRoom([], nameLen)
  {
  }

  lemma RoomHere(left: seq<Rec>, de: Rec, right: seq<Rec>, nameLen: nat)
    ensures de.RoomFor(nameLen) ==> HasRoom(left + [de] + right, nameLen)
    ensures !HasRoom(left, nameLen) && !de.RoomFor(nameLen) ==> !HasRoom(left + [de], nameLen)
  {
    assert (left + [de] + right)[|left|] == de;
    assert forall i :: 0 <= i < |left + [de]| ==> (left + [de])[i] == if i < |left| then left[i] else de;
  }

  /** The entry of the record that was found. */
  lemma FoundEntry(left: seq<Rec>, de: Rec, right: seq<Rec>, name: Name)
    requires !de.Unused() && de.name == name
    requires forall i :: 0 <= i < |left| ==> left[i].Unused() || left[i].name != name
    ensures var all, k := Entries(left + [de] + right), |Entries(left)|;
            && k < |all| && all[k] == EntryOf(de) && all[..k] == Entries(left) && all[k + 1..] == Entries(right)
            && Absent(all[..k], name) && !Absent(all, name)
  {
    hide Entries;
    EntriesAround(left, [de], right);
    EntriesOne(de);
    AbsentMeans(left, name);
    var all := Entries(left + [de] + right);
    assert all[|Entries(left)|] in all;
  }

  /** One record takes the place of another of the same length. */
  lemma ReplaceOne(bytes: seq<byte>, off: nat, next: nat, end: nat, r: Rec)
    requires off < next <= end <= |bytes| && Tiles(bytes, 0, off) && Tiles(bytes, next, end)
    requires SoundRec(r) && off + r.len == next
    ensures off + |RecBytes(r)| <= next
    ensures var now := Put(bytes, off, RecBytes(r));
            && Tiles(now, 0, end)
            && Records(now, 0, end) == Records(bytes, 0, off) + [r] + Records(bytes, next, end)
            && (forall i :: end <= i < |bytes| ==> now[i] == bytes[i])
  {
    hide RecBytes;
    hide Tiles;
    hide Records;
    hide Put;
    WriteRec(bytes, off, r);
    var now := Put(bytes, off, RecBytes(r));
    OneRecord(now, off, next);
    Patched(bytes, now, off, next, end);
  }

  /** One record is cut down; a second one takes the rest. */
  lemma ReplaceTwo(bytes: seq<byte>, off: nat, mid: nat, next: nat, end: nat, r: Rec, t: Rec)
    requires off < mid < next <= end <= |bytes| && Tiles(bytes, 0, off) && Tiles(bytes, next, end)
    requires SoundRec(r) && off + r.len == mid && SoundRec(t) && mid + t.len == next
    ensures off + |RecBytes(r)| <= mid && mid + |RecBytes(t)| <= next
    ensures var now := Put(Put(bytes, off, RecBytes(r)), mid, RecBytes(t));
            && Tiles(now, 0, end)
            && Records(now, 0, end) == Records(bytes, 0, off) + [r, t] + Records(bytes, next, end)
            && (forall i :: end <= i < |bytes| ==> now[i] == bytes[i])
  {
    hide RecBytes;
    hide Tiles;
    hide Records;
    hide Put;
    WriteRec(bytes, off, r);
    var half := Put(bytes, off, RecBytes(r));
    WriteRec(half, mid, t);
    var now := Put(half, mid, RecBytes(t));
    OneRecord(half, off, mid);
    TilesFrame(half, now, off, mid);
    OneRecord(now, mid, next);
    TilesConcat(now, off, mid, next);
    Patched(bytes, now, off, next, end);
    assert [r] + [t] == [r, t];
  }

  ghost predicate AddsEntry(before: seq<DirEntry>, after: seq<DirEntry>, e: DirEntry) {
    exists k :: 0 <= k <= |before| && after == before[..k] + [e] + before[k..]
  }

  lemma AddedBetween(left: seq<DirEntry>, right: seq<DirEntry>, e: DirEntry)
    ensures AddsEntry(left + right, left + [e] + right, e)
  {
    var before := left + right;
    assert before[..|left|] == left && before[|left|..] == right;
  }

  /** An entry over an unused record. */
  lemma ReuseEntries(left: seq<Rec>, de: Rec, right: seq<Rec>, r: Rec)
    requires de.Unused() && !r.Unused()
    ensures AddsEntry(Entries(left + [de] + right), Entries(left + [r] + right), EntryOf(r))
  {
    hide Entries;
    EntriesAround(left, [de], right);
    EntriesAround(left, [r], right);
    EntriesOne(de);
    EntriesOne(r);
    assert Entries(left) + [] == Entries(left);
    AddedBetween(Entries(left), Entries(right), EntryOf(r));
  }

  /** An entry behind a record that was cut down. */
  lemma SplitEntries(left: seq<Rec>, de: Rec, right: seq<Rec>, short: Rec, r: Rec)
    requires short.inode == de.inode && short.name == de.name && short.ftype == de.ftype && !r.Unused()
    ensures AddsEntry(Entries(left + [de] + right), Entries(left + [short, r] + right), EntryOf(r))
  {
    hide Entries;
    EntriesAround(left, [de], right);
    EntriesAround(left, [short, r], right);
    assert [short] + [r] == [short, r];
    EntriesConcat([short], [r]);
    EntriesOne(de);
    EntriesOne(short);
    EntriesOne(r);
    AddedBetween(Entries(left) + Entries([de]), Entries(right), EntryOf(r));
    Regrouped(Entries(left), Entries([de]), [EntryOf(r)], Entries(right));
  }

  lemma Regrouped(a: seq<DirEntry>, b: seq<DirEntry>, c: seq<DirEntry>, d: seq<DirEntry>)
    ensures a + (b + c) + d == a + b + c + d
  {
  }

  /** A record that becomes unused gives up its entry and can take it again. */
  lemma ClearEntries(de: Rec, right: seq<Rec>, clear: Rec)
    requires clear.Unused() && clear.len == de.len && de.Used() <= de.len
    ensures Entries([] + [clear] + right) == Entries(right)
    ensures HasRoom([] + [clear] + right, |de.name|)
  {
    hide Entries;
    EntriesAround([], [clear], right);
    EntriesOne(clear);
    NoEntries();
    NothingBefore(Entries(right));
    assert ([] + [clear] + right)[0] == clear;
  }

  lemma NothingBefore(a: seq<DirEntry>)
    ensures [] + [] + a == a
  {
  }

  /** A record that takes over the next one keeps its entry and has room. */
  lemma MergeEntries(left: seq<Rec>, p: Rec, de: Rec, right: seq<Rec>, merged: Rec)
    requires merged.inode == p.inode && merged.name == p.name && merged.ftype == p.ftype
    requires p.Used() <= p.len && de.Used() <= de.len && merged.len as int == p.len + de.len
    ensures Entries(left + [merged] + right) == Entries(left + [p]) + Entries(right)
    ensures HasRoom(left + [merged] + right, |de.name|)
  {
    hide Entries;
    EntriesAround(left, [merged], right);
    EntriesConcat(left, [p]);
    EntriesOne(merged);
    EntriesOne(p);
    assert (left + [merged] + right)[|left|] == merged;
  }

  /** A record that points elsewhere changes its entry in place. */
  lemma RepointEntries(left: seq<Rec>, de: Rec, right: seq<Rec>, r: Rec)
    requires !de.Unused() && !r.Unused()
    ensures var before := Entries(left + [de] + right);
            |Entries(left)| < |before| && Entries(left + [r] + right) == before[|Entries(left)| := EntryOf(r)]
  {
    hide Entries;
    EntriesAround(left, [de], right);
    EntriesAround(left, [r], right);
    EntriesOne(de);
    EntriesOne(r);
  }

  ghost predicate IsPrevious(bytes: seq<byte>, prev: nat, off: nat) {
    && prev + REC_HEADER_BYTES <= off <= |bytes|
    && Tiles(bytes, 0, prev) && RecordAt(bytes, prev, off) && prev + Le16(bytes, prev + 4) == off
  }

  lemma NowPrevious(bytes: seq<byte>, off: nat, end: nat)
    requires off < end <= |bytes| && Tiles(bytes, 0, off) && Tiles(bytes, off, end)
    requires RecordAt(bytes, off, end) && off + REC_HEADER_BYTES + bytes[off + 6] as int <= |bytes|
    ensures IsPrevious(bytes, off, off + ReadRec(bytes, off).len)
  {
    OneRecord(bytes, off, end);
  }

  /** The record before the current one. */
  lemma Previous(bytes: seq<byte>, prev: nat, off: nat, end: nat)
    requires off <= end <= |bytes| && IsPrevious(bytes, prev, off)
    ensures prev + REC_HEADER_BYTES + bytes[prev + 6] as int <= |bytes|
    ensures var p := ReadRec(bytes, prev);
            && prev + p.len == off && p.Used() <= p.len && SoundRec(p)
            && Tiles(bytes, 0, off) && Records(bytes, 0, off) == Records(bytes, 0, prev) + [p]
  {
    hide Tiles;
    hide Records;
    OneRecord(bytes, prev, off);
    TilesConcat(bytes, 0, prev, off);
    RecordFields(bytes, prev, off);
  }

  lemma RecordFields(bytes: seq<byte>, off: nat, end: nat)
    requires end <= |bytes| && RecordAt(bytes, off, end)
    ensures off + REC_HEADER_BYTES + bytes[off + 6] as int <= |bytes|
    ensures SoundRec(ReadRec(bytes, off)) && ReadRec(bytes, off).len == Le16(bytes, off + 4)
  {
  }
}
