/** What is checked of a block of attributes before an inode lets go of it, and
    exactly which blocks that were edited in place pass. */
module XattrRelease {
  import opened Bytes
  import opened XattrLayout
  import opened XattrBlock
  import RangeIndex

  const XATTR_MAGIC: u32 := 0xEA02_0000

  predicate HeaderFine(b: seq<byte>)
    requires |b| >= XATTR_HEADER_BYTES
  {
    Le32(b, 0) == XATTR_MAGIC && RefCount(b) != 0 && Le32(b, 8) == 1
  }

  /** How many inodes use the block. */
  function RefCount(b: seq<byte>): u32
    requires |b| >= XATTR_HEADER_BYTES
  {
    Le32(b, 4)
  }

  function Padded(n: nat): (r: nat)
    ensures r % 4 == 0 && n <= r < n + 4
  {
    n + Padding(n)
  }

  /** The end of the table, whether a value is kept in another inode, and where
      the others are. */
  datatype Scanned = Scanned(end: nat, foreign: bool, places: seq<RangeIndex.Range>)

  /** The entry at `at` can be read as one. */
  predicate EntryFine(b: Block, at: nat) {
    && at + ENTRY_FIXED_BYTES <= BLOCK_SIZE
    && var name := at + ENTRY_FIXED_BYTES;
       && name + b[at] <= BLOCK_SIZE && 0 !in b[name..name + b[at]]
       && NextAt(b, at) + 4 <= BLOCK_SIZE
       && if Le32(b, at + 4) != 0 then Le32(b, at + 8) != 0
          else Le32(b, at + 8) != 0 ==> Le16(b, at + 2) % 4 == 0 && ValueAt(b, at).end <= BLOCK_SIZE
  }

  function NextAt(b: Block, at: nat): nat
    requires at < BLOCK_SIZE
  {
    at + Padded(ENTRY_FIXED_BYTES + b[at])
  }

  function ValueAt(b: Block, at: nat): RangeIndex.Range
    requires at + ENTRY_FIXED_BYTES <= BLOCK_SIZE
  {
    RangeIndex.Range(Le16(b, at + 2), Le16(b, at + 2) + Padded(Le32(b, at + 8)))
  }

  /** The table from `at` on, after what was found before. */
  function Scan(b: Block, at: nat, foreign: bool, places: seq<RangeIndex.Range>): Option<Scanned>
    decreases BLOCK_SIZE - at
  {
    if at + 4 > BLOCK_SIZE then None
    else if b[at..at + 4] == Zeros(4) then Some(Scanned(at, foreign, places))
    else if !EntryFine(b, at) then None
    else if Le32(b, at + 4) != 0 then Scan(b, NextAt(b, at), true, places)
    else if Le32(b, at + 8) != 0 then Scan(b, NextAt(b, at), foreign, places + [ValueAt(b, at)])
    else Scan(b, NextAt(b, at), foreign, places)
  }

  function Entries(b: Block): Option<Scanned> {
    Scan(b, XATTR_HEADER_BYTES, false, [])
  }

  ghost predicate Disjoint(places: seq<RangeIndex.Range>) {
    forall i, j :: 0 <= i < j < |places| ==> !places[i].Overlaps(places[j])
  }

  /** The block may be released: it counts its users, its table ends, and no
      value overlaps the table or another value. */
  ghost predicate Releases(b: Block) {
    && HeaderFine(b) && Entries(b).Some?
    && (forall p :: p in Entries(b).value.places ==> Entries(b).value.end + 4 <= p.start)
    && Disjoint(Entries(b).value.places)
  }

  /** ... and none of its values is kept in another inode. */
  ghost predicate Detaches(b: Block) {
    Releases(b) && !Entries(b).value.foreign
  }

  // ---- What the check promises of any block -------------------------------------------

  predicate AlignedInside(p: RangeIndex.Range) {
    p.start % 4 == 0 && p.start < p.end <= 4096 && p.end % 4 == 0
  }

  lemma EntryPlace(b: Block, at: nat)
    requires at % 4 == 0 && EntryFine(b, at)
    ensures NextAt(b, at) % 4 == 0 && at < NextAt(b, at)
    ensures Le32(b, at + 4) == 0 && Le32(b, at + 8) != 0 ==> AlignedInside(ValueAt(b, at))
  {
    hide Le16;
    hide Le32;
    hide Padded;
  }

  lemma {:induction false} ScanStaysInside(b: Block, at: nat, foreign: bool, places: seq<RangeIndex.Range>)
    requires at % 4 == 0 && forall p :: p in places ==> AlignedInside(p)
    ensures var r := Scan(b, at, foreign, places);
            r.Some? ==>
              && at <= r.value.end && r.value.end + 4 <= 4096 && b[r.value.end..r.value.end + 4] == [0, 0, 0, 0]
              && forall p :: p in r.value.places ==> AlignedInside(p)
    decreases BLOCK_SIZE - at
  {
    hide EntryFine;
    hide NextAt;
    hide ValueAt;
    hide AlignedInside;
    hide Le32;
    assert Zeros(4) == [0, 0, 0, 0];
    if at + 4 <= BLOCK_SIZE && b[at..at + 4] != Zeros(4) && EntryFine(b, at) {
      EntryPlace(b, at);
      EntryHasFields(b, at);
      if Le32(b, at + 4) != 0 {
        ScanStaysInside(b, NextAt(b, at), true, places);
      } else if Le32(b, at + 8) != 0 {
        ScanStaysInside(b, NextAt(b, at), foreign, places + [ValueAt(b, at)]);
      } else {
        ScanStaysInside(b, NextAt(b, at), foreign, places);
      }
    }
  }

  lemma EntryHasFields(b: Block, at: nat)
    requires EntryFine(b, at)
    ensures at + 16 <= BLOCK_SIZE
  {
  }

  /** In a block that passes, whatever its bytes, the table ends with a zero
      word inside the block, and the values lie behind it, aligned, inside the
      block and apart from each other. */
  lemma PassedIsSafe(b: Block)
    requires Releases(b)
    ensures var s := Entries(b).value;
            && 32 <= s.end && s.end + 4 <= 4096 && b[s.end..s.end + 4] == [0, 0, 0, 0]
            && (forall p :: p in s.places ==>
                  s.end + 4 <= p.start < p.end <= 4096 && p.start % 4 == 0 && p.end % 4 == 0)
            && (forall i, j :: 0 <= i < j < |s.places| ==>
                  s.places[i].end <= s.places[j].start || s.places[j].end <= s.places[i].start)
  {
    hide Scan;
    ScanStaysInside(b, 32, false, []);
    var s := Entries(b).value;
    forall i, j | 0 <= i < j < |s.places|
      ensures s.places[i].end <= s.places[j].start || s.places[j].end <= s.places[i].start
    {
      assert !s.places[i].Overlaps(s.places[j]);
      assert AlignedInside(s.places[i]) && AlignedInside(s.places[j]);
    }
  }

  // ---- Sorted places ------------------------------------------------------------------

  ghost predicate ApartFrom(r: RangeIndex.Range, places: seq<RangeIndex.Range>) {
    forall p :: p in places ==> !r.Overlaps(p)
  }

  lemma FirstApart(places: seq<RangeIndex.Range>)
    requires places != []
    ensures Disjoint(places) <==> Disjoint(places[1..]) && ApartFrom(places[0], places[1..])
  {
    var rest := places[1..];
    if Disjoint(places) {
      forall p | p in rest
        ensures !places[0].Overlaps(p)
      {
        var j :| 0 <= j < |rest| && rest[j] == p;
        assert places[j + 1] == p;
      }
    }
    if Disjoint(rest) && ApartFrom(places[0], rest) {
      forall i, j | 0 <= i < j < |places|
        ensures !places[i].Overlaps(places[j])
      {
        assert places[j] == rest[j - 1] && rest[j - 1] in rest;
        if i > 0 {
          assert places[i] == rest[i - 1];
        }
      }
    }
  }

  lemma RestSorted(places: seq<RangeIndex.Range>)
    requires RangeIndex.Sorted(places) && places != []
    ensures RangeIndex.Sorted(places[1..])
  {
  }

  lemma {:induction false} InsertApart(r: RangeIndex.Range, places: seq<RangeIndex.Range>)
    requires RangeIndex.Sorted(places)
    ensures Disjoint(RangeIndex.InsertSorted(r, places)) <==> Disjoint(places) && ApartFrom(r, places)
    decreases |places|
  {
    hide Disjoint;
    hide RangeIndex.Sorted;
    hide RangeIndex.Before;
    var all := RangeIndex.InsertSorted(r, places);
    FirstApart(all);
    if places == [] || RangeIndex.Before(r, places[0]) {
      assert all[1..] == places;
    } else {
      var rest := places[1..];
      RestSorted(places);
      FirstApart(places);
      InsertApart(r, rest);
      RangeIndex.InsertSortedOrder(r, rest);
      var more := RangeIndex.InsertSorted(r, rest);
      assert all[1..] == more && all[0] == places[0];
      assert ApartFrom(places[0], more) <==> !places[0].Overlaps(r) && ApartFrom(places[0], rest) by {
        assert r in more;
      }
      assert ApartFrom(r, places) <==> !r.Overlaps(places[0]) && ApartFrom(r, rest) by {
        assert forall p :: p in places <==> p == places[0] || p in rest;
      }
    }
  }

  lemma {:induction false} SortApart(places: seq<RangeIndex.Range>)
    ensures Disjoint(RangeIndex.Sort(places)) <==> Disjoint(places)
    decreases |places|
  {
    hide Disjoint;
    if places != [] {
      var rest := places[1..];
      SortApart(rest);
      RangeIndex.SortOrder(rest);
      InsertApart(places[0], RangeIndex.Sort(rest));
      FirstApart(places);
    }
  }

  predicate Chained(places: seq<RangeIndex.Range>) {
    forall i :: 0 < i < |places| ==> places[i - 1].end <= places[i].start
  }

  lemma {:induction false} ChainedAll(places: seq<RangeIndex.Range>, i: nat, j: nat)
    requires Chained(places) && RangeIndex.AllNonEmpty(places) && i < j < |places|
    ensures places[i].end <= places[j].start
    decreases j
  {
    assert places[j - 1].end <= places[j].start;
    if i < j - 1 {
      ChainedAll(places, i, j - 1);
    }
  }

  /** Looking at neighbours in order is enough. */
  lemma SortDecides(places: seq<RangeIndex.Range>)
    requires RangeIndex.AllNonEmpty(places)
    ensures Chained(RangeIndex.Sort(places)) <==> Disjoint(places)
  {
    var sorted := RangeIndex.Sort(places);
    SortApart(places);
    RangeIndex.SortOrder(places);
    RangeIndex.SameCover(places, sorted);
    if Chained(sorted) {
      forall i, j | 0 <= i < j < |sorted|
        ensures !sorted[i].Overlaps(sorted[j])
      {
        ChainedAll(sorted, i, j);
      }
    }
    if Disjoint(sorted) {
      forall i | 0 < i < |sorted|
        ensures sorted[i - 1].end <= sorted[i].start
      {
        assert !sorted[i - 1].Overlaps(sorted[i]) && RangeIndex.Before(sorted[i - 1], sorted[i]);
      }
    }
  }

  // ---- The check ------------------------------------------------------------------------

  /** Check a block before its release: how many use it, and whether a value is
      kept in another inode. */
  method ValidateForRelease(b: Block) returns (r: Option<(u32, bool)>)
    ensures r.Some? <==> Releases(b)
    ensures r.Some? ==> r.value == (RefCount(b), Entries(b).value.foreign)
  {
    hide Le32;
    hide Scan;
    hide Disjoint;
    if Le32(b, 0) != XATTR_MAGIC || Le32(b, 4) == 0 || Le32(b, 8) != 1 {
      return None;
    }
    var found := ScanTable(b);
    if found.None? {
      return None;
    }
    var places := found.value.places;
    for i := 0 to |places|
      invariant forall j :: 0 <= j < i ==> found.value.end + 4 <= places[j].start
    {
      if places[i].start < found.value.end + 4 {
        assert places[i] in places;
        return None;
      }
    }
    var sorted := RangeIndex.Sort(places);
    SortDecides(places);
    for i := 0 to |sorted|
      invariant forall j :: 0 < j < i ==> sorted[j - 1].end <= sorted[j].start
    {
      if i > 0 && sorted[i].start < sorted[i - 1].end {
        return None;
      }
    }
    return Some((Le32(b, 4), found.value.foreign));
  }

  lemma ScanEnds(b: Block)
    ensures forall at: nat, foreign, places {:trigger Scan(b, at, foreign, places)} ::
              && (at + 4 > BLOCK_SIZE ==> Scan(b, at, foreign, places) == None)
              && (at + 4 <= BLOCK_SIZE && b[at..at + 4] == Zeros(4) ==>
                    Scan(b, at, foreign, places) == Some(Scanned(at, foreign, places)))
  {
  }

  /** One entry further. */
  lemma ScanOne(b: Block, at: nat, foreign: bool, places: seq<RangeIndex.Range>)
    requires at + 4 <= BLOCK_SIZE && b[at..at + 4] != Zeros(4)
    ensures Scan(b, at, foreign, places) ==
            if !EntryFine(b, at) then None
            else
              var own := Le32(b, at + 4) == 0 && Le32(b, at + 8) != 0;
              Scan(b, NextAt(b, at), foreign || Le32(b, at + 4) != 0, if own then places + [ValueAt(b, at)] else places)
  {
    hide EntryFine;
  }

  /** Read the table entry by entry. */
  method ScanTable(b: Block) returns (r: Option<Scanned>)
    ensures r == Entries(b)
    ensures r.Some? ==> RangeIndex.AllNonEmpty(r.value.places)
  {
    hide Le32;
    hide Le16;
    hide Padded;
    hide Scan;
    hide Zeros;
    ScanEnds(b);
    var at := XATTR_HEADER_BYTES;
    var foreign := false;
    var places: seq<RangeIndex.Range> := [];
    while true
      invariant at <= BLOCK_SIZE && Scan(b, at, foreign, places) == Entries(b)
      invariant RangeIndex.AllNonEmpty(places)
      decreases BLOCK_SIZE - at
    {
      if at + 4 > BLOCK_SIZE {
        return None;
      }
      if b[at..at + 4] == Zeros(4) {
        return Some(Scanned(at, foreign, places));
      }
      ScanOne(b, at, foreign, places);
      if at + ENTRY_FIXED_BYTES > BLOCK_SIZE {
        return None;
      }
      var name := at + ENTRY_FIXED_BYTES;
      if name + b[at] > BLOCK_SIZE || 0 in b[name..name + b[at]] {
        return None;
      }
      var next := at + Padded(ENTRY_FIXED_BYTES + b[at]);
      if next + 4 > BLOCK_SIZE {
        return None;
      }
      var inode, size := Le32(b, at + 4), Le32(b, at + 8);
      if inode != 0 {
        if size == 0 {
          return None;
        }
        foreign := true;
      } else if size != 0 {
        var start := Le16(b, at + 2);
        var end := start + Padded(size);
        if start % 4 != 0 || end > BLOCK_SIZE {
          return None;
        }
        places := places + [RangeIndex.Range(start, end)];
      }
      at := next;
    }
  }

  // ---- Which blocks pass ----------------------------------------------------------------

  /** What an attribute must be for its block to pass. */
  predicate Tidy(a: Attr) {
    |a.value| % 4 == 0 && 0 !in a.key.suffix
  }

  predicate AllTidy(attrs: seq<Attr>) {
    forall a :: a in attrs ==> Tidy(a)
  }

  /** Where a value is that ends at `top`; an empty one is nowhere. */
  function PlaceOfValue(a: Attr, top: nat): seq<RangeIndex.Range>
    requires |a.value| <= top
  {
    if a.value == [] then [] else [RangeIndex.Range(top - |a.value|, top)]
  }

  /** Where the values are when the first one ends at `top`. */
  function PlacesOf(attrs: seq<Attr>, top: nat): seq<RangeIndex.Range>
    requires ValueBytes(attrs) <= top
    decreases |attrs|
  {
    if attrs == [] then []
    else PlaceOfValue(attrs[0], top) + PlacesOf(attrs[1..], top - |attrs[0].value|)
  }

  lemma SumAligned(a: nat, b: nat)
    requires a % 4 == 0 && b % 4 == 0
    ensures (a + b) % 4 == 0
  {
  }

  lemma TidyLength(a: Attr)
    requires Tidy(a)
    ensures |a.value| % 4 == 0
  {
  }

  lemma {:induction false} TidyBytes(attrs: seq<Attr>)
    requires AllTidy(attrs)
    ensures ValueBytes(attrs) % 4 == 0
    decreases |attrs|
  {
    hide Tidy;
    if attrs != [] {
      var a, rest := attrs[0], attrs[1..];
      assert a in attrs && forall x :: x in rest ==> x in attrs;
      TidyBytes(rest);
      TidyLength(a);
      SumAligned(|a.value|, ValueBytes(rest));
    }
  }

  /** The values lie one below the other. */
  lemma {:induction false} PlacesApart(attrs: seq<Attr>, top: nat)
    requires ValueBytes(attrs) <= top
    ensures Disjoint(PlacesOf(attrs, top))
    ensures forall p :: p in PlacesOf(attrs, top) ==> top - ValueBytes(attrs) <= p.start < p.end <= top
    decreases |attrs|
  {
    if attrs != [] {
      PlacesApart(attrs[1..], top - |attrs[0].value|);
    }
  }

  lemma ZeroWordIs()
    ensures ToLe32(0) == Zeros(4)
  {
  }

  lemma NoInode(b: Block, off: nat, key: Key, offset: u16, size: u32)
    requires Storable(key) && off + EntrySize(key) <= BLOCK_SIZE
    requires b[off..off + EntrySize(key)] == EntryBytes(key, offset, size)
    ensures Le32(b, off + 4) == 0
  {
    hide ToLe16;
    hide ToLe32;
    var e := EntryBytes(key, offset, size);
    SubWindow(b, off, |e|, 4, 8);
    ZeroWordIs();
    assert e[4..8] == Zeros(4);
    Le32Window(b, off + 4, 0);
  }

  /** An entry that was written can be read before a release exactly if its
      name has no zero and its value starts at a multiple of four. */
  lemma WrittenEntry(b: Block, off: nat, key: Key, offset: u16, size: u32)
    requires Storable(key) && off + EntrySize(key) + 4 <= BLOCK_SIZE
    requires b[off..off + EntrySize(key)] == EntryBytes(key, offset, size)
    ensures NextAt(b, off) == off + EntrySize(key) && Le32(b, off + 4) == 0 && Le32(b, off + 8) == size
    ensures ValueAt(b, off) == RangeIndex.Range(offset, offset + Padded(size))
    ensures offset > 0 ==> b[off..off + 4] != Zeros(4)
    ensures EntryFine(b, off) <==>
              0 !in key.suffix && (size != 0 ==> offset % 4 == 0 && offset + Padded(size) <= BLOCK_SIZE)
  {
    hide EntryBytes;
    hide Le32;
    hide Le16;
    EntryRoundTrip(b, off, key, offset, size);
    NoInode(b, off, key, offset, size);
    if b[off..off + 4] == Zeros(4) {
      ZeroWord(b, off);
    }
  }

  lemma ZeroWord(b: Block, off: nat)
    requires off + 4 <= BLOCK_SIZE && b[off..off + 4] == Zeros(4)
    ensures Le16(b, off + 2) == 0
  {
    var w := b[off..off + 4];
    assert w[2] == b[off + 2] && w[3] == b[off + 3];
  }

  lemma AllOfThem(attrs: seq<Attr>)
    requires ValueBytes(attrs) <= BLOCK_SIZE
    ensures attrs[..|attrs|] == attrs && attrs[..0] == [] && attrs[0..] == attrs && attrs[|attrs|..] == []
    ensures ValueBytes([]) == 0 && TableBytes([]) == 0
  {
  }

  lemma PlacesMore(attrs: seq<Attr>, i: nat, top: nat)
    requires i < |attrs| && ValueBytes(attrs[i..]) <= top
    ensures |attrs[i].value| + ValueBytes(attrs[i + 1..]) == ValueBytes(attrs[i..])
    ensures PlacesOf(attrs[i..], top)
            == PlaceOfValue(attrs[i], top) + PlacesOf(attrs[i + 1..], top - |attrs[i].value|)
  {
    assert attrs[i..][1..] == attrs[i + 1..];
  }

  /** The scan from entry `i` on, when the ones before are tidy. */
  lemma {:induction false} ScanFrom(header: Header, attrs: seq<Attr>, blank: seq<byte>, i: nat, top: nat,
                                    found: seq<RangeIndex.Range>)
    requires Fits(attrs) && |blank| == Gap(attrs) && Clear(blank) && i <= |attrs| && AllTidy(attrs[..i])
    requires top == BLOCK_SIZE - ValueBytes(attrs[..i]) && ValueBytes(attrs[i..]) <= top
    requires ValueBytes(attrs) <= BLOCK_SIZE
    ensures Scan(Layout(header, attrs, blank), XATTR_HEADER_BYTES + TableBytes(attrs[..i]), false, found) ==
            if AllTidy(attrs[i..]) then
              Some(Scanned(XATTR_HEADER_BYTES + TableBytes(attrs), false, found + PlacesOf(attrs[i..], top)))
            else None
    decreases |attrs| - i
  {
    hide Layout;
    hide Scan;
    hide EntrySize;
    hide AllStorable;
    hide TableBytes;
    hide ValueBytes;
    hide AllTidy;
    hide Tidy;
    hide Fits;
    hide Gap;
    var b := Layout(header, attrs, blank);
    AllOfThem(attrs);
    if i == |attrs| {
      TidyNothing();
      BlankEnds(header, attrs, blank);
      ScanEnds(b);
      assert found + [] == found;
    } else {
      TidyMore(attrs, i);
      PlacesMore(attrs, i, top);
      ScanEntry(header, attrs, blank, i, top, found);
      if Tidy(attrs[i]) {
        var more := found + PlaceOfValue(attrs[i], top);
        var rest := PlacesOf(attrs[i + 1..], top - |attrs[i].value|);
        ScanFrom(header, attrs, blank, i + 1, top - |attrs[i].value|, more);
        assert more + rest == found + (PlaceOfValue(attrs[i], top) + rest);
      }
    }
  }

  lemma ScanEntry(header: Header, attrs: seq<Attr>, blank: seq<byte>, i: nat, top: nat, found: seq<RangeIndex.Range>)
    requires Fits(attrs) && |blank| == Gap(attrs) && i < |attrs| && top % 4 == 0
    requires top == BLOCK_SIZE - ValueBytes(attrs[..i]) && |attrs[i].value| <= top
    ensures ValueBytes(attrs[..i + 1]) == ValueBytes(attrs[..i]) + |attrs[i].value|
    ensures var b := Layout(header, attrs, blank);
            Scan(b, XATTR_HEADER_BYTES + TableBytes(attrs[..i]), false, found) ==
            if Tidy(attrs[i]) then
              Scan(b, XATTR_HEADER_BYTES + TableBytes(attrs[..i + 1]), false, found + PlaceOfValue(attrs[i], top))
            else None
  {
    hide Layout;
    hide Scan;
    hide EntryFine;
    hide EntryBytes;
    hide ReadEntry;
    hide EntrySize;
    hide AllStorable;
    hide TableBytes;
    hide ValueBytes;
    hide Tidy;
    hide Fits;
    hide Le32;
    hide Le16;
    hide NextAt;
    hide ValueAt;
    hide Padded;
    hide Gap;
    var b := Layout(header, attrs, blank);
    var a, at := attrs[i], XATTR_HEADER_BYTES + TableBytes(attrs[..i]);
    NextEntry(header, attrs, blank, i);
    EndsInside(attrs, i);
    WrittenEntry(b, at, a.key, top - |a.value|, |a.value|);
    ScanOne(b, at, false, found);
    FineIfTidy(a, top);
    assert found + [] == found;
  }

  lemma TidyNothing()
    ensures AllTidy([])
  {
  }

  lemma TidyMore(attrs: seq<Attr>, i: nat)
    requires i < |attrs| && AllTidy(attrs[..i])
    ensures AllTidy(attrs[..i + 1]) <==> Tidy(attrs[i])
    ensures AllTidy(attrs[i..]) <==> Tidy(attrs[i]) && AllTidy(attrs[i + 1..])
    ensures (BLOCK_SIZE - ValueBytes(attrs[..i])) % 4 == 0
  {
    hide Tidy;
    hide ValueBytes;
    TidyBytes(attrs[..i]);
    assert attrs[..i + 1] == attrs[..i] + [attrs[i]] && attrs[i..] == [attrs[i]] + attrs[i + 1..];
  }

  lemma FineIfTidy(a: Attr, top: nat)
    requires |a.value| <= top <= BLOCK_SIZE && top % 4 == 0
    ensures Tidy(a) <==>
              && 0 !in a.key.suffix
              && (|a.value| != 0 ==> (top - |a.value|) % 4 == 0 && top - |a.value| + Padded(|a.value|) <= BLOCK_SIZE)
    ensures Tidy(a) ==> Padded(|a.value|) == |a.value|
  {
  }

  /** Entries end at least four bytes in front of the values. */
  lemma EndsInside(attrs: seq<Attr>, i: nat)
    requires Fits(attrs) && i < |attrs|
    ensures XATTR_HEADER_BYTES + TableBytes(attrs[..i]) + EntrySize(attrs[i].key) + 4 <= BLOCK_SIZE
    ensures ValueBytes(attrs[..i]) + |attrs[i].value| < BLOCK_SIZE
  {
    hide EntrySize;
    hide AllStorable;
    var left, a, right := attrs[..i], attrs[i], attrs[i + 1..];
    assert attrs == left + [a] + right;
    SizesConcat(left, [a]);
    SizesConcat(left + [a], right);
    OneSize(a);
    TableAligned(left);
    SizeAligned(a.key);
  }

  lemma SizeAligned(key: Key)
    ensures EntrySize(key) % 4 == 0
  {
  }

  lemma {:induction false} TableAligned(attrs: seq<Attr>)
    ensures TableBytes(attrs) % 4 == 0
    decreases |attrs|
  {
    hide EntrySize;
    if attrs != [] {
      SizeAligned(attrs[0].key);
      TableAligned(attrs[1..]);
    }
  }

  /** The table ends with four zeros if the values take whole words. */
  lemma BlankEnds(header: Header, attrs: seq<Attr>, blank: seq<byte>)
    requires Fits(attrs) && |blank| == Gap(attrs) && Clear(blank) && AllTidy(attrs)
    ensures var b, end := Layout(header, attrs, blank), XATTR_HEADER_BYTES + TableBytes(attrs);
            end + 4 <= BLOCK_SIZE - ValueBytes(attrs) && b[end..end + 4] == Zeros(4)
  {
    hide Layout;
    hide AllStorable;
    TidyBytes(attrs);
    TableAligned(attrs);
    AtEnd(header, attrs, blank);
    var b, end := Layout(header, attrs, blank), XATTR_HEADER_BYTES + TableBytes(attrs);
    SubWindow(b, end, |blank|, 0, 4);
    assert blank[0..4] == Zeros(4);
  }

  /** The header is in front. */
  lemma HeaderFirst(header: Header, attrs: seq<Attr>, blank: seq<byte>)
    requires Fits(attrs) && |blank| == Gap(attrs)
    ensures var b := Layout(header, attrs, blank); HeaderFine(b) <==> HeaderFine(header)
    ensures RefCount(Layout(header, attrs, blank)) == RefCount(header)
  {
    var b := Layout(header, attrs, blank);
    assert forall i :: 0 <= i < XATTR_HEADER_BYTES ==> b[i] == header[i];
  }

  /** A block passes exactly if its header does, the length of every value is a
      multiple of four, and no name has a zero behind its prefix. */
  lemma PassesIff(header: Header, attrs: seq<Attr>, blank: seq<byte>)
    requires Fits(attrs) && |blank| == Gap(attrs) && Clear(blank)
    ensures var b := Layout(header, attrs, blank);
            && (Releases(b) <==> HeaderFine(header) && AllTidy(attrs))
            && (Detaches(b) <==> HeaderFine(header) && AllTidy(attrs))
  {
    hide Layout;
    hide Scan;
    hide Disjoint;
    hide HeaderFine;
    hide AllTidy;
    hide AllStorable;
    hide PlacesOf;
    hide EntrySize;
    AllOfThem(attrs);
    TidyNothing();
    ScanFrom(header, attrs, blank, 0, BLOCK_SIZE, []);
    HeaderFirst(header, attrs, blank);
    if AllTidy(attrs) {
      assert [] + PlacesOf(attrs, BLOCK_SIZE) == PlacesOf(attrs, BLOCK_SIZE);
      PlacesApart(attrs, BLOCK_SIZE);
      BlankEnds(header, attrs, blank);
    }
  }

  /** Adding an attribute, or removing one, keeps a block releasable exactly if
      that attribute is tidy. */
  lemma EditPasses(header: Header, left: seq<Attr>, x: Attr, right: seq<Attr>, before: seq<byte>, after: seq<byte>)
    requires Fits(left + right) && |before| == Gap(left + right) && Clear(before)
    requires Fits(left + [x] + right) && |after| == Gap(left + [x] + right) && Clear(after)
    ensures Detaches(Layout(header, left + [x] + right, after)) <==>
              Detaches(Layout(header, left + right, before)) && Tidy(x)
  {
    hide Layout;
    hide Detaches;
    hide HeaderFine;
    hide Fits;
    hide Gap;
    hide Tidy;
    PassesIff(header, left + right, before);
    PassesIff(header, left + [x] + right, after);
    assert forall a :: a in left + [x] + right <==> a in left + right || a == x;
  }

  lemma NewHeaderFine()
    ensures HeaderFine(NewHeader()) && RefCount(NewHeader()) == 1
  {
    hide ToLe32;
    var h := NewHeader();
    assert h[0..4] == ToLe32(0xEA02_0000) && h[4..8] == ToLe32(1) && h[8..12] == ToLe32(1);
    Le32Window(h, 0, 0xEA02_0000);
    Le32Window(h, 4, 1);
    Le32Window(h, 8, 1);
  }

  // ---- Setting and removing attributes ----------------------------------------------------

  /** The block holds these attributes, each name once, and a blank area. */
  ghost predicate Holds(b: Block, header: Header, attrs: seq<Attr>, blank: seq<byte>) {
    && Fits(attrs) && |blank| == Gap(attrs) && InOrder(attrs) && Named(attrs) && Distinct(attrs)
    && b == Layout(header, attrs, blank)
  }

  /** Every binding is tidy. */
  ghost predicate TidyMap(m: map<Key, seq<byte>>) {
    forall k :: k in m ==> Tidy(Attr(k, m[k]))
  }

  lemma TidyBindings(attrs: seq<Attr>)
    requires Distinct(attrs)
    ensures AllTidy(attrs) <==> TidyMap(AsMap(attrs))
  {
    hide AsMap;
    hide Tidy;
    forall i | 0 <= i < |attrs|
      ensures attrs[i].key in AsMap(attrs) && AsMap(attrs)[attrs[i].key] == attrs[i].value
    {
      AsMapAt(attrs, i);
    }
    if AllTidy(attrs) {
      forall k | k in AsMap(attrs)
        ensures Tidy(Attr(k, AsMap(attrs)[k]))
      {
        AsMapKeys(attrs, k);
        var i :| 0 <= i < |attrs| && attrs[i].key == k;
        assert attrs[i] in attrs;
      }
    }
    if TidyMap(AsMap(attrs)) {
      forall a | a in attrs
        ensures Tidy(a)
      {
        var i :| 0 <= i < |attrs| && attrs[i] == a;
        assert a.key in AsMap(attrs) && a == Attr(a.key, AsMap(attrs)[a.key]);
      }
    }
  }

  /** A block can be let go of exactly if every attribute in it is tidy. */
  lemma HeldDetaches(b: Block, header: Header, attrs: seq<Attr>, blank: seq<byte>)
    requires Holds(b, header, attrs, blank) && Clear(blank)
    ensures Detaches(b) <==> HeaderFine(header) && TidyMap(AsMap(attrs))
  {
    hide Layout;
    hide Fits;
    hide Detaches;
    hide HeaderFine;
    hide AsMap;
    hide TidyMap;
    hide AllTidy;
    PassesIff(header, attrs, blank);
    TidyBindings(attrs);
  }

  /** The blank area after an attribute of `es` and `vs` bytes has gone. */
  function Widened(blank: seq<byte>, es: nat, vs: nat): (r: seq<byte>)
    ensures |r| == |blank| + es + vs
    ensures Clear(blank) ==> Clear(r)
  {
    Zeros(es) + blank + Zeros(vs)
  }

  /** Set an attribute on a copy of the block, which is only used if all went
      well.  Whether its inode can be released later is decided here.  Scans end
      behind the table as before if the name was there, and if the blank area is
      clear. */
  method SetAttr(b: Block, name: seq<byte>, value: seq<byte>, create: bool, replace: bool, ghost header: Header,
                 ghost attrs: seq<Attr>, ghost blank: seq<byte>)
    returns (r: Result<Block>, ghost now: seq<Attr>, ghost rest: seq<byte>)
    requires Holds(b, header, attrs, blank) && Ends(blank) && Storable(MatchName(name))
    ensures var key := MatchName(name);
            var has := key in AsMap(attrs);
            var es, vs := EntrySize(key), if has then |AsMap(attrs)[key]| else 0;
            var room := if has then Widened(blank, es, vs) else blank;
            && (r.Ok? <==> (if has then !create else !replace) && es + |value| < |room|)
            && (r.Err? ==> r.code == if has && create then EEXIST else if !has && replace then ENODATA else ENOSPC)
            && (r.Ok? && key.suffix != [] ==>
                  && Holds(r.value, header, now, rest) && AsMap(now) == AsMap(attrs)[key := value]
                  && rest == Between(room, es, |value|) && (has || Clear(blank) ==> Ends(rest))
                  && (Clear(blank) ==>
                        Clear(rest)
                        && (Detaches(r.value) <==> HeaderFine(header) && TidyMap(AsMap(attrs)[key := value]))))
  {
    hide Layout;
    hide Fits;
    hide InOrder;
    hide Named;
    hide Distinct;
    hide AsMap;
    hide MatchName;
    hide EntrySize;
    hide Gap;
    hide PlaceOf;
    hide FirstOf;
    hide HeaderFine;
    hide Detaches;
    hide TidyMap;
    hide Clear;
    hide Between;
    now, rest := attrs, blank;
    var data := new byte[BLOCK_SIZE](i requires 0 <= i < BLOCK_SIZE => b[i]);
    assert data[..] == b;
    var block := new XattrBlock(data, header, attrs, blank);
    var found := block.Get(name);
    if found.Some? && create {
      return Err(EEXIST), now, rest;
    }
    if found.None? && replace {
      return Err(ENODATA), now, rest;
    }
    if found.Some? {
      var gone := block.Remove(name);
    }
    ghost var mid, room := block.attrs, block.blank;
    var ok := block.Insert(name, value);
    if !ok {
      return Err(ENOSPC), now, rest;
    }
    now, rest := block.attrs, block.blank;
    r := Ok(data[..]);
    if MatchName(name).suffix != [] {
      EntryNotEmpty(MatchName(name));
      RoomEnds(blank, room, EntrySize(MatchName(name)), |value|, found.Some?);
      BindingSet(attrs, mid, now, MatchName(name), value, found.Some?);
      if Clear(blank) {
        HeldDetaches(r.value, header, now, rest);
      }
    }
  }

  /** Replacing a value leaves the beginning of the blank area where it was. */
  lemma RoomEnds(blank: seq<byte>, room: seq<byte>, es: nat, vs: nat, has: bool)
    requires Ends(blank) && es + vs < |room|
    requires if has then exists k: nat {:trigger Zeros(k)} :: room == Zeros(es) + blank + Zeros(k) else room == blank
    ensures has || Clear(blank) ==> Ends(Between(room, es, vs))
    ensures Clear(blank) ==> Clear(room) && Clear(Between(room, es, vs))
  {
  }

  lemma BindingSet(attrs: seq<Attr>, mid: seq<Attr>, now: seq<Attr>, key: Key, value: seq<byte>, has: bool)
    requires has <==> key in AsMap(attrs)
    requires if has then AsMap(mid) - {key} == AsMap(attrs) - {key} && key !in AsMap(mid) else mid == attrs
    requires AsMap(now) == AsMap(mid)[key := value]
    ensures AsMap(now) == AsMap(attrs)[key := value]
  {
    hide AsMap;
    if has {
      var a, m := AsMap(attrs), AsMap(mid);
      forall k | k != key
        ensures (k in m <==> k in a) && (k in a ==> m[k] == a[k])
      {
        assert k in m - {key} <==> k in a - {key};
      }
    }
  }

  /** Remove an attribute, on a copy of the block. */
  method RemoveAttr(b: Block, name: seq<byte>, ghost header: Header, ghost attrs: seq<Attr>, ghost blank: seq<byte>)
    returns (r: Result<Block>, ghost now: seq<Attr>, ghost rest: seq<byte>)
    requires Holds(b, header, attrs, blank) && Ends(blank)
    ensures r.Ok? <==> MatchName(name) in AsMap(attrs)
    ensures r.Err? ==> r.code == ENODATA
    ensures r.Ok? ==>
              var key := MatchName(name);
              && Holds(r.value, header, now, rest) && Ends(rest) && AsMap(now) == AsMap(attrs) - {key}
              && (Clear(blank) ==>
                    Clear(rest) && (Detaches(r.value) <==> HeaderFine(header) && TidyMap(AsMap(attrs) - {key})))
  {
    hide Layout;
    hide Fits;
    hide InOrder;
    hide Named;
    hide Distinct;
    hide AsMap;
    hide MatchName;
    hide EntrySize;
    hide Gap;
    hide FirstOf;
    hide HeaderFine;
    hide Detaches;
    hide TidyMap;
    now, rest := attrs, blank;
    var data := new byte[BLOCK_SIZE](i requires 0 <= i < BLOCK_SIZE => b[i]);
    assert data[..] == b;
    var block := new XattrBlock(data, header, attrs, blank);
    var ok := block.Remove(name);
    if !ok {
      return Err(ENODATA), now, rest;
    }
    now, rest := block.attrs, block.blank;
    r := Ok(data[..]);
    assert AsMap(now) == AsMap(now) - {MatchName(name)};
    if Clear(blank) {
      HeldDetaches(r.value, header, now, rest);
    }
  }

  /** One byte under any name is enough for a block to be refused. */
  lemma OneByteRefused(header: Header, key: Key, value: byte, blank: seq<byte>)
    requires Fits([Attr(key, [value])]) && |blank| == Gap([Attr(key, [value])]) && Clear(blank)
    ensures !Releases(Layout(header, [Attr(key, [value])], blank))
  {
    hide Layout;
    hide Releases;
    hide Fits;
    hide Gap;
    var x := Attr(key, [value]);
    assert x in [x] && !Tidy(x);
    PassesIff(header, [x], blank);
  }

  /** One byte under any name in a fresh block: what a file with it owns can
      never be released completely. */
  method OneByteValue(block: XattrBlock, name: seq<byte>, value: byte) returns (verdict: Option<(u32, bool)>)
    requires block.data.Length == BLOCK_SIZE && Storable(MatchName(name)) && MatchName(name).suffix != []
    modifies block, block.data
    ensures block.Valid() && AsMap(block.attrs) == map[MatchName(name) := [value]]
    ensures verdict.None?
  {
    hide MatchName;
    hide Layout;
    hide AsMap;
    hide Releases;
    block.Init();
    NothingBound();
    var key := MatchName(name);
    SmallFits(key);
    var ok := block.Insert(name, [value]);
    assert ok;
    var x := Attr(key, [value]);
    assert [] + [x] + [] == [x];
    OneByteRefused(block.header, key, value, block.blank);
    verdict := ValidateForRelease(block.data[..]);
  }

  lemma NothingBound()
    ensures AsMap([]) == map[] && Gap([]) == BLOCK_SIZE - XATTR_HEADER_BYTES
  {
  }

  lemma SmallFits(key: Key)
    requires Storable(key)
    ensures EntrySize(key) + 1 < BLOCK_SIZE - XATTR_HEADER_BYTES
  {
  }

  // ---- Counting down ------------------------------------------------------------------------

  /** One user less, with a new checksum where there is one. */
  function CountedDown(b: Block, sum: u32): Block
    requires RefCount(b) > 1
  {
    Put(Put(b, 4, ToLe32(RefCount(b) - 1)), 16, ToLe32(sum))
  }

  lemma {:induction false} ScanSame(b: Block, c: Block, at: nat, foreign: bool, places: seq<RangeIndex.Range>)
    requires b[XATTR_HEADER_BYTES..] == c[XATTR_HEADER_BYTES..] && XATTR_HEADER_BYTES <= at
    ensures Scan(b, at, foreign, places) == Scan(c, at, foreign, places)
    decreases BLOCK_SIZE - at
  {
    hide Scan;
    hide EntryFine;
    ScanEnds(b);
    ScanEnds(c);
    if at + 4 <= BLOCK_SIZE {
      SameBytes(b, c, at, at + 4);
      if b[at..at + 4] != Zeros(4) {
        ScanOne(b, at, foreign, places);
        ScanOne(c, at, foreign, places);
        EntrySame(b, c, at);
        if EntryFine(b, at) {
          FineEnds(b, at);
          var own := Le32(b, at + 4) == 0 && Le32(b, at + 8) != 0;
          ScanSame(b, c, NextAt(b, at), foreign || Le32(b, at + 4) != 0,
                   if own then places + [ValueAt(b, at)] else places);
        }
      }
    }
  }

  lemma FineEnds(b: Block, at: nat)
    requires EntryFine(b, at)
    ensures at + ENTRY_FIXED_BYTES <= BLOCK_SIZE && at < NextAt(b, at) <= BLOCK_SIZE
  {
  }

  lemma SameBytes(b: Block, c: Block, from: nat, to: nat)
    requires b[XATTR_HEADER_BYTES..] == c[XATTR_HEADER_BYTES..] && XATTR_HEADER_BYTES <= from <= to <= BLOCK_SIZE
    ensures b[from..to] == c[from..to]
    ensures forall i :: from <= i < to ==> b[i] == c[i]
  {
    forall i | from <= i < to
      ensures b[i] == c[i]
    {
      assert b[i] == b[XATTR_HEADER_BYTES..][i - XATTR_HEADER_BYTES];
      assert c[i] == c[XATTR_HEADER_BYTES..][i - XATTR_HEADER_BYTES];
    }
  }

  lemma EntrySame(b: Block, c: Block, at: nat)
    requires b[XATTR_HEADER_BYTES..] == c[XATTR_HEADER_BYTES..] && XATTR_HEADER_BYTES <= at < BLOCK_SIZE
    ensures EntryFine(b, at) <==> EntryFine(c, at)
    ensures NextAt(b, at) == NextAt(c, at)
    ensures at + ENTRY_FIXED_BYTES <= BLOCK_SIZE ==>
              && Le32(b, at + 4) == Le32(c, at + 4) && Le32(b, at + 8) == Le32(c, at + 8)
              && ValueAt(b, at) == ValueAt(c, at)
  {
    SameBytes(b, c, at, BLOCK_SIZE);
    if at + ENTRY_FIXED_BYTES <= BLOCK_SIZE {
      var name := at + ENTRY_FIXED_BYTES;
      if name + b[at] <= BLOCK_SIZE {
        SameBytes(b, c, name, name + b[at]);
      }
    }
  }

  /** Counting a block down changes nothing for its other users. */
  lemma CountedDownSame(b: Block, sum: u32)
    requires Releases(b) && RefCount(b) > 1
    ensures var c := CountedDown(b, sum);
            && Releases(c) && RefCount(c) == RefCount(b) - 1
            && (Detaches(c) <==> Detaches(b))
  {
    hide Scan;
    hide Disjoint;
    hide ToLe32;
    hide Put;
    var c := CountedDown(b, sum);
    DownHeader(b, sum);
    ScanSame(b, c, XATTR_HEADER_BYTES, false, []);
  }

  lemma DownHeader(b: Block, sum: u32)
    requires HeaderFine(b) && RefCount(b) > 1
    ensures var c := CountedDown(b, sum);
            && HeaderFine(c) && RefCount(c) == RefCount(b) - 1
            && c[XATTR_HEADER_BYTES..] == b[XATTR_HEADER_BYTES..]
  {
    hide ToLe32;
    hide Le32;
    hide Put;
    var count := ToLe32(RefCount(b) - 1);
    var mid := Put(b, 4, count);
    var c := Put(mid, 16, ToLe32(sum));
    PutElsewhere(b, 4, count, 0, 4);
    PutElsewhere(b, 4, count, 8, 12);
    PutElsewhere(b, 4, count, 32, 4096);
    PutElsewhere(mid, 16, ToLe32(sum), 0, 4);
    PutElsewhere(mid, 16, ToLe32(sum), 4, 8);
    PutElsewhere(mid, 16, ToLe32(sum), 8, 12);
    PutElsewhere(mid, 16, ToLe32(sum), 32, 4096);
    assert c[32..] == c[32..4096] && b[32..] == b[32..4096];
    Le32Same(b, c, 0);
    Le32Same(b, c, 8);
    assert c[4..8] == count;
    Le32Window(c, 4, RefCount(b) - 1);
  }

  lemma Le32Same(b: Block, c: Block, off: nat)
    requires off + 4 <= BLOCK_SIZE && b[off..off + 4] == c[off..off + 4]
    ensures Le32(b, off) == Le32(c, off)
  {
    var v, w := b[off..off + 4], c[off..off + 4];
    assert v[0] == b[off] && v[1] == b[off + 1] && v[2] == b[off + 2] && v[3] == b[off + 3];
    assert w[0] == c[off] && w[1] == c[off + 1] && w[2] == c[off + 2] && w[3] == c[off + 3];
  }
}
