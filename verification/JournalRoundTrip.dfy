/** What the writer puts in the ring is what recovery finds there: a complete
    transaction is read back exactly, a torn one is not seen at all. */
module JournalRoundTrip {
  import opened Bytes
  import opened BlockStore
  import opened Jbd2
  import opened LogTags
  import opened JournalLog
  import opened JournalReplay

  /** One transaction of the writer: where it starts and what it stages. */
  datatype LogTxn = LogTxn(sequence: u32, head: nat, entries: seq<Entry>)
  {
    function Blocks(fmt: Format): seq<Block> {
      LogBlocks(fmt, sequence, entries)
    }

    /** The ring blocks it needs: payload and commit. */
    function Needed(fmt: Format): nat {
      |Blocks(fmt)| + 1
    }

    predicate Fits(geo: Geometry) {
      && geo.Valid() && geo.InRing(head)
      && Needed(geo.fmt) <= geo.Size()
      && GroupEncodable(geo.fmt.features, entries, geo.targetBlocks)
    }

    function Slot(geo: Geometry, i: nat): nat
      requires geo.Valid() && geo.InRing(head) && i <= geo.Size()
    {
      RingAt(geo.first, geo.maxLen, head, i)
    }
  }

  // ---- Reading the images behind a descriptor ------------------------------

  function ReadAt(geo: Geometry, ring: Ring, tags: seq<Tag>, tx: LogTxn, k: nat): (r: seq<Logged>)
    requires geo.Valid() && |ring| == geo.maxLen && geo.InRing(tx.head) && k + |tags| <= geo.Size()
    ensures |r| == |tags|
  {
    seq(|tags|, i requires 0 <= i < |tags| => Logged(tags[i], ring[tx.Slot(geo, k + i)]))
  }

  lemma SkipIsSlot(geo: Geometry, tx: LogTxn, k: nat, count: nat)
    requires geo.Valid() && geo.InRing(tx.head) && k + count <= geo.Size()
    requires geo.InRing(tx.Slot(geo, k))
    ensures k + count < geo.Size() || count == 0 ==> Skip(geo, tx.Slot(geo, k), count) == tx.Slot(geo, k + count)
    ensures k + count == geo.Size() ==> Skip(geo, tx.Slot(geo, k), count) == tx.Slot(geo, k + count)
    decreases count
  {
    if count > 0 {
      SkipIsSlot(geo, tx, k + 1, count - 1);
    }
  }

  lemma ReadAtStep(geo: Geometry, ring: Ring, tags: seq<Tag>, tx: LogTxn, k: nat)
    requires geo.Valid() && |ring| == geo.maxLen && geo.InRing(tx.head) && k + |tags| <= geo.Size()
    ensures tags == [] ==> ReadAt(geo, ring, tags, tx, k) == []
    ensures tags != [] ==>
              ReadAt(geo, ring, tags, tx, k)
              == [Logged(tags[0], ring[tx.Slot(geo, k)])] + ReadAt(geo, ring, tags[1..], tx, k + 1)
  {
    if tags != [] {
      var rest := ReadAt(geo, ring, tags[1..], tx, k + 1);
      forall i | 1 <= i < |tags|
        ensures ReadAt(geo, ring, tags, tx, k)[i] == rest[i - 1]
      {
        assert k + 1 + (i - 1) == k + i;
      }
    }
  }

  lemma ReadLoggedIsReadAt(geo: Geometry, ring: Ring, tags: seq<Tag>, tx: LogTxn, k: nat)
    requires geo.Valid() && |ring| == geo.maxLen && geo.InRing(tx.head) && k + |tags| <= geo.Size()
    requires geo.InRing(tx.Slot(geo, k))
    ensures ReadLogged(geo, ring, tags, tx.Slot(geo, k), k) == Some(ReadAt(geo, ring, tags, tx, k))
    decreases |tags|
  {
    ReadAtStep(geo, ring, tags, tx, k);
    if tags != [] {
      assert geo.Next(tx.Slot(geo, k)) == tx.Slot(geo, k + 1);
      ReadLoggedIsReadAt(geo, ring, tags[1..], tx, k + 1);
      hide ReadAt;
    }
  }

  /** One unfolding of the walk at a descriptor. */
  lemma ScanTxnAtDescriptor(
    geo: Geometry, ring: Ring, sequence: u32, pos: nat, consumed: nat, txn: Txn, bad: bool,
    tags: seq<Tag>, logged: seq<Logged>)
    requires geo.Valid() && |ring| == geo.maxLen && geo.InRing(pos) && consumed < geo.Size()
    requires ParseHeader(ring[pos]) == Ok(Header(Descriptor, sequence))
    requires geo.fmt.features.v3 ==> geo.fmt.BlockChecksumValid(ring[pos])
    requires ParseTags(geo.fmt, ring[pos], geo.targetBlocks) == Ok(tags)
    requires ReadLogged(geo, ring, tags, geo.Next(pos), consumed + 1) == Some(logged)
    ensures ScanTxn(geo, ring, sequence, pos, consumed, txn, bad)
            == ScanTxn(geo, ring, sequence, Skip(geo, geo.Next(pos), |tags|), consumed + 1 + |tags|,
                       txn.(logged := txn.logged + logged), bad || !AllIntact(geo.fmt, sequence, logged))
  {
    hide ParseTags;
    hide ReadLogged;
    hide AllIntact;
    hide ParseHeader;
    hide Skip;
  }

  /** The scan steps over a descriptor that is in place. */
  lemma ScanDescriptor(geo: Geometry, ring: Ring, tx: LogTxn, group: seq<Entry>, k: nat, txn: Txn, bad: bool)
    requires tx.Fits(geo) && |ring| == geo.maxLen
    requires FitsDescriptor(geo.fmt.features, group) && GroupEncodable(geo.fmt.features, group, geo.targetBlocks)
    requires k + 1 + |group| < geo.Size()
    requires ring[tx.Slot(geo, k)] == DescriptorBlock(geo.fmt, tx.sequence, group)
    ensures var read := ReadAt(geo, ring, TagsOf(geo.fmt, tx.sequence, group), tx, k + 1);
            ScanTxn(geo, ring, tx.sequence, tx.Slot(geo, k), k, txn, bad)
            == ScanTxn(geo, ring, tx.sequence, tx.Slot(geo, k + 1 + |group|), k + 1 + |group|,
                       txn.(logged := txn.logged + read), bad || !AllIntact(geo.fmt, tx.sequence, read))
  {
    hide *;
    FitsFacts(geo, tx);
    var tags := TagsOf(geo.fmt, tx.sequence, group);
    TagsOfLength(geo.fmt, tx.sequence, group);
    SlotInRing(geo, tx, k);
    SlotInRing(geo, tx, k + 1);
    var read := ReadAt(geo, ring, tags, tx, k + 1);
    DescriptorRoundTrip(geo.fmt, tx.sequence, group, geo.targetBlocks);
    SkipIsSlot(geo, tx, k + 1, |group|);
    ReadLoggedIsReadAt(geo, ring, tags, tx, k + 1);
    ScanTxnAtDescriptor(geo, ring, tx.sequence, tx.Slot(geo, k), k, txn, bad, tags, read);
  }

  lemma FitsFacts(geo: Geometry, tx: LogTxn)
    requires tx.Fits(geo)
    ensures geo.Valid() && geo.InRing(tx.head) && tx.Needed(geo.fmt) <= geo.Size()
  {
  }

  lemma TagsOfLength(fmt: Format, sequence: u32, group: seq<Entry>)
    ensures |TagsOf(fmt, sequence, group)| == |group|
  {
  }

  lemma SlotInRing(geo: Geometry, tx: LogTxn, i: nat)
    requires geo.Valid() && geo.InRing(tx.head) && i < geo.Size()
    ensures geo.InRing(tx.Slot(geo, i)) && tx.Slot(geo, i) < geo.maxLen
    ensures geo.Next(tx.Slot(geo, i)) == tx.Slot(geo, i + 1)
  {
  }

  // ---- A complete transaction ----------------------------------------------

  function LoggedGroup(fmt: Format, sequence: u32, group: seq<Entry>): (r: seq<Logged>)
    ensures |r| == |group|
  {
    seq(|group|, i requires 0 <= i < |group| => Logged(TagOf(fmt, sequence, group, i), Escaped(group[i].image)))
  }

  /** The tag and image pairs that recovery should find for `entries`. */
  function LoggedOf(fmt: Format, sequence: u32, entries: seq<Entry>): seq<Logged>
    decreases |entries|
  {
    if entries == [] then []
    else
      var group := FirstGroup(fmt.features, entries);
      LoggedGroup(fmt, sequence, group) + LoggedOf(fmt, sequence, entries[|group|..])
  }

  /** Slots `k`, `k+1`, ... of the transaction hold exactly `blocks`. */
  ghost predicate Holds(geo: Geometry, ring: Ring, tx: LogTxn, k: nat, blocks: seq<Block>)
    requires geo.Valid() && |ring| == geo.maxLen && geo.InRing(tx.head) && k + |blocks| <= geo.Size()
  {
    forall j :: 0 <= j < |blocks| ==> ring[tx.Slot(geo, k + j)] == blocks[j]
  }

  lemma HoldsSplit(geo: Geometry, ring: Ring, tx: LogTxn, k: nat, a: seq<Block>, b: seq<Block>)
    requires geo.Valid() && |ring| == geo.maxLen && geo.InRing(tx.head) && k + |a| + |b| <= geo.Size()
    requires Holds(geo, ring, tx, k, a + b)
    ensures Holds(geo, ring, tx, k, a) && Holds(geo, ring, tx, k + |a|, b)
  {
    forall j | 0 <= j < |a|
      ensures ring[tx.Slot(geo, k + j)] == a[j]
    {
      assert (a + b)[j] == a[j];
    }
    forall j | 0 <= j < |b|
      ensures ring[tx.Slot(geo, k + |a| + j)] == b[j]
    {
      assert (a + b)[|a| + j] == b[j];
      assert ring[tx.Slot(geo, k + (|a| + j))] == (a + b)[|a| + j];
    }
  }

  /** Images in place are read with their tags, and every checksum matches. */
  lemma ReadGroupIntact(geo: Geometry, ring: Ring, tx: LogTxn, group: seq<Entry>, k: nat)
    requires geo.Valid() && |ring| == geo.maxLen && geo.InRing(tx.head) && k + |group| <= geo.Size()
    requires Holds(geo, ring, tx, k, EscapedImages(group))
    ensures var read := ReadAt(geo, ring, TagsOf(geo.fmt, tx.sequence, group), tx, k);
            read == LoggedGroup(geo.fmt, tx.sequence, group) && AllIntact(geo.fmt, tx.sequence, read)
  {
    var tags := TagsOf(geo.fmt, tx.sequence, group);
    var read := ReadAt(geo, ring, tags, tx, k);
    var images := EscapedImages(group);
    forall i | 0 <= i < |group|
      ensures read[i] == LoggedGroup(geo.fmt, tx.sequence, group)[i]
      ensures TagIntact(geo.fmt, tx.sequence, read[i])
    {
      assert ring[tx.Slot(geo, k + i)] == images[i];
    }
  }

  lemma {:induction false} ScanPayload(geo: Geometry, ring: Ring, tx: LogTxn, entries: seq<Entry>, k: nat, txn: Txn)
    requires tx.Fits(geo) && |ring| == geo.maxLen
    requires GroupEncodable(geo.fmt.features, entries, geo.targetBlocks)
    requires k + |LogBlocks(geo.fmt, tx.sequence, entries)| < geo.Size()
    requires Holds(geo, ring, tx, k, LogBlocks(geo.fmt, tx.sequence, entries))
    ensures var k' := k + |LogBlocks(geo.fmt, tx.sequence, entries)|;
            ScanTxn(geo, ring, tx.sequence, tx.Slot(geo, k), k, txn, false)
            == ScanTxn(geo, ring, tx.sequence, tx.Slot(geo, k'), k',
                       txn.(logged := txn.logged + LoggedOf(geo.fmt, tx.sequence, entries)), false)
    decreases |entries|
  {
    hide *;
    FitsFacts(geo, tx);
    PayloadUnfolds(geo.fmt, tx.sequence, entries);
    if entries == [] {
      assert txn.logged + [] == txn.logged;
    } else {
      var group := FirstGroup(geo.fmt.features, entries);
      var rest := entries[|group|..];
      var tail := LogBlocks(geo.fmt, tx.sequence, rest);
      var logged := LoggedGroup(geo.fmt, tx.sequence, group);
      var more := LoggedOf(geo.fmt, tx.sequence, rest);
      SplitGroup(geo, group, entries);
      GroupInPlace(geo, ring, tx, group, tail, k);
      Associate(txn.logged, logged, more);
      ScanDescriptor(geo, ring, tx, group, k, txn, false);
      ReadGroupIntact(geo, ring, tx, group, k + 1);
      ScanPayload(geo, ring, tx, rest, k + 1 + |group|, txn.(logged := txn.logged + logged));
    }
  }

  lemma PayloadUnfolds(fmt: Format, sequence: u32, entries: seq<Entry>)
    ensures entries == [] ==> LogBlocks(fmt, sequence, entries) == [] && LoggedOf(fmt, sequence, entries) == []
    ensures entries != [] ==>
              var group := FirstGroup(fmt.features, entries);
              && FitsDescriptor(fmt.features, group) && group <= entries
              && LogBlocks(fmt, sequence, entries)
                 == [DescriptorBlock(fmt, sequence, group)] + EscapedImages(group)
                    + LogBlocks(fmt, sequence, entries[|group|..])
              && LoggedOf(fmt, sequence, entries)
                 == LoggedGroup(fmt, sequence, group) + LoggedOf(fmt, sequence, entries[|group|..])
  {
  }

  lemma SplitGroup(geo: Geometry, group: seq<Entry>, entries: seq<Entry>)
    requires group <= entries && GroupEncodable(geo.fmt.features, entries, geo.targetBlocks)
    ensures GroupEncodable(geo.fmt.features, group, geo.targetBlocks)
    ensures GroupEncodable(geo.fmt.features, entries[|group|..], geo.targetBlocks)
  {
    assert entries == group + entries[|group|..];
  }

  /** A descriptor, its images and what follows them, seen one by one. */
  lemma GroupInPlace(geo: Geometry, ring: Ring, tx: LogTxn, group: seq<Entry>, tail: seq<Block>, k: nat)
    requires FitsDescriptor(geo.fmt.features, group)
    requires geo.Valid() && |ring| == geo.maxLen && geo.InRing(tx.head)
    requires k + 1 + |group| + |tail| <= geo.Size()
    requires Holds(geo, ring, tx, k, [DescriptorBlock(geo.fmt, tx.sequence, group)] + EscapedImages(group) + tail)
    ensures ring[tx.Slot(geo, k)] == DescriptorBlock(geo.fmt, tx.sequence, group)
    ensures Holds(geo, ring, tx, k + 1, EscapedImages(group))
    ensures Holds(geo, ring, tx, k + 1 + |group|, tail)
  {
    var first := [DescriptorBlock(geo.fmt, tx.sequence, group)];
    hide DescriptorBlock;
    HoldsSplit(geo, ring, tx, k, first + EscapedImages(group), tail);
    HoldsSplit(geo, ring, tx, k, first, EscapedImages(group));
    assert ring[tx.Slot(geo, k + 0)] == first[0];
  }

  /** A block that no scan for sequence `limit` or later would follow. */
  predicate StaleBlock(b: Block, limit: nat) {
    var h := ParseHeader(b);
    h.Ok? ==> h.value.sequence < limit
  }

  ghost predicate StaleRing(geo: Geometry, ring: Ring, limit: nat)
    requires geo.Valid() && |ring| == geo.maxLen
  {
    forall pos :: geo.InRing(pos) ==> StaleBlock(ring[pos], limit)
  }

  /** Every ring slot outside the transaction is stale. */
  ghost predicate StaleOutside(geo: Geometry, ring: Ring, tx: LogTxn)
    requires tx.Fits(geo) && |ring| == geo.maxLen
  {
    forall pos :: geo.InRing(pos) && (forall i :: 0 <= i < tx.Needed(geo.fmt) ==> pos != tx.Slot(geo, i))
                  ==> StaleBlock(ring[pos], tx.sequence)
  }

  /** Payload and commit are all in place. */
  ghost predicate FullLog(geo: Geometry, ring: Ring, tx: LogTxn)
    requires tx.Fits(geo) && |ring| == geo.maxLen
  {
    && StaleOutside(geo, ring, tx)
    && Holds(geo, ring, tx, 0, tx.Blocks(geo.fmt) + [CommitBlock(geo.fmt, tx.sequence)])
  }

  /** Each of the slots `k`, `k+1`, ... holds its block or a stale one. */
  ghost predicate HoldsSome(geo: Geometry, ring: Ring, tx: LogTxn, k: nat, blocks: seq<Block>)
    requires geo.Valid() && |ring| == geo.maxLen && geo.InRing(tx.head) && k + |blocks| <= geo.Size()
  {
    forall j :: 0 <= j < |blocks|
                ==> ring[tx.Slot(geo, k + j)] == blocks[j] || StaleBlock(ring[tx.Slot(geo, k + j)], tx.sequence)
  }

  lemma HoldsSomeSplit(geo: Geometry, ring: Ring, tx: LogTxn, k: nat, a: seq<Block>, b: seq<Block>)
    requires geo.Valid() && |ring| == geo.maxLen && geo.InRing(tx.head) && k + |a| + |b| <= geo.Size()
    requires HoldsSome(geo, ring, tx, k, a + b)
    ensures a != [] ==> ring[tx.Slot(geo, k)] == a[0] || StaleBlock(ring[tx.Slot(geo, k)], tx.sequence)
    ensures HoldsSome(geo, ring, tx, k + |a|, b)
  {
    if a != [] {
      assert (a + b)[0] == a[0];
      assert tx.Slot(geo, k + 0) == tx.Slot(geo, k);
    }
    forall j | 0 <= j < |b|
      ensures ring[tx.Slot(geo, k + |a| + j)] == b[j] || StaleBlock(ring[tx.Slot(geo, k + |a| + j)], tx.sequence)
    {
      assert (a + b)[|a| + j] == b[j];
      assert k + |a| + j == k + (|a| + j);
    }
  }

  /** Some payload blocks may be in place; the commit block is not. */
  ghost predicate TornLog(geo: Geometry, ring: Ring, tx: LogTxn)
    requires tx.Fits(geo) && |ring| == geo.maxLen
  {
    && StaleOutside(geo, ring, tx)
    && HoldsSome(geo, ring, tx, 0, tx.Blocks(geo.fmt))
    && StaleBlock(ring[tx.Slot(geo, |tx.Blocks(geo.fmt)|)], tx.sequence)
  }

  /** The slot behind the transaction, if there is one, is stale. */
  lemma SlotBehind(geo: Geometry, ring: Ring, tx: LogTxn)
    requires tx.Fits(geo) && |ring| == geo.maxLen && StaleOutside(geo, ring, tx)
    requires tx.Needed(geo.fmt) < geo.Size()
    ensures StaleBlock(ring[tx.Slot(geo, tx.Needed(geo.fmt))], tx.sequence)
  {
    var n := tx.Needed(geo.fmt);
    RingAtInside(geo.first, geo.maxLen, tx.head, n);
    assert geo.InRing(tx.Slot(geo, n));
  }

  lemma ScanTxnStops(geo: Geometry, ring: Ring, sequence: u32, pos: nat, consumed: nat, txn: Txn, bad: bool)
    requires geo.Valid() && |ring| == geo.maxLen && geo.InRing(pos)
    requires consumed < geo.Size() ==> !IsHeaderOf(ring[pos], sequence)
    ensures ScanTxn(geo, ring, sequence, pos, consumed, txn, bad) == Stopped
  {
  }

  lemma ScanTxnAtCommit(geo: Geometry, ring: Ring, sequence: u32, pos: nat, consumed: nat, txn: Txn)
    requires geo.Valid() && |ring| == geo.maxLen && geo.InRing(pos) && consumed < geo.Size()
    requires ring[pos] == CommitBlock(geo.fmt, sequence)
    ensures ScanTxn(geo, ring, sequence, pos, consumed, txn, false) == Complete(geo.Next(pos), consumed + 1, txn)
  {
    hide CommitBlock;
    CommitRoundTrip(geo.fmt, sequence);
  }

  lemma CommitSlot(geo: Geometry, ring: Ring, tx: LogTxn)
    requires tx.Fits(geo) && |ring| == geo.maxLen && FullLog(geo, ring, tx)
    ensures StaleOutside(geo, ring, tx)
    ensures Holds(geo, ring, tx, 0, tx.Blocks(geo.fmt))
    ensures ring[tx.Slot(geo, |tx.Blocks(geo.fmt)|)] == CommitBlock(geo.fmt, tx.sequence)
  {
    hide CommitBlock;
    hide LogBlocks;
    hide StaleOutside;
    var blocks := tx.Blocks(geo.fmt);
    HoldsSplit(geo, ring, tx, 0, blocks, [CommitBlock(geo.fmt, tx.sequence)]);
    assert ring[tx.Slot(geo, |blocks| + 0)] == [CommitBlock(geo.fmt, tx.sequence)][0];
  }

  /** A fully written transaction is the one and only transaction found. */
  lemma ScanFull(geo: Geometry, ring: Ring, tx: LogTxn)
    requires tx.Fits(geo) && |ring| == geo.maxLen && FullLog(geo, ring, tx) && tx.sequence + 1 < U32_LIMIT
    ensures ScanFrom(geo, ring, tx.sequence, tx.head, 0)
            == Ok([Txn(LoggedOf(geo.fmt, tx.sequence, tx.entries), [])])
  {
    hide *;
    FitsFacts(geo, tx);
    FitsEncodable(geo, tx);
    CommitSlot(geo, ring, tx);
    var n := |tx.Blocks(geo.fmt)|;
    NeededIs(geo.fmt, tx);
    SlotZero(geo, tx);
    SlotInRing(geo, tx, n);
    ScanPayload(geo, ring, tx, tx.entries, 0, NO_TXN);
    var txn := Txn(LoggedOf(geo.fmt, tx.sequence, tx.entries), []);
    NoTxnPlus(LoggedOf(geo.fmt, tx.sequence, tx.entries));
    ScanTxnAtCommit(geo, ring, tx.sequence, tx.Slot(geo, n), n, txn);
    assert ScanTxn(geo, ring, tx.sequence, tx.head, 0, NO_TXN, false) == Complete(tx.Slot(geo, n + 1), n + 1, txn);
    if n + 1 < geo.Size() {
      SlotBehind(geo, ring, tx);
      SlotInRing(geo, tx, n + 1);
      StaleIsNoHeader(ring[tx.Slot(geo, n + 1)], tx.sequence);
      ScanTxnStops(geo, ring, NextSequence(tx.sequence), tx.Slot(geo, n + 1), n + 1, NO_TXN, false);
    }
    ScanFromOne(geo, ring, tx.sequence, tx.head, tx.Slot(geo, n + 1), n + 1, txn);
  }

  lemma FitsEncodable(geo: Geometry, tx: LogTxn)
    requires tx.Fits(geo)
    ensures GroupEncodable(geo.fmt.features, tx.entries, geo.targetBlocks)
  {
  }

  lemma NeededIs(fmt: Format, tx: LogTxn)
    ensures tx.Needed(fmt) == |tx.Blocks(fmt)| + 1
    ensures tx.Blocks(fmt) == LogBlocks(fmt, tx.sequence, tx.entries)
  {
  }

  lemma SlotZero(geo: Geometry, tx: LogTxn)
    requires geo.Valid() && geo.InRing(tx.head)
    ensures tx.Slot(geo, 0) == tx.head
  {
  }

  lemma NoTxnPlus(logged: seq<Logged>)
    ensures NO_TXN.(logged := NO_TXN.logged + logged) == Txn(logged, [])
  {
    assert [] + logged == logged;
  }

  lemma StaleIsNoHeader(b: Block, s: u32)
    requires StaleBlock(b, s) && s + 1 < U32_LIMIT
    ensures !IsHeaderOf(b, s) && !IsHeaderOf(b, NextSequence(s))
  {
  }

  lemma ScanFromOne(geo: Geometry, ring: Ring, sequence: u32, pos: nat, pos': nat, consumed': nat, txn: Txn)
    requires geo.Valid() && |ring| == geo.maxLen && geo.InRing(pos) && geo.InRing(pos')
    requires 0 < consumed' <= geo.Size()
    requires ScanTxn(geo, ring, sequence, pos, 0, NO_TXN, false) == Complete(pos', consumed', txn)
    requires consumed' < geo.Size() ==>
               ScanTxn(geo, ring, NextSequence(sequence), pos', consumed', NO_TXN, false) == Stopped
    ensures ScanFrom(geo, ring, sequence, pos, 0) == Ok([txn])
  {
    hide ScanTxn;
    if pos' != pos && consumed' < geo.Size() {
      assert ScanFrom(geo, ring, NextSequence(sequence), pos', consumed') == Ok([]);
      assert [txn] + [] == [txn];
    }
  }

  // ---- A torn transaction --------------------------------------------------

  lemma {:induction false} ScanTornPayload(
    geo: Geometry, ring: Ring, tx: LogTxn, entries: seq<Entry>, k: nat, txn: Txn, bad: bool)
    requires tx.Fits(geo) && |ring| == geo.maxLen
    requires GroupEncodable(geo.fmt.features, entries, geo.targetBlocks)
    requires k + |LogBlocks(geo.fmt, tx.sequence, entries)| < geo.Size()
    requires HoldsSome(geo, ring, tx, k, LogBlocks(geo.fmt, tx.sequence, entries))
    requires StaleBlock(ring[tx.Slot(geo, k + |LogBlocks(geo.fmt, tx.sequence, entries)|)], tx.sequence)
    ensures ScanTxn(geo, ring, tx.sequence, tx.Slot(geo, k), k, txn, bad) == Stopped
    decreases |entries|
  {
    hide *;
    FitsFacts(geo, tx);
    SlotInRing(geo, tx, k);
    PayloadUnfolds(geo.fmt, tx.sequence, entries);
    var raw := ring[tx.Slot(geo, k)];
    StaleIsNotOf(raw, tx.sequence);
    if entries == [] || StaleBlock(raw, tx.sequence) {
      ScanTxnStops(geo, ring, tx.sequence, tx.Slot(geo, k), k, txn, bad);
    } else {
      var group := FirstGroup(geo.fmt.features, entries);
      var rest := entries[|group|..];
      SplitGroup(geo, group, entries);
      HoldsSomeSplit(geo, ring, tx, k, [DescriptorBlock(geo.fmt, tx.sequence, group)] + EscapedImages(group),
                     LogBlocks(geo.fmt, tx.sequence, rest));
      ScanDescriptor(geo, ring, tx, group, k, txn, bad);
      TagsOfLength(geo.fmt, tx.sequence, group);
      var read := ReadAt(geo, ring, TagsOf(geo.fmt, tx.sequence, group), tx, k + 1);
      ScanTornPayload(geo, ring, tx, rest, k + 1 + |group|, txn.(logged := txn.logged + read),
                      bad || !AllIntact(geo.fmt, tx.sequence, read));
    }
  }

  lemma StaleIsNotOf(b: Block, s: u32)
    ensures StaleBlock(b, s) ==> !IsHeaderOf(b, s)
  {
  }

  /** A transaction whose commit block is missing is not seen, whatever part of
      its payload reached the disk. */
  lemma ScanTorn(geo: Geometry, ring: Ring, tx: LogTxn)
    requires tx.Fits(geo) && |ring| == geo.maxLen && TornLog(geo, ring, tx)
    ensures ScanFrom(geo, ring, tx.sequence, tx.head, 0) == Ok([])
  {
    hide ScanTxn;
    hide LogBlocks;
    ScanTornPayload(geo, ring, tx, tx.entries, 0, NO_TXN, false);
    SlotZero(geo, tx);
  }

  // ---- Replay of what the writer logged -------------------------------------

  function WritesOf(entries: seq<Entry>): (r: seq<Write>)
    ensures |r| == |entries|
  {
    seq(|entries|, i requires 0 <= i < |entries| => Write(entries[i].home, entries[i].image))
  }

  lemma {:induction false} ReplayGroup(sequence: u32, logged: seq<Logged>, entries: seq<Entry>)
    requires |logged| == |entries|
    requires forall i :: 0 <= i < |entries| ==>
               && logged[i].tag.block == entries[i].home
               && !DeletedFlag(logged[i].tag.flags)
               && Unescaped(logged[i].tag.flags, logged[i].data) == entries[i].image
    ensures ReplayLogged(map[], sequence, logged) == WritesOf(entries)
  {
    if logged == [] {
      assert WritesOf(entries) == [];
    } else {
      ReplayGroup(sequence, logged[1..], entries[1..]);
      assert WritesOf(entries) == [Write(entries[0].home, entries[0].image)] + WritesOf(entries[1..]);
    }
  }

  /** Element `i` of the logged pairs belongs to entry `i`. */
  lemma {:induction false} LoggedOfAt(fmt: Format, sequence: u32, entries: seq<Entry>)
    ensures |LoggedOf(fmt, sequence, entries)| == |entries|
    ensures forall i :: 0 <= i < |entries| ==>
              var l := LoggedOf(fmt, sequence, entries)[i];
              && l.tag.block == entries[i].home
              && !DeletedFlag(l.tag.flags)
              && Unescaped(l.tag.flags, l.data) == entries[i].image
    decreases |entries|
  {
    if entries != [] {
      var group := FirstGroup(fmt.features, entries);
      var rest := entries[|group|..];
      LoggedOfAt(fmt, sequence, rest);
      LoggedGroupAt(fmt, sequence, group);
      assert entries == group + rest;
    }
  }

  lemma LoggedGroupAt(fmt: Format, sequence: u32, group: seq<Entry>)
    ensures forall i :: 0 <= i < |group| ==>
              var l := LoggedGroup(fmt, sequence, group)[i];
              && l.tag.block == group[i].home
              && !DeletedFlag(l.tag.flags)
              && Unescaped(l.tag.flags, l.data) == group[i].image
  {
    forall i | 0 <= i < |group|
      ensures var l := LoggedGroup(fmt, sequence, group)[i];
              Unescaped(l.tag.flags, l.data) == group[i].image
    {
      EscapeRoundTrip(group[i].image, i, |group|);
    }
  }

  predicate HomesAvoid(geo: Geometry, entries: seq<Entry>) {
    forall e :: e in entries ==> e.home !in geo.journal
  }

  /** Log round trip: what was staged is exactly what a committed log replays,
      across ring wrap, several descriptors, escapes and both tag layouts. */
  lemma PlanFull(geo: Geometry, ring: Ring, tx: LogTxn)
    requires tx.Fits(geo) && |ring| == geo.maxLen && FullLog(geo, ring, tx) && tx.sequence + 1 < U32_LIMIT
    requires HomesAvoid(geo, tx.entries)
    ensures Plan(geo, ring, tx.sequence, tx.head) == Ok((1, WritesOf(tx.entries)))
  {
    var logged := LoggedOf(geo.fmt, tx.sequence, tx.entries);
    ScanFull(geo, ring, tx);
    LoggedOfAt(geo.fmt, tx.sequence, tx.entries);
    ReplayGroup(tx.sequence, logged, tx.entries);
    PlanOne(geo, ring, tx.sequence, tx.head, Txn(logged, []));
  }

  lemma PlanOne(geo: Geometry, ring: Ring, sequence: u32, start: nat, txn: Txn)
    requires geo.Valid() && |ring| == geo.maxLen && geo.InRing(start)
    requires ScanFrom(geo, ring, sequence, start, 0) == Ok([txn])
    requires txn.revokes == [] && LogAvoids(geo, [txn])
    ensures Plan(geo, ring, sequence, start) == Ok((1, ReplayLogged(map[], sequence, txn.logged)))
  {
    hide ScanFrom;
    var txns := [txn];
    assert txns[1..] == [];
    assert RevokePass(geo, sequence, txns, map[]) == RevokePass(geo, NextSequence(sequence), txns[1..], map[]);
    assert RevokePass(geo, NextSequence(sequence), [], map[]) == Ok(map[]);
    assert ReplayPass(map[], NextSequence(sequence), []) == [];
    assert ReplayPass(map[], sequence, txns) == ReplayLogged(map[], sequence, txn.logged) + [];
    var table: RevokeTable := map[];
    assert TxnRevokes(geo, sequence, txn.revokes) == Ok([]);
    assert RevokeMany(table, [], sequence) == table;
    assert RevokePass(geo, sequence, txns, table) == Ok(table);
    assert ReplayPass(table, sequence, txns) == ReplayLogged(table, sequence, txn.logged);
  }

  lemma PlanTorn(geo: Geometry, ring: Ring, tx: LogTxn)
    requires tx.Fits(geo) && |ring| == geo.maxLen && TornLog(geo, ring, tx)
    ensures Plan(geo, ring, tx.sequence, tx.head) == Ok((0, []))
  {
    hide ScanFrom;
    ScanTorn(geo, ring, tx);
  }
}
