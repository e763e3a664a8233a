/** What recovery makes of a log that any writer of the format may have left:
    any number of transactions, each with several descriptors, their images
    and revoke blocks, anywhere in the ring. */
module LogMeaning {
  import opened Bytes
  import opened BlockStore
  import opened Jbd2
  import opened LogTags
  import opened JournalLog
  import opened JournalReplay
  import opened JournalRoundTrip
  import opened JournalImage
  import opened ReplayMeaning

  // ---- Revoke blocks ----------------------------------------------------------

  /** Do these block numbers fit the records of the journal? */
  predicate Narrow(wide: bool, blocks: seq<nat>) {
    forall i :: 0 <= i < |blocks| ==> blocks[i] < (if wide then 0x1_0000_0000_0000_0000 else 0x1_0000_0000)
  }

  /** One record of a revoke block. */
  function RecordOf(wide: bool, b: nat): (s: seq<byte>)
    requires b < (if wide then 0x1_0000_0000_0000_0000 else 0x1_0000_0000)
    ensures |s| == if wide then 8 else 4
  {
    if wide then ToBe32(b / 0x1_0000_0000) + ToBe32(b % 0x1_0000_0000) else ToBe32(b)
  }

  function RecordBytes(wide: bool, blocks: seq<nat>): seq<byte>
    requires Narrow(wide, blocks)
  {
    if blocks == [] then [] else RecordOf(wide, blocks[0]) + RecordBytes(wide, blocks[1..])
  }

  predicate RevokeFits(features: Features, blocks: seq<nat>) {
    && features.hasRevoke && Narrow(features.has64bit, blocks)
    && 16 + |RecordBytes(features.has64bit, blocks)| <= BLOCK_SIZE - features.TailBytes()
  }

  /** Header, byte count and records, and the checksum behind them. */
  function RevokeBlock(fmt: Format, sequence: u32, blocks: seq<nat>): Block
    requires RevokeFits(fmt.features, blocks)
  {
    var records := RecordBytes(fmt.features.has64bit, blocks);
    SealDescriptor(fmt, Put(Zeros(BLOCK_SIZE), 0,
                            HeaderBytes(Header(Revoke, sequence)) + ToBe32(16 + |records|) + records))
  }

  lemma RecordNumber(wide: bool, b: nat)
    requires b < (if wide then 0x1_0000_0000_0000_0000 else 0x1_0000_0000)
    ensures BigEndian(RecordOf(wide, b)) == b
  {
    hide BigEndian;
    if wide {
      var high, low := ToBe32(b / 0x1_0000_0000), ToBe32(b % 0x1_0000_0000);
      var s := high + low;
      assert s[0..4] == high[0..4] && s[4..8] == low[0..4] && s[0..8] == s;
      Be32Window(s, 0, high, 0);
      Be32Window(s, 4, low, 0);
      ReadsBigEndian(s, 0);
    } else {
      NarrowNumber(b);
    }
  }

  lemma NarrowNumber(b: u32)
    ensures BigEndian(ToBe32(b)) == b
  {
    hide BigEndian;
    var s := ToBe32(b);
    assert s[0..4] == s;
    ReadsBigEndian(s, 0);
  }

  lemma {:induction false} NumbersOfRecords(wide: bool, blocks: seq<nat>)
    requires Narrow(wide, blocks)
    ensures Numbers(RecordBytes(wide, blocks), if wide then 8 else 4) == blocks
    ensures |RecordBytes(wide, blocks)| % (if wide then 8 else 4) == 0
    decreases |blocks|
  {
    hide BigEndian;
    hide RecordOf;
    if blocks != [] {
      NumbersOfRecords(wide, blocks[1..]);
      RecordNumber(wide, blocks[0]);
      var first, rest := RecordOf(wide, blocks[0]), RecordBytes(wide, blocks[1..]);
      assert (first + rest)[..|first|] == first && (first + rest)[|first|..] == rest;
    }
  }

  /** A sealed block starts with what was put there and carries its checksum. */
  lemma SealedPrefix(fmt: Format, prefix: seq<byte>)
    requires |prefix| <= BLOCK_SIZE - fmt.features.TailBytes()
    ensures prefix <= SealDescriptor(fmt, Put(Zeros(BLOCK_SIZE), 0, prefix))
    ensures fmt.features.v3 ==> fmt.BlockChecksumValid(SealDescriptor(fmt, Put(Zeros(BLOCK_SIZE), 0, prefix)))
  {
    var body: Block := Put(Zeros(BLOCK_SIZE), 0, prefix);
    assert body[..|prefix|] == body[0..0 + |prefix|] == prefix;
    if fmt.features.v3 {
      var sum := ToBe32(fmt.BlockChecksum(body));
      var d := Put(body, BLOCK_SIZE - 4, sum);
      assert d[..|prefix|] == d[..BLOCK_SIZE - 4][..|prefix|] == body[..|prefix|];
      assert d[BLOCK_SIZE - 4..BLOCK_SIZE - 4 + 4] == sum;
      Be32Written(d, BLOCK_SIZE - 4, fmt.BlockChecksum(body));
      assert d[..|d| - 4] == body[..|body| - 4];
    }
  }

  /** The fields of a revoke block. */
  lemma RevokeShape(fmt: Format, sequence: u32, blocks: seq<nat>)
    requires RevokeFits(fmt.features, blocks)
    ensures var raw, records := RevokeBlock(fmt, sequence, blocks), RecordBytes(fmt.features.has64bit, blocks);
            && raw[..12] == HeaderBytes(Header(Revoke, sequence))
            && raw[12..16] == ToBe32(16 + |records|)
            && raw[16..16 + |records|] == records
            && (fmt.features.v3 ==> fmt.BlockChecksumValid(raw))
  {
    hide RecordBytes;
    hide HeaderBytes;
    hide ToBe32;
    hide SealDescriptor;
    hide Narrow;
    hide Format.BlockChecksumValid;
    var raw := RevokeBlock(fmt, sequence, blocks);
    var records := RecordBytes(fmt.features.has64bit, blocks);
    var header, count := HeaderBytes(Header(Revoke, sequence)), ToBe32(16 + |records|);
    var prefix := header + count + records;
    SealedPrefix(fmt, prefix);
    assert raw[..12] == raw[..|prefix|][..12] == header;
    assert raw[12..16] == raw[..|prefix|][12..16] == count;
    assert raw[16..16 + |records|] == raw[..|prefix|][16..] == records;
  }

  /** Revoke round trip, in both widths: recovery reads back exactly the blocks
      that the block lists. */
  lemma RevokeRoundTrip(fmt: Format, sequence: u32, blocks: seq<nat>, targetBlocks: nat)
    requires RevokeFits(fmt.features, blocks) && forall b :: b in blocks ==> b < targetBlocks
    ensures var raw := RevokeBlock(fmt, sequence, blocks);
            && ParseHeader(raw) == Ok(Header(Revoke, sequence))
            && (fmt.features.v3 ==> fmt.BlockChecksumValid(raw))
            && RevokedBlocks(fmt.features.has64bit, raw) == blocks
            && ParseRevokeRecords(fmt.features, raw, sequence, targetBlocks) == Ok(blocks)
  {
    hide ParseHeader;
    hide ParseRevokeRecords;
    hide Numbers;
    hide BigEndian;
    hide RecordBytes;
    hide HeaderBytes;
    hide RevokeBlock;
    hide ToBe32;
    hide Narrow;
    hide Format.BlockChecksumValid;
    var raw := RevokeBlock(fmt, sequence, blocks);
    RevokeShape(fmt, sequence, blocks);
    HeaderRoundTrip(raw, Header(Revoke, sequence));
    NarrowNumber(16 + |RecordBytes(fmt.features.has64bit, blocks)|);
    NumbersOfRecords(fmt.features.has64bit, blocks);
    RevokeParsesTo(fmt.features, raw, sequence, targetBlocks);
  }

  // ---- One transaction ---------------------------------------------------------

  /** What a transaction puts in the log: images under one descriptor, or block
      numbers whose earlier images are void. */
  datatype Part = ImagePart(group: seq<Entry>) | RevokePart(blocks: seq<nat>)

  predicate PartFits(geo: Geometry, p: Part) {
    match p
    case ImagePart(group) =>
      && FitsDescriptor(geo.fmt.features, group)
      && GroupEncodable(geo.fmt.features, group, geo.targetBlocks) && HomesAvoid(geo, group)
    case RevokePart(blocks) =>
      && RevokeFits(geo.fmt.features, blocks)
      && forall b :: b in blocks ==> b < geo.targetBlocks && b !in geo.journal
  }

  predicate PartsFit(geo: Geometry, parts: seq<Part>) {
    forall i :: 0 <= i < |parts| ==> PartFits(geo, parts[i])
  }

  function PartBlocks(geo: Geometry, sequence: u32, p: Part): (r: seq<Block>)
    requires PartFits(geo, p)
    ensures |r| > 0
  {
    match p
    case ImagePart(group) => [DescriptorBlock(geo.fmt, sequence, group)] + EscapedImages(group)
    case RevokePart(blocks) => [RevokeBlock(geo.fmt, sequence, blocks)]
  }

  function PartsBlocks(geo: Geometry, sequence: u32, parts: seq<Part>): seq<Block>
    requires PartsFit(geo, parts)
  {
    if parts == [] then [] else PartBlocks(geo, sequence, parts[0]) + PartsBlocks(geo, sequence, parts[1..])
  }

  function PartTxn(geo: Geometry, sequence: u32, p: Part): Txn
    requires PartFits(geo, p)
  {
    match p
    case ImagePart(group) => Txn(LoggedGroup(geo.fmt, sequence, group), [])
    case RevokePart(blocks) => Txn([], [RevokeBlock(geo.fmt, sequence, blocks)])
  }

  function Join(a: Txn, b: Txn): Txn {
    Txn(a.logged + b.logged, a.revokes + b.revokes)
  }

  /** What recovery should collect from these parts. */
  function PartsTxn(geo: Geometry, sequence: u32, parts: seq<Part>): Txn
    requires PartsFit(geo, parts)
  {
    if parts == [] then NO_TXN else Join(PartTxn(geo, sequence, parts[0]), PartsTxn(geo, sequence, parts[1..]))
  }

  lemma JoinAssociates(a: Txn, b: Txn, c: Txn)
    ensures Join(Join(a, b), c) == Join(a, Join(b, c))
    ensures Join(NO_TXN, a) == a == Join(a, NO_TXN)
  {
    Associate(a.logged, b.logged, c.logged);
    Associate(a.revokes, b.revokes, c.revokes);
    assert [] + a.logged == a.logged == a.logged + [];
    assert [] + a.revokes == a.revokes == a.revokes + [];
  }

  /** A place in the ring, for the lemmas about slots. */
  function From(sequence: u32, head: nat): LogTxn {
    LogTxn(sequence, head, [])
  }

  lemma FromFits(geo: Geometry, sequence: u32, head: nat)
    requires geo.Valid() && geo.InRing(head)
    ensures From(sequence, head).Fits(geo)
  {
  }

  lemma ScanTxnAtRevoke(geo: Geometry, ring: Ring, sequence: u32, pos: nat, consumed: nat, txn: Txn)
    requires geo.Valid() && |ring| == geo.maxLen && geo.InRing(pos) && consumed < geo.Size()
    requires ParseHeader(ring[pos]) == Ok(Header(Revoke, sequence))
    requires geo.fmt.features.v3 ==> geo.fmt.BlockChecksumValid(ring[pos])
    ensures ScanTxn(geo, ring, sequence, pos, consumed, txn, false)
            == ScanTxn(geo, ring, sequence, geo.Next(pos), consumed + 1,
                       txn.(revokes := txn.revokes + [ring[pos]]), false)
  {
    hide ParseHeader;
    hide Format.BlockChecksumValid;
  }

  /** The scan steps over one part and collects it. */
  lemma ScanPart(geo: Geometry, ring: Ring, sequence: u32, head: nat, p: Part, k: nat, txn: Txn)
    requires geo.Valid() && |ring| == geo.maxLen && geo.InRing(head) && PartFits(geo, p)
    requires k + |PartBlocks(geo, sequence, p)| < geo.Size()
    requires Holds(geo, ring, From(sequence, head), k, PartBlocks(geo, sequence, p))
    ensures var k' := k + |PartBlocks(geo, sequence, p)|;
            ScanTxn(geo, ring, sequence, From(sequence, head).Slot(geo, k), k, txn, false)
            == ScanTxn(geo, ring, sequence, From(sequence, head).Slot(geo, k'), k',
                       Join(txn, PartTxn(geo, sequence, p)), false)
  {
    hide ScanTxn;
    hide DescriptorBlock;
    hide RevokeBlock;
    hide EscapedImages;
    hide LoggedGroup;
    hide AllIntact;
    hide ReadAt;
    hide GroupEncodable;
    hide FitsDescriptor;
    hide RevokeFits;
    hide RingAt;
    hide LogTxn.Fits;
    var at := From(sequence, head);
    FromFits(geo, sequence, head);
    match p {
      case ImagePart(group) =>
        HoldsSplit(geo, ring, at, k, [DescriptorBlock(geo.fmt, sequence, group)], EscapedImages(group));
        HoldsFirst(geo, ring, at, k, [DescriptorBlock(geo.fmt, sequence, group)]);
        ScanDescriptor(geo, ring, at, group, k, txn, false);
        ReadGroupIntact(geo, ring, at, group, k + 1);
        assert txn.revokes + [] == txn.revokes;
      case RevokePart(blocks) =>
        HoldsFirst(geo, ring, at, k, [RevokeBlock(geo.fmt, sequence, blocks)]);
        RevokeRoundTrip(geo.fmt, sequence, blocks, geo.targetBlocks);
        SlotInRing(geo, at, k);
        ScanTxnAtRevoke(geo, ring, sequence, at.Slot(geo, k), k, txn);
        assert txn.logged + [] == txn.logged;
    }
  }

  lemma {:induction false} ScanParts(
    geo: Geometry, ring: Ring, sequence: u32, head: nat, parts: seq<Part>, k: nat, txn: Txn)
    requires geo.Valid() && |ring| == geo.maxLen && geo.InRing(head) && PartsFit(geo, parts)
    requires k + |PartsBlocks(geo, sequence, parts)| < geo.Size()
    requires Holds(geo, ring, From(sequence, head), k, PartsBlocks(geo, sequence, parts))
    ensures var k' := k + |PartsBlocks(geo, sequence, parts)|;
            ScanTxn(geo, ring, sequence, From(sequence, head).Slot(geo, k), k, txn, false)
            == ScanTxn(geo, ring, sequence, From(sequence, head).Slot(geo, k'), k',
                       Join(txn, PartsTxn(geo, sequence, parts)), false)
    decreases |parts|
  {
    hide ScanTxn;
    hide PartFits;
    hide PartBlocks;
    hide PartTxn;
    hide Holds;
    hide RingAt;
    if parts == [] {
      JoinAssociates(txn, NO_TXN, NO_TXN);
    } else {
      var first, rest := parts[0], parts[1..];
      var a, b := PartBlocks(geo, sequence, first), PartsBlocks(geo, sequence, rest);
      HoldsSplit(geo, ring, From(sequence, head), k, a, b);
      ScanPart(geo, ring, sequence, head, first, k, txn);
      ScanParts(geo, ring, sequence, head, rest, k + |a|, Join(txn, PartTxn(geo, sequence, first)));
      JoinAssociates(txn, PartTxn(geo, sequence, first), PartsTxn(geo, sequence, rest));
    }
  }

  // ---- The whole log -------------------------------------------------------------

  /** The transactions of a log, oldest first. */
  type History = seq<seq<Part>>

  predicate HistoryFits(geo: Geometry, txs: History) {
    forall i :: 0 <= i < |txs| ==> PartsFit(geo, txs[i])
  }

  /** Each transaction is closed by a commit block. */
  function HistoryBlocks(geo: Geometry, sequence: u32, txs: History): (r: seq<Block>)
    requires HistoryFits(geo, txs)
    decreases |txs|
  {
    if txs == [] then []
    else
      PartsBlocks(geo, sequence, txs[0]) + [CommitBlock(geo.fmt, sequence)]
      + HistoryBlocks(geo, NextSequence(sequence), txs[1..])
  }

  function TxnsOf(geo: Geometry, sequence: u32, txs: History): (r: seq<Txn>)
    requires HistoryFits(geo, txs)
    ensures |r| == |txs|
  {
    seq(|txs|, i requires 0 <= i < |txs| => PartsTxn(geo, SequenceAfter(sequence, i), txs[i]))
  }

  lemma LaterSequence(sequence: u32, i: nat)
    ensures SequenceAfter(sequence, 0) == sequence
    ensures SequenceAfter(NextSequence(sequence), i) == SequenceAfter(sequence, i + 1)
  {
  }

  lemma TxnsOfStep(geo: Geometry, sequence: u32, txs: History)
    requires HistoryFits(geo, txs) && txs != []
    ensures TxnsOf(geo, sequence, txs)
            == [PartsTxn(geo, sequence, txs[0])] + TxnsOf(geo, NextSequence(sequence), txs[1..])
    ensures SequenceAfter(sequence, |txs|) == SequenceAfter(NextSequence(sequence), |txs| - 1)
  {
    hide PartsTxn;
    hide PartsFit;
    hide SequenceAfter;
    hide NextSequence;
    LaterSequence(sequence, |txs| - 1);
    forall i | 1 <= i < |txs|
      ensures TxnsOf(geo, sequence, txs)[i] == TxnsOf(geo, NextSequence(sequence), txs[1..])[i - 1]
    {
      LaterSequence(sequence, i - 1);
    }
  }

  /** The log holds these transactions from slot `k` on and nothing behind them
      that continues it. */
  ghost predicate LogHolds(geo: Geometry, ring: Ring, sequence: u32, head: nat, k: nat, txs: History)
    requires geo.Valid() && |ring| == geo.maxLen && geo.InRing(head) && HistoryFits(geo, txs)
  {
    var end := k + |HistoryBlocks(geo, sequence, txs)|;
    && end <= geo.Size()
    && Holds(geo, ring, From(sequence, head), k, HistoryBlocks(geo, sequence, txs))
    && (end < geo.Size() ==>
          !IsHeaderOf(ring[From(sequence, head).Slot(geo, end)], SequenceAfter(sequence, |txs|)))
  }

  lemma SameHead(geo: Geometry, ring: Ring, a: u32, b: u32, head: nat, k: nat, blocks: seq<Block>)
    requires geo.Valid() && |ring| == geo.maxLen && geo.InRing(head) && k + |blocks| <= geo.Size()
    requires Holds(geo, ring, From(a, head), k, blocks)
    ensures Holds(geo, ring, From(b, head), k, blocks)
  {
    forall j | 0 <= j < |blocks|
      ensures ring[From(b, head).Slot(geo, k + j)] == blocks[j]
    {
      assert ring[From(a, head).Slot(geo, k + j)] == blocks[j];
    }
  }

  /** The first transaction stands in place, and so does the rest of the log. */
  lemma LogSplits(geo: Geometry, ring: Ring, sequence: u32, head: nat, k: nat, txs: History)
    requires geo.Valid() && |ring| == geo.maxLen && geo.InRing(head) && HistoryFits(geo, txs) && txs != []
    requires LogHolds(geo, ring, sequence, head, k, txs)
    ensures HistoryFits(geo, txs[1..]) && PartsFit(geo, txs[0])
    ensures var blocks := PartsBlocks(geo, sequence, txs[0]);
            && k + |blocks| < geo.Size()
            && Holds(geo, ring, From(sequence, head), k, blocks)
            && ring[From(sequence, head).Slot(geo, k + |blocks|)] == CommitBlock(geo.fmt, sequence)
            && LogHolds(geo, ring, NextSequence(sequence), head, k + |blocks| + 1, txs[1..])
  {
    hide PartsFit;
    hide PartsBlocks;
    hide CommitBlock;
    hide IsHeaderOf;
    hide RingAt;
    hide Holds;
    hide SequenceAfter;
    hide NextSequence;
    var at := From(sequence, head);
    var blocks, rest := PartsBlocks(geo, sequence, txs[0]), HistoryBlocks(geo, NextSequence(sequence), txs[1..]);
    var commit := [CommitBlock(geo.fmt, sequence)];
    TxnsOfStep(geo, sequence, txs);
    HoldsSplit(geo, ring, at, k, blocks + commit, rest);
    HoldsSplit(geo, ring, at, k, blocks, commit);
    HoldsFirst(geo, ring, at, k + |blocks|, commit);
    SameHead(geo, ring, sequence, NextSequence(sequence), head, k + |blocks| + 1, rest);
  }

  lemma HoldsFirst(geo: Geometry, ring: Ring, at: LogTxn, k: nat, blocks: seq<Block>)
    requires geo.Valid() && |ring| == geo.maxLen && geo.InRing(at.head) && k + |blocks| <= geo.Size() && blocks != []
    requires Holds(geo, ring, at, k, blocks)
    ensures ring[at.Slot(geo, k)] == blocks[0]
  {
    assert ring[at.Slot(geo, k + 0)] == blocks[0];
  }

  lemma ScanFromStep(
    geo: Geometry, ring: Ring, sequence: u32, pos: nat, consumed: nat, pos': nat, consumed': nat, txn: Txn,
    rest: seq<Txn>)
    requires geo.Valid() && |ring| == geo.maxLen && geo.InRing(pos) && geo.InRing(pos')
    requires consumed <= geo.Size() && consumed < consumed' <= geo.Size()
    requires ScanTxn(geo, ring, sequence, pos, consumed, NO_TXN, false) == Complete(pos', consumed', txn)
    requires consumed' >= geo.Size() ==> rest == []
    requires consumed' < geo.Size() ==>
               pos' != pos && ScanFrom(geo, ring, NextSequence(sequence), pos', consumed') == Ok(rest)
    ensures ScanFrom(geo, ring, sequence, pos, consumed) == Ok([txn] + rest)
  {
    hide ScanTxn;
    if consumed' >= geo.Size() {
      assert [txn] + rest == [txn];
    }
  }

  /** The scan finds exactly the transactions that are there. */
  lemma {:induction false} ScanHistory(geo: Geometry, ring: Ring, sequence: u32, head: nat, k: nat, txs: History)
    requires geo.Valid() && |ring| == geo.maxLen && geo.InRing(head) && k < geo.Size() && HistoryFits(geo, txs)
    requires LogHolds(geo, ring, sequence, head, k, txs)
    ensures geo.InRing(From(sequence, head).Slot(geo, k))
    ensures ScanFrom(geo, ring, sequence, From(sequence, head).Slot(geo, k), k) == Ok(TxnsOf(geo, sequence, txs))
    decreases |txs|
  {
    hide *;
    var at := From(sequence, head);
    HeadIs(sequence, head);
    SlotInRing(geo, at, k);
    if txs == [] {
      LogEnds(geo, ring, sequence, head, k);
    } else {
      LogSplits(geo, ring, sequence, head, k, txs);
      var n := |PartsBlocks(geo, sequence, txs[0])|;
      var txn := PartsTxn(geo, sequence, txs[0]);
      ScanParts(geo, ring, sequence, head, txs[0], k, NO_TXN);
      JoinAssociates(txn, NO_TXN, NO_TXN);
      SlotInRing(geo, at, k + n);
      ScanTxnAtCommit(geo, ring, sequence, at.Slot(geo, k + n), k + n, txn);
      TxnsOfStep(geo, sequence, txs);
      LogRest(geo, ring, sequence, head, k, n, txs);
      if k + n + 1 < geo.Size() {
        ScanHistory(geo, ring, NextSequence(sequence), head, k + n + 1, txs[1..]);
      }
      ScanFromStep(geo, ring, sequence, at.Slot(geo, k), k, at.Slot(geo, k + n + 1), k + n + 1, txn,
                   TxnsOf(geo, NextSequence(sequence), txs[1..]));
    }
  }

  lemma HeadIs(sequence: u32, head: nat)
    ensures From(sequence, head).head == head && From(sequence, head).sequence == sequence
  {
  }

  lemma LogEnds(geo: Geometry, ring: Ring, sequence: u32, head: nat, k: nat)
    requires geo.Valid() && |ring| == geo.maxLen && geo.InRing(head) && k < geo.Size()
    requires LogHolds(geo, ring, sequence, head, k, [])
    ensures geo.InRing(From(sequence, head).Slot(geo, k))
    ensures ScanFrom(geo, ring, sequence, From(sequence, head).Slot(geo, k), k) == Ok([])
    ensures TxnsOf(geo, sequence, []) == []
  {
    hide IsHeaderOf;
    SlotInRing(geo, From(sequence, head), k);
    assert SequenceAfter(sequence, 0) == sequence;
    ScanTxnStops(geo, ring, sequence, From(sequence, head).Slot(geo, k), k, NO_TXN, false);
  }

  lemma LogRest(geo: Geometry, ring: Ring, sequence: u32, head: nat, k: nat, n: nat, txs: History)
    requires geo.Valid() && |ring| == geo.maxLen && geo.InRing(head) && k + n < geo.Size()
    requires HistoryFits(geo, txs) && txs != [] && HistoryFits(geo, txs[1..])
    requires LogHolds(geo, ring, NextSequence(sequence), head, k + n + 1, txs[1..])
    ensures k + n + 1 >= geo.Size() ==> TxnsOf(geo, NextSequence(sequence), txs[1..]) == []
    ensures var a, b := From(sequence, head).Slot(geo, k), From(sequence, head).Slot(geo, k + n + 1);
            && geo.InRing(a) && geo.InRing(b)
            && (k + n + 1 < geo.Size() ==> a != b)
            && b == From(NextSequence(sequence), head).Slot(geo, k + n + 1)
  {
    hide HistoryFits;
    RingAtInside(geo.first, geo.maxLen, head, k);
    RingAtInside(geo.first, geo.maxLen, head, k + n + 1);
  }

  // ---- What recovery leaves in a home ------------------------------------------------

  function EntriesOf(parts: seq<Part>): seq<Entry> {
    if parts == [] then []
    else (if parts[0].ImagePart? then parts[0].group else []) + EntriesOf(parts[1..])
  }

  /** The last image of `b` in one transaction. */
  function LastImage(entries: seq<Entry>, b: nat): Option<Block> {
    if entries == [] then None
    else if entries[|entries| - 1].home == b then Some(entries[|entries| - 1].image)
    else LastImage(entries[..|entries| - 1], b)
  }

  /** The last transaction with an image of `b`, and its last image of `b`. */
  function LastStaged(txs: History, b: nat): (r: Option<(nat, Block)>)
    ensures r.Some? ==> r.value.0 < |txs|
  {
    if txs == [] then None
    else
      match LastImage(EntriesOf(txs[|txs| - 1]), b)
      case Some(image) => Some((|txs| - 1, image))
      case None => LastStaged(txs[..|txs| - 1], b)
  }

  /** Does the transaction revoke `b`? */
  ghost predicate RevokedIn(parts: seq<Part>, b: nat) {
    exists p :: p in parts && p.RevokePart? && b in p.blocks
  }

  /** Transaction `i` or a later one revokes `b`. */
  ghost predicate RevokedFrom(txs: History, i: nat, b: nat) {
    exists m :: i <= m < |txs| && RevokedIn(txs[m], b)
  }

  /** The contents of home block `b` after recovery of the log. */
  ghost function HomeAfter(txs: History, b: nat, before: Block): Block {
    match LastStaged(txs, b)
    case None => before
    case Some((i, image)) => if RevokedFrom(txs, i, b) then before else image
  }

  /** Logged pairs that stand for entries, one by one. */
  ghost predicate StandsFor(logged: seq<Logged>, entries: seq<Entry>) {
    && |logged| == |entries|
    && forall i :: 0 <= i < |entries| ==>
         && logged[i].tag.block == entries[i].home
         && !DeletedFlag(logged[i].tag.flags)
         && Unescaped(logged[i].tag.flags, logged[i].data) == entries[i].image
  }

  lemma {:induction false} LastTagIsImage(logged: seq<Logged>, entries: seq<Entry>, b: nat)
    requires StandsFor(logged, entries)
    ensures var t, i := LastTagOf(logged, b), LastImage(entries, b);
            && (t.Some? <==> i.Some?)
            && (t.Some? ==> Unescaped(t.value.tag.flags, t.value.data) == i.value)
    decreases |entries|
  {
    hide Unescaped;
    hide DeletedFlag;
    if entries != [] {
      LastTagIsImage(logged[..|logged| - 1], entries[..|entries| - 1], b);
    }
  }

  lemma {:induction false} PartsStandFor(geo: Geometry, sequence: u32, parts: seq<Part>)
    requires PartsFit(geo, parts)
    ensures StandsFor(PartsTxn(geo, sequence, parts).logged, EntriesOf(parts))
    decreases |parts|
  {
    hide PartFits;
    hide Unescaped;
    hide LoggedGroup;
    hide RevokeBlock;
    hide DeletedFlag;
    if parts != [] {
      PartsStandFor(geo, sequence, parts[1..]);
      if parts[0].ImagePart? {
        LoggedGroupAt(geo.fmt, sequence, parts[0].group);
      }
    }
  }

  lemma {:induction false} PartsAvoid(geo: Geometry, sequence: u32, parts: seq<Part>)
    requires PartsFit(geo, parts)
    ensures AllAvoid(geo, PartsTxn(geo, sequence, parts).logged)
    decreases |parts|
  {
    hide FitsDescriptor;
    hide GroupEncodable;
    hide RevokeFits;
    hide RevokeBlock;
    hide LoggedGroup;
    hide DeletedFlag;
    if parts != [] {
      PartsAvoid(geo, sequence, parts[1..]);
      if parts[0].ImagePart? {
        LoggedGroupAt(geo.fmt, sequence, parts[0].group);
        var logged := LoggedGroup(geo.fmt, sequence, parts[0].group);
        forall l | l in logged
          ensures TagAvoids(geo, l)
        {
          var i :| 0 <= i < |logged| && logged[i] == l;
          assert parts[0].group[i] in parts[0].group;
        }
      }
    }
  }

  /** The revoke blocks of a transaction list what its parts list, and recovery
      accepts them. */
  ghost predicate ListedIn(wide: bool, raws: seq<Block>, b: nat) {
    exists raw :: raw in raws && b in RevokedBlocks(wide, raw)
  }

  lemma ListedStep(wide: bool, raw: Block, rest: seq<Block>, b: nat)
    ensures ListedIn(wide, [raw] + rest, b) <==> b in RevokedBlocks(wide, raw) || ListedIn(wide, rest, b)
  {
    hide RevokedBlocks;
    assert raw in [raw] + rest;
  }

  lemma RevokedInStep(parts: seq<Part>, b: nat)
    requires parts != []
    ensures RevokedIn(parts, b) <==> (parts[0].RevokePart? && b in parts[0].blocks) || RevokedIn(parts[1..], b)
  {
    assert parts == [parts[0]] + parts[1..];
  }

  lemma TxnRevokesStep(geo: Geometry, sequence: u32, raw: Block, rest: seq<Block>, blocks: seq<nat>)
    requires ParseRevokeRecords(geo.fmt.features, raw, sequence, geo.targetBlocks) == Ok(blocks)
    requires forall b :: b in blocks ==> b !in geo.journal
    requires TxnRevokes(geo, sequence, rest).Ok?
    ensures TxnRevokes(geo, sequence, [raw] + rest).Ok?
  {
    hide ParseRevokeRecords;
    assert ([raw] + rest)[1..] == rest;
  }

  lemma {:induction false} PartsRevoke(geo: Geometry, sequence: u32, parts: seq<Part>, b: nat)
    requires PartsFit(geo, parts)
    ensures ListedIn(geo.fmt.features.has64bit, PartsTxn(geo, sequence, parts).revokes, b) <==> RevokedIn(parts, b)
    ensures TxnRevokes(geo, sequence, PartsTxn(geo, sequence, parts).revokes).Ok?
    decreases |parts|
  {
    if parts != [] {
      hide ListedIn;
      hide RevokedIn;
      hide RevokedBlocks;
      hide ParseRevokeRecords;
      hide TxnRevokes;
      hide RevokeBlock;
      hide RevokeFits;
      hide LoggedGroup;
      hide FitsDescriptor;
      hide GroupEncodable;
      hide HomesAvoid;
      PartsRevoke(geo, sequence, parts[1..], b);
      RevokedInStep(parts, b);
      var rest := PartsTxn(geo, sequence, parts[1..]).revokes;
      if parts[0].RevokePart? {
        var raw := RevokeBlock(geo.fmt, sequence, parts[0].blocks);
        RevokeRoundTrip(geo.fmt, sequence, parts[0].blocks, geo.targetBlocks);
        ListedStep(geo.fmt.features.has64bit, raw, rest, b);
        TxnRevokesStep(geo, sequence, raw, rest, parts[0].blocks);
      } else {
        assert [] + rest == rest;
      }
    }
  }

  lemma {:induction false} LastTagIsStaged(geo: Geometry, sequence: u32, txs: History, n: nat, b: nat)
    requires HistoryFits(geo, txs) && n <= |txs|
    ensures var t, s := LastTag(TxnsOf(geo, sequence, txs)[..n], b), LastStaged(txs[..n], b);
            && (t.Some? <==> s.Some?)
            && (t.Some? ==> t.value.0 == s.value.0
                            && Unescaped(t.value.1.tag.flags, t.value.1.data) == s.value.1)
    decreases n
  {
    hide Unescaped;
    hide PartsTxn;
    hide EntriesOf;
    hide PartsFit;
    hide LastTagOf;
    hide LastImage;
    hide SequenceAfter;
    if n > 0 {
      var txns := TxnsOf(geo, sequence, txs);
      LastTagIsStaged(geo, sequence, txs, n - 1, b);
      assert txns[..n][..n - 1] == txns[..n - 1] && txs[..n][..n - 1] == txs[..n - 1];
      PartsStandFor(geo, SequenceAfter(sequence, n - 1), txs[n - 1]);
      LastTagIsImage(txns[n - 1].logged, EntriesOf(txs[n - 1]), b);
    }
  }

  lemma CoveredIsRevoked(geo: Geometry, sequence: u32, txs: History, i: nat, b: nat)
    requires HistoryFits(geo, txs)
    ensures CoveredFrom(geo, TxnsOf(geo, sequence, txs), i, b) <==> RevokedFrom(txs, i, b)
  {
    hide PartsTxn;
    hide PartsFit;
    hide RevokedBlocks;
    hide SequenceAfter;
    var txns := TxnsOf(geo, sequence, txs);
    forall m | 0 <= m < |txs|
      ensures Revokes(geo, txns, m, b) <==> RevokedIn(txs[m], b)
    {
      PartsRevoke(geo, SequenceAfter(sequence, m), txs[m], b);
    }
  }

  lemma {:induction false} RevokePassAccepts(geo: Geometry, sequence: u32, txs: History, table: RevokeTable)
    requires HistoryFits(geo, txs)
    ensures RevokePass(geo, sequence, TxnsOf(geo, sequence, txs), table).Ok?
    decreases |txs|
  {
    hide PartsTxn;
    hide PartsFit;
    hide TxnRevokes;
    hide RevokeMany;
    hide TxnsOf;
    if txs == [] {
      assert TxnsOf(geo, sequence, txs) == [];
    } else {
      TxnsOfStep(geo, sequence, txs);
      PartsRevoke(geo, sequence, txs[0], 0);
      var txns := TxnsOf(geo, sequence, txs);
      assert txns[1..] == TxnsOf(geo, NextSequence(sequence), txs[1..]);
      var records := TxnRevokes(geo, sequence, txns[0].revokes).value;
      RevokePassAccepts(geo, NextSequence(sequence), txs[1..], RevokeMany(table, records, sequence));
    }
  }

  lemma HistoryAvoids(geo: Geometry, sequence: u32, txs: History)
    requires HistoryFits(geo, txs)
    ensures LogAvoids(geo, TxnsOf(geo, sequence, txs))
  {
    hide PartsTxn;
    hide PartsFit;
    hide AllAvoid;
    hide EntriesOf;
    hide SequenceAfter;
    var txns := TxnsOf(geo, sequence, txs);
    forall t | t in txns
      ensures AllAvoid(geo, t.logged)
    {
      var i :| 0 <= i < |txns| && txns[i] == t;
      PartsAvoid(geo, SequenceAfter(sequence, i), txs[i]);
    }
  }

  /** The three passes over the log: the table is built, and every home ends up
      with its last image that no revoke makes void. */
  lemma PlanHistory(geo: Geometry, ring: Ring, image: Image, sequence: u32, head: nat, txs: History, b: nat)
    requires geo.Valid() && |ring| == geo.maxLen && geo.InRing(head) && HistoryFits(geo, txs)
    requires LogHolds(geo, ring, sequence, head, 0, txs) && |txs| < 0x8000_0000
    requires geo.targetBlocks <= |image| && b < |image|
    ensures var r := Plan(geo, ring, sequence, head);
            r.Ok? && r.value.0 == |txs| && Apply(image, r.value.1)[b] == HomeAfter(txs, b, image[b])
  {
    hide *;
    HeadIs(sequence, head);
    var txns := TxnsOf(geo, sequence, txs);
    SlotZero(geo, From(sequence, head));
    RingNotEmpty(geo);
    ScanHistory(geo, ring, sequence, head, 0, txs);
    RevokePassAccepts(geo, sequence, txs, map[]);
    HistoryAvoids(geo, sequence, txs);
    var table := RevokePass(geo, sequence, txns, map[]).value;
    PlanIs(geo, ring, sequence, head, txns, table);
    ReplayInRange(geo, ring, sequence, head, txns, table);
    ReplayGivesLastCommitted(geo, sequence, txns, table, image, b);
    LastTagIsStaged(geo, sequence, txs, |txs|, b);
    assert txns[..|txs|] == txns && txs[..|txs|] == txs;
    var t := LastTag(txns, b);
    if t.Some? {
      CoveredIsRevoked(geo, sequence, txs, t.value.0, b);
    }
    HomeAfterIs(txs, b, image[b]);
  }

  lemma HomeAfterIs(txs: History, b: nat, before: Block)
    ensures var s := LastStaged(txs, b);
            HomeAfter(txs, b, before)
            == if s.None? || RevokedFrom(txs, s.value.0, b) then before else s.value.1
  {
  }

  lemma RingNotEmpty(geo: Geometry)
    requires geo.Valid()
    ensures geo.Size() > 0
  {
  }

  lemma PlanIs(geo: Geometry, ring: Ring, sequence: u32, head: nat, txns: seq<Txn>, table: RevokeTable)
    requires geo.Valid() && |ring| == geo.maxLen && geo.InRing(head)
    requires ScanFrom(geo, ring, sequence, head, 0) == Ok(txns)
    requires RevokePass(geo, sequence, txns, map[]) == Ok(table) && LogAvoids(geo, txns)
    ensures Plan(geo, ring, sequence, head) == Ok((|txns|, ReplayPass(table, sequence, txns)))
  {
    hide ScanFrom;
    hide RevokePass;
    hide LogAvoids;
    hide ReplayPass;
  }

  lemma ReplayInRange(geo: Geometry, ring: Ring, sequence: u32, head: nat, txns: seq<Txn>, table: RevokeTable)
    requires geo.Valid() && |ring| == geo.maxLen && geo.InRing(head)
    requires Plan(geo, ring, sequence, head) == Ok((|txns|, ReplayPass(table, sequence, txns)))
    ensures forall w :: w in ReplayPass(table, sequence, txns) ==> w.block < geo.targetBlocks && w.block !in geo.journal
  {
    hide ScanFrom;
    hide RevokePass;
    hide LogAvoids;
    hide ReplayPass;
  }

  /** Recovery of any log.  Each home block ends with the last image that the
      log holds of it, unless that transaction or a later one revokes the
      block: then no image of it is written at all.  The journal is clean, two
      sequence numbers past the last transaction. */
  lemma RecoverHistory(j: Journal, image: Image, sequence: u32, head: nat, txs: History, b: nat)
    requires j.Valid() && |image| == j.deviceBlocks && b < |image| && b !in j.geo.journal
    requires j.PointsTo(image[j.SuperblockId()], sequence, head) && j.geo.InRing(head)
    requires HistoryFits(j.geo, txs) && |txs| < 0x8000_0000
    requires LogHolds(j.geo, j.RingOf(image), sequence, head, 0, txs)
    ensures j.Recover(image).Ok?
    ensures j.Recover(image).value[b] == HomeAfter(txs, b, image[b])
    ensures j.PointsTo(j.Recover(image).value[j.SuperblockId()], SequenceAfter(sequence, |txs| + 1), 0)
  {
    hide ParseSuperblock;
    hide UpdateSuperblock;
    hide Plan;
    hide Apply;
    hide HomeAfter;
    hide LogHolds;
    hide HistoryFits;
    hide SequenceAfter;
    var raw := image[j.SuperblockId()];
    var sb := ParseSuperblock(j.geo.fmt.crc, raw).value;
    PlanHistory(j.geo, j.RingOf(image), image, sequence, head, txs, b);
    SuperblockRoundTrip(j.geo.fmt.crc, raw, SequenceAfter(sequence, |txs| + 1), 0);
    assert j.mapping[0] in j.geo.journal;
  }
}
