/** Device images seen by recovery: what recovering an image yields, and the
    three kinds of image a journal leaves behind. */
module JournalImage {
  import opened Bytes
  import opened BlockStore
  import opened Jbd2
  import opened LogTags
  import opened JournalLog
  import opened JournalReplay
  import opened JournalRoundTrip

  /** A journal on a device: `mapping[n]` is the physical block of journal
      logical block `n`; entry zero is the journal superblock. */
  datatype Journal = Journal(geo: Geometry, mapping: seq<nat>, deviceBlocks: nat)
  {
    ghost predicate Valid() {
      && geo.Valid()
      && |mapping| == geo.maxLen
      && (forall i, j :: 0 <= i < j < |mapping| ==> mapping[i] != mapping[j])
      && (forall i :: 0 <= i < |mapping| ==> mapping[i] < deviceBlocks)
      && (forall b :: b in geo.journal <==> b in mapping)
      && geo.targetBlocks <= deviceBlocks
    }

    /** The geometry this superblock describes is ours. */
    predicate Matches(sb: Superblock) {
      sb.maxLen == geo.maxLen && sb.first == geo.first && sb.features == geo.fmt.features && sb.uuid == geo.fmt.uuid
    }

    /** The block parses to our superblock with this tail pointer. */
    predicate PointsTo(b: Block, sequence: nat, start: nat) {
      var r := ParseSuperblock(geo.fmt.crc, b);
      r.Ok? && Matches(r.value) && r.value.sequence == sequence && r.value.start == start
    }

    function RingOf(image: Image): (r: Ring)
      requires Valid() && |image| == deviceBlocks
      ensures |r| == geo.maxLen
    {
      seq(|mapping|, i requires 0 <= i < |mapping| => image[mapping[i]])
    }

    function SuperblockId(): (b: nat)
      requires Valid()
      ensures b < deviceBlocks
    {
      mapping[0]
    }

    /** The whole of recovery on an intact device. */
    function Recover(image: Image): (r: Result<Image>)
      requires Valid() && |image| == deviceBlocks
      ensures r.Ok? ==> |r.value| == deviceBlocks
    {
      var raw := image[SuperblockId()];
      match ParseSuperblock(geo.fmt.crc, raw)
      case Err(e) => Err(e)
      case Ok(sb) =>
        if !Matches(sb) then Err(EIO)
        else if sb.start == 0 then Ok(image)
        else
          match Plan(geo, RingOf(image), sb.sequence, sb.start)
          case Err(e) => Err(e)
          case Ok((count, writes)) =>
            Ok(Apply(image, writes)[SuperblockId() := CleanBlock(raw, sb, count)])
    }

    /** The superblock that recovery writes after `count` transactions. */
    function CleanBlock(raw: Block, sb: Superblock, count: nat): Block {
      UpdateSuperblock(geo.fmt.crc, raw, SequenceAfter(sb.sequence, count + 1), 0, sb.features.v3)
    }

    /** Two images agree outside the journal. */
    ghost predicate SameHomes(a: Image, b: Image) {
      |a| == |b| && forall k :: 0 <= k < |a| && k !in geo.journal ==> a[k] == b[k]
    }

    // ---- A transaction of this journal ---------------------------------------

    ghost predicate Logs(tx: LogTxn) {
      && tx.Fits(geo)
      && tx.entries != []
      && HomesAvoid(geo, tx.entries)
      && (forall i, j :: 0 <= i < j < |tx.entries| ==> tx.entries[i].home < tx.entries[j].home)
      && tx.sequence + 2 < U32_LIMIT
    }

    // ---- The three kinds of image --------------------------------------------

    /** A clean journal: nothing to replay, and nothing in the ring that a
        later scan could take for a transaction. */
    ghost predicate Idle(image: Image, sequence: nat, homes: Image)
      requires Valid()
    {
      && |image| == deviceBlocks
      && PointsTo(image[SuperblockId()], sequence, 0)
      && StaleRing(geo, RingOf(image), sequence)
      && SameHomes(image, homes)
    }

    /** The tail points at a transaction whose commit block is missing. */
    ghost predicate Torn(image: Image, tx: LogTxn, homes: Image)
      requires Valid() && Logs(tx)
    {
      && |image| == deviceBlocks
      && PointsTo(image[SuperblockId()], tx.sequence, tx.head)
      && TornLog(geo, RingOf(image), tx)
      && SameHomes(image, homes)
    }

    /** Every home block holds its old contents or its new contents. */
    ghost predicate Between(image: Image, old_: Image, new_: Image) {
      && |image| == |old_| == |new_|
      && forall k :: 0 <= k < |image| && k !in geo.journal ==> image[k] == old_[k] || image[k] == new_[k]
    }

    /** The tail points at a committed transaction; the homes may be anywhere
        between before and after it. */
    ghost predicate Full(image: Image, tx: LogTxn, homes: Image)
      requires Valid() && Logs(tx) && |homes| == deviceBlocks
    {
      && |image| == deviceBlocks
      && PointsTo(image[SuperblockId()], tx.sequence, tx.head)
      && FullLog(geo, RingOf(image), tx)
      && Between(image, homes, After(homes, tx))
    }

    ghost function After(homes: Image, tx: LogTxn): (r: Image)
      requires Valid() && Logs(tx) && |homes| == deviceBlocks
      ensures |r| == |homes|
    {
      CommitEntries(homes, tx.entries)
    }

    lemma HomesInRange(tx: LogTxn)
      requires Valid() && Logs(tx)
      ensures forall e :: e in tx.entries ==> e.home < deviceBlocks && e.home !in geo.journal
    {
    }
  }

  /** The homes once `entries` are checkpointed. */
  ghost function CommitEntries(homes: Image, entries: seq<Entry>): (r: Image)
    ensures |r| == |homes|
  {
    if forall e :: e in entries ==> e.home < |homes| then Apply(homes, WritesOf(entries)) else homes
  }

  // ---- Recovering each kind ---------------------------------------------------

  lemma RecoverIdle(j: Journal, image: Image, sequence: nat, homes: Image)
    requires j.Valid() && j.Idle(image, sequence, homes)
    ensures j.Recover(image) == Ok(image)
  {
  }

  /** Writes to homes leave the journal alone. */
  lemma ApplyKeepsJournal(j: Journal, image: Image, writes: seq<Write>)
    requires j.Valid() && |image| == j.deviceBlocks
    requires forall w :: w in writes ==> w.block < |image| && w.block !in j.geo.journal
    ensures Apply(image, writes)[j.SuperblockId()] == image[j.SuperblockId()]
    ensures j.RingOf(Apply(image, writes)) == j.RingOf(image)
  {
    var after := Apply(image, writes);
    forall i | 0 <= i < |j.mapping|
      ensures after[j.mapping[i]] == image[j.mapping[i]]
    {
      assert j.mapping[i] in j.geo.journal;
      ApplyElsewhere(image, writes, j.mapping[i]);
    }
    assert j.RingOf(after) == j.RingOf(image);
  }

  /** A new superblock leaves the data ring and the homes alone. */
  lemma SuperblockWriteFrame(j: Journal, image: Image, b: Block)
    requires j.Valid() && |image| == j.deviceBlocks
    ensures var after := image[j.SuperblockId() := b];
            && (forall pos :: j.geo.InRing(pos) ==> j.RingOf(after)[pos] == j.RingOf(image)[pos])
            && j.SameHomes(after, image)
  {
    var after := image[j.SuperblockId() := b];
    assert j.mapping[0] in j.geo.journal;
    forall pos | j.geo.InRing(pos)
      ensures j.RingOf(after)[pos] == j.RingOf(image)[pos]
    {
      assert j.mapping[pos] != j.mapping[0];
    }
  }

  lemma StaleRingFrame(j: Journal, a: Ring, b: Ring, limit: nat, limit': nat)
    requires j.geo.Valid() && |a| == |b| == j.geo.maxLen && limit <= limit'
    requires forall pos :: j.geo.InRing(pos) ==> b[pos] == a[pos]
    requires StaleRing(j.geo, a, limit)
    ensures StaleRing(j.geo, b, limit')
  {
  }

  /** Nothing that transaction `s` logs is mistaken for a later transaction. */
  lemma {:induction false} PayloadIsStale(fmt: Format, s: u32, entries: seq<Entry>, i: nat)
    requires i < |LogBlocks(fmt, s, entries)|
    ensures StaleBlock(LogBlocks(fmt, s, entries)[i], s + 1)
    decreases |entries|
  {
    hide DescriptorBlock;
    hide Escaped;
    if entries != [] {
      var group := FirstGroup(fmt.features, entries);
      if i == 0 {
        DescriptorHeader(fmt, s, group);
      } else if i <= |group| {
        assert LogBlocks(fmt, s, entries)[i] == EscapedImages(group)[i - 1];
        EscapedIsNoHeader(group[i - 1].image);
      } else {
        PayloadIsStale(fmt, s, entries[|group|..], i - 1 - |group|);
      }
    }
  }

  lemma DescriptorHeader(fmt: Format, s: u32, group: seq<Entry>)
    requires FitsDescriptor(fmt.features, group)
    ensures ParseHeader(DescriptorBlock(fmt, s, group)) == Ok(Header(Descriptor, s))
  {
    hide *;
    var d := DescriptorBlock(fmt, s, group);
    DescriptorShape(fmt, s, group);
    PrefixHeader(fmt, s, group, |group|);
    assert d[..HEADER_BYTES] == DescriptorPrefix(fmt, s, group, |group|)[..HEADER_BYTES];
    HeaderRoundTrip(d, Header(Descriptor, s));
  }

  lemma CommitIsStale(fmt: Format, s: u32)
    ensures StaleBlock(CommitBlock(fmt, s), s + 1)
  {
    hide CommitBlock;
    CommitRoundTrip(fmt, s);
  }

  /** After a torn or a complete transaction the ring is stale for every
      sequence that recovery may hand out next. */
  lemma LogIsStale(j: Journal, ring: Ring, tx: LogTxn)
    requires j.Valid() && j.Logs(tx) && |ring| == j.geo.maxLen
    requires TornLog(j.geo, ring, tx) || FullLog(j.geo, ring, tx)
    ensures StaleRing(j.geo, ring, tx.sequence + 1)
  {
    hide LogBlocks;
    hide CommitBlock;
    var blocks := tx.Blocks(j.geo.fmt);
    forall pos | j.geo.InRing(pos)
      ensures StaleBlock(ring[pos], tx.sequence + 1)
    {
      if i :| 0 <= i < tx.Needed(j.geo.fmt) && pos == tx.Slot(j.geo, i) {
        SlotIsStale(j, ring, tx, i);
      }
    }
  }

  lemma SlotIsStale(j: Journal, ring: Ring, tx: LogTxn, i: nat)
    requires j.Valid() && j.Logs(tx) && |ring| == j.geo.maxLen
    requires TornLog(j.geo, ring, tx) || FullLog(j.geo, ring, tx)
    requires i < tx.Needed(j.geo.fmt)
    ensures StaleBlock(ring[tx.Slot(j.geo, i)], tx.sequence + 1)
  {
    hide LogBlocks;
    hide CommitBlock;
    var blocks := tx.Blocks(j.geo.fmt);
    if i < |blocks| {
      PayloadIsStale(j.geo.fmt, tx.sequence, tx.entries, i);
    } else {
      CommitIsStale(j.geo.fmt, tx.sequence);
    }
    if FullLog(j.geo, ring, tx) {
      assert ring[tx.Slot(j.geo, 0 + i)] == (blocks + [CommitBlock(j.geo.fmt, tx.sequence)])[i];
    } else if i < |blocks| {
      assert ring[tx.Slot(j.geo, 0 + i)] == blocks[i] || StaleBlock(ring[tx.Slot(j.geo, 0 + i)], tx.sequence);
    }
  }

  /** The superblock of recovery: the sequence moves past the last transaction
      and the journal is marked clean. */
  lemma CleanBlockPoints(j: Journal, raw: Block, sequence: nat, start: nat, count: nat)
    requires j.Valid() && j.PointsTo(raw, sequence, start) && sequence + count + 1 < U32_LIMIT
    ensures j.PointsTo(j.CleanBlock(raw, ParseSuperblock(j.geo.fmt.crc, raw).value, count), sequence + count + 1, 0)
  {
    hide UpdateSuperblock;
    hide ParseSuperblock;
    SuperblockRoundTrip(j.geo.fmt.crc, raw, sequence + count + 1, 0);
  }

  lemma {:induction false} ApplyDecides(a: Image, b: Image, writes: seq<Write>, k: nat)
    requires |a| == |b| && k < |a|
    requires forall w :: w in writes ==> w.block < |a|
    requires a[k] == b[k] || exists w :: w in writes && w.block == k
    ensures Apply(a, writes)[k] == Apply(b, writes)[k]
    decreases |writes|
  {
    if writes != [] {
      var n := |writes| - 1;
      if writes[n].block != k {
        if w :| w in writes && w.block == k {
          assert w in writes[..n];
        }
        ApplyDecides(a, b, writes[..n], k);
      }
    }
  }

  /** Replaying over a partly checkpointed image completes the checkpoint. */
  lemma ReplayCompletes(j: Journal, image: Image, tx: LogTxn, homes: Image)
    requires j.Valid() && j.Logs(tx) && |homes| == j.deviceBlocks
    requires j.Between(image, homes, j.After(homes, tx))
    requires forall e :: e in tx.entries ==> e.home < j.deviceBlocks
    ensures j.SameHomes(Apply(image, WritesOf(tx.entries)), j.After(homes, tx))
  {
    var writes := WritesOf(tx.entries);
    forall k | 0 <= k < |image| && k !in j.geo.journal
      ensures Apply(image, writes)[k] == Apply(homes, writes)[k]
    {
      if forall w :: w in writes ==> w.block != k {
        ApplyElsewhere(homes, writes, k);
        assert image[k] == homes[k];
      }
      ApplyDecides(image, homes, writes, k);
    }
  }

  lemma RecoverUnfolds(j: Journal, image: Image, sequence: nat, start: nat, count: nat, writes: seq<Write>)
    requires j.Valid() && |image| == j.deviceBlocks
    requires j.PointsTo(image[j.SuperblockId()], sequence, start)
    requires j.geo.InRing(start) && sequence < U32_LIMIT
    requires Plan(j.geo, j.RingOf(image), sequence, start) == Ok((count, writes))
    ensures forall w :: w in writes ==> w.block < |image| && w.block !in j.geo.journal
    ensures var raw := image[j.SuperblockId()];
            var clean := j.CleanBlock(raw, ParseSuperblock(j.geo.fmt.crc, raw).value, count);
            j.Recover(image) == Ok(Apply(image, writes)[j.SuperblockId() := clean])
  {
    hide ParseSuperblock;
    hide UpdateSuperblock;
    hide Plan;
    hide Apply;
  }

  /** A clean superblock over a stale ring makes an idle journal. */
  lemma IdleAfter(j: Journal, image: Image, clean: Block, limit: nat, sequence: nat, homes: Image)
    requires j.Valid() && |image| == j.deviceBlocks
    requires j.PointsTo(clean, sequence, 0) && limit <= sequence
    requires StaleRing(j.geo, j.RingOf(image), limit) && j.SameHomes(image, homes)
    ensures j.Idle(image[j.SuperblockId() := clean], sequence, homes)
  {
    hide StaleBlock;
    SuperblockWriteFrame(j, image, clean);
    StaleRingFrame(j, j.RingOf(image), j.RingOf(image[j.SuperblockId() := clean]), limit, sequence);
  }

  /** Recovery of a torn transaction drops it. */
  lemma RecoverTorn(j: Journal, image: Image, tx: LogTxn, homes: Image)
    requires j.Valid() && j.Logs(tx) && j.Torn(image, tx, homes)
    ensures j.Recover(image).Ok? && j.Idle(j.Recover(image).value, tx.sequence + 1, homes)
  {
    hide *;
    TornFacts(j, image, tx, homes);
    var raw := image[j.SuperblockId()];
    PlanTorn(j.geo, j.RingOf(image), tx);
    RecoverUnfolds(j, image, tx.sequence, tx.head, 0, []);
    ApplyNothing(image);
    CleanBlockPoints(j, raw, tx.sequence, tx.head, 0);
    LogIsStale(j, j.RingOf(image), tx);
    IdleAfter(j, image, j.CleanBlock(raw, ParseSuperblock(j.geo.fmt.crc, raw).value, 0),
              tx.sequence + 1, tx.sequence + 1, homes);
  }

  lemma ApplyNothing(image: Image)
    ensures Apply(image, []) == image
  {
  }

  lemma TornFacts(j: Journal, image: Image, tx: LogTxn, homes: Image)
    requires j.Valid() && j.Logs(tx) && j.Torn(image, tx, homes)
    ensures |image| == j.deviceBlocks && tx.Fits(j.geo) && j.geo.Valid() && j.geo.InRing(tx.head)
    ensures j.PointsTo(image[j.SuperblockId()], tx.sequence, tx.head) && tx.sequence + 2 < U32_LIMIT
    ensures TornLog(j.geo, j.RingOf(image), tx) && j.SameHomes(image, homes)
  {
  }

  lemma FullFacts(j: Journal, image: Image, tx: LogTxn, homes: Image)
    requires j.Valid() && j.Logs(tx) && |homes| == j.deviceBlocks && j.Full(image, tx, homes)
    ensures |image| == j.deviceBlocks && tx.Fits(j.geo) && j.geo.Valid() && j.geo.InRing(tx.head)
    ensures j.PointsTo(image[j.SuperblockId()], tx.sequence, tx.head) && tx.sequence + 2 < U32_LIMIT
    ensures FullLog(j.geo, j.RingOf(image), tx) && j.Between(image, homes, j.After(homes, tx))
    ensures HomesAvoid(j.geo, tx.entries)
  {
  }

  /** Recovery of a committed transaction completes it. */
  lemma RecoverFull(j: Journal, image: Image, tx: LogTxn, homes: Image)
    requires j.Valid() && j.Logs(tx) && |homes| == j.deviceBlocks && j.Full(image, tx, homes)
    ensures j.Recover(image).Ok? && j.Idle(j.Recover(image).value, tx.sequence + 2, j.After(homes, tx))
  {
    hide *;
    FullFacts(j, image, tx, homes);
    var raw := image[j.SuperblockId()];
    var writes := WritesOf(tx.entries);
    PlanFull(j.geo, j.RingOf(image), tx);
    RecoverUnfolds(j, image, tx.sequence, tx.head, 1, writes);
    CleanBlockPoints(j, raw, tx.sequence, tx.head, 1);
    j.HomesInRange(tx);
    var replayed := Apply(image, writes);
    ApplyKeepsJournal(j, image, writes);
    ReplayCompletes(j, image, tx, homes);
    LogIsStale(j, j.RingOf(image), tx);
    IdleAfter(j, replayed, j.CleanBlock(raw, ParseSuperblock(j.geo.fmt.crc, raw).value, 1),
              tx.sequence + 1, tx.sequence + 2, j.After(homes, tx));
  }

  // ---- How single writes move between the kinds --------------------------------

  /** Writing journal block `pos` changes that ring slot and nothing else. */
  lemma RingWrite(j: Journal, image: Image, pos: nat, b: Block)
    requires j.Valid() && |image| == j.deviceBlocks && pos < j.geo.maxLen
    ensures j.RingOf(image[j.mapping[pos] := b]) == j.RingOf(image)[pos := b]
    ensures j.SameHomes(image[j.mapping[pos] := b], image)
    ensures pos != 0 ==> image[j.mapping[pos] := b][j.SuperblockId()] == image[j.SuperblockId()]
  {
    var after := image[j.mapping[pos] := b];
    assert j.mapping[pos] in j.geo.journal;
    forall i | 0 <= i < |j.mapping|
      ensures j.RingOf(after)[i] == j.RingOf(image)[pos := b][i]
    {
      if i != pos {
        assert j.mapping[i] != j.mapping[pos];
      }
    }
  }

  /** Writing a home changes nothing of the journal. */
  lemma HomeWriteFrame(j: Journal, image: Image, home: nat, b: Block)
    requires j.Valid() && |image| == j.deviceBlocks && home < |image| && home !in j.geo.journal
    ensures j.RingOf(image[home := b]) == j.RingOf(image)
    ensures image[home := b][j.SuperblockId()] == image[j.SuperblockId()]
  {
    forall i | 0 <= i < |j.mapping|
      ensures image[home := b][j.mapping[i]] == image[j.mapping[i]]
    {
      assert j.mapping[i] in j.geo.journal;
    }
    assert j.RingOf(image[home := b]) == j.RingOf(image);
  }

  /** The active superblock over a clean journal announces a torn transaction. */
  lemma TailWrite(j: Journal, image: Image, tx: LogTxn, homes: Image, b: Block)
    requires j.Valid() && j.Logs(tx) && j.Idle(image, tx.sequence, homes)
    requires j.PointsTo(b, tx.sequence, tx.head)
    ensures j.Torn(image[j.SuperblockId() := b], tx, homes)
  {
    hide StaleBlock;
    hide LogBlocks;
    SuperblockWriteFrame(j, image, b);
    var ring := j.RingOf(image[j.SuperblockId() := b]);
    StaleRingFrame(j, j.RingOf(image), ring, tx.sequence, tx.sequence);
    StaleRingIsTorn(j, ring, tx);
  }

  lemma StaleRingIsTorn(j: Journal, ring: Ring, tx: LogTxn)
    requires j.Valid() && j.Logs(tx) && |ring| == j.geo.maxLen && StaleRing(j.geo, ring, tx.sequence)
    ensures TornLog(j.geo, ring, tx)
  {
    hide StaleBlock;
    hide LogBlocks;
    forall i | 0 <= i < tx.Needed(j.geo.fmt)
      ensures StaleBlock(ring[tx.Slot(j.geo, i)], tx.sequence)
    {
      SlotInRing(j.geo, tx, i);
    }
  }

  lemma StaleOutsideFrame(geo: Geometry, a: Ring, b: Ring, tx: LogTxn, i: nat)
    requires tx.Fits(geo) && |a| == |b| == geo.maxLen && i < tx.Needed(geo.fmt)
    requires forall pos :: geo.InRing(pos) && pos != tx.Slot(geo, i) ==> b[pos] == a[pos]
    requires StaleOutside(geo, a, tx)
    ensures StaleOutside(geo, b, tx)
  {
    hide StaleBlock;
    hide LogBlocks;
  }

  lemma SlotsDiffer(geo: Geometry, tx: LogTxn, a: nat, b: nat)
    requires tx.Fits(geo) && a < tx.Needed(geo.fmt) && b < tx.Needed(geo.fmt) && a != b
    ensures tx.Slot(geo, a) != tx.Slot(geo, b)
  {
    hide LogBlocks;
  }

  /** A payload block in its slot keeps the transaction torn. */
  lemma PayloadWrite(j: Journal, image: Image, tx: LogTxn, homes: Image, i: nat)
    requires j.Valid() && j.Logs(tx) && j.Torn(image, tx, homes) && i < |tx.Blocks(j.geo.fmt)|
    ensures var after := image[j.mapping[tx.Slot(j.geo, i)] := tx.Blocks(j.geo.fmt)[i]];
            && j.Torn(after, tx, homes)
            && j.RingOf(after) == j.RingOf(image)[tx.Slot(j.geo, i) := tx.Blocks(j.geo.fmt)[i]]
  {
    hide StaleBlock;
    hide LogBlocks;
    hide ParseSuperblock;
    var blocks := tx.Blocks(j.geo.fmt);
    var pos := tx.Slot(j.geo, i);
    SlotInRing(j.geo, tx, i);
    RingWrite(j, image, pos, blocks[i]);
    var before, after := j.RingOf(image), j.RingOf(image[j.mapping[pos] := blocks[i]]);
    StaleOutsideFrame(j.geo, before, after, tx, i);
    forall k | 0 <= k < |blocks|
      ensures after[tx.Slot(j.geo, 0 + k)] == blocks[k] || StaleBlock(after[tx.Slot(j.geo, 0 + k)], tx.sequence)
    {
      if k != i {
        SlotsDiffer(j.geo, tx, k, i);
        assert before[tx.Slot(j.geo, 0 + k)] == blocks[k] || StaleBlock(before[tx.Slot(j.geo, 0 + k)], tx.sequence);
      }
    }
    SlotsDiffer(j.geo, tx, |blocks|, i);
  }

  /** The loaded part of the payload grows by one block. */
  lemma HoldsMore(geo: Geometry, ring: Ring, tx: LogTxn, i: nat)
    requires tx.Fits(geo) && |ring| == geo.maxLen && i < |tx.Blocks(geo.fmt)|
    requires Holds(geo, ring, tx, 0, tx.Blocks(geo.fmt)[..i])
    ensures Holds(geo, ring[tx.Slot(geo, i) := tx.Blocks(geo.fmt)[i]], tx, 0, tx.Blocks(geo.fmt)[..i + 1])
  {
    hide LogBlocks;
    var blocks := tx.Blocks(geo.fmt);
    var grown := blocks[..i + 1];
    var after := ring[tx.Slot(geo, i) := blocks[i]];
    forall k | 0 <= k < |grown|
      ensures after[tx.Slot(geo, 0 + k)] == grown[k]
    {
      if k != i {
        SlotsDiffer(geo, tx, k, i);
        assert ring[tx.Slot(geo, 0 + k)] == blocks[..i][k];
      }
    }
  }

  /** The commit record turns a loaded transaction into a committed one. */
  lemma CommitWrite(j: Journal, image: Image, tx: LogTxn, homes: Image)
    requires j.Valid() && j.Logs(tx) && j.Torn(image, tx, homes) && |homes| == j.deviceBlocks
    requires Holds(j.geo, j.RingOf(image), tx, 0, tx.Blocks(j.geo.fmt))
    ensures var after := image[j.mapping[tx.Slot(j.geo, |tx.Blocks(j.geo.fmt)|)] := CommitBlock(j.geo.fmt,
                tx.sequence)];
            j.Full(after, tx, homes) && j.SameHomes(after, homes)
  {
    hide StaleBlock;
    hide LogBlocks;
    hide ParseSuperblock;
    hide CommitBlock;
    hide CommitEntries;
    var blocks := tx.Blocks(j.geo.fmt);
    var n := |blocks|;
    var commit := CommitBlock(j.geo.fmt, tx.sequence);
    var pos := tx.Slot(j.geo, n);
    SlotInRing(j.geo, tx, n);
    RingWrite(j, image, pos, commit);
    var before, after := j.RingOf(image), j.RingOf(image[j.mapping[pos] := commit]);
    StaleOutsideFrame(j.geo, before, after, tx, n);
    forall k | 0 <= k < n + 1
      ensures after[tx.Slot(j.geo, 0 + k)] == (blocks + [commit])[k]
    {
      if k != n {
        SlotsDiffer(j.geo, tx, k, n);
        assert before[tx.Slot(j.geo, 0 + k)] == blocks[k];
      }
    }
  }

  /** What a home block ends up with. */
  lemma AfterAt(j: Journal, homes: Image, tx: LogTxn, i: nat)
    requires j.Valid() && j.Logs(tx) && |homes| == j.deviceBlocks && i < |tx.entries|
    ensures tx.entries[i].home < j.deviceBlocks && tx.entries[i].home !in j.geo.journal
    ensures j.After(homes, tx)[tx.entries[i].home] == tx.entries[i].image
  {
    hide LogBlocks;
    assert tx.entries[i] in tx.entries;
    j.HomesInRange(tx);
    WritesDecide(homes, tx.entries, |tx.entries|, i);
    assert tx.entries[..|tx.entries|] == tx.entries;
  }

  lemma {:induction false} WritesDecide(homes: Image, entries: seq<Entry>, n: nat, i: nat)
    requires i < n <= |entries|
    requires forall e :: e in entries ==> e.home < |homes|
    requires forall a, b :: 0 <= a < b < |entries| ==> entries[a].home < entries[b].home
    ensures Apply(homes, WritesOf(entries[..n]))[entries[i].home] == entries[i].image
    decreases n
  {
    var writes := WritesOf(entries[..n]);
    assert writes[..n - 1] == WritesOf(entries[..n - 1]);
    if i < n - 1 {
      WritesDecide(homes, entries, n - 1, i);
    }
  }

  /** Checkpointing (or replaying) one home keeps a committed transaction
      committed. */
  lemma HomeWrite(j: Journal, image: Image, tx: LogTxn, homes: Image, i: nat)
    requires j.Valid() && j.Logs(tx) && |homes| == j.deviceBlocks && j.Full(image, tx, homes) && i < |tx.entries|
    ensures tx.entries[i].home < |image| && tx.entries[i].home !in j.geo.journal
    ensures j.Full(image[tx.entries[i].home := tx.entries[i].image], tx, homes)
  {
    hide FullLog;
    hide ParseSuperblock;
    hide LogBlocks;
    AfterAt(j, homes, tx, i);
    HomeWriteFrame(j, image, tx.entries[i].home, tx.entries[i].image);
  }

  /** Once every home is written, the checkpoint is complete. */
  lemma AllHomesWritten(j: Journal, image: Image, tx: LogTxn, homes: Image)
    requires j.Valid() && j.Logs(tx) && |homes| == j.deviceBlocks && j.Full(image, tx, homes)
    requires forall i :: 0 <= i < |tx.entries| ==>
               tx.entries[i].home < |image| && image[tx.entries[i].home] == tx.entries[i].image
    ensures j.SameHomes(image, j.After(homes, tx))
  {
    hide LogBlocks;
    hide FullLog;
    var after := j.After(homes, tx);
    j.HomesInRange(tx);
    forall k | 0 <= k < |image| && k !in j.geo.journal
      ensures image[k] == after[k]
    {
      if i :| 0 <= i < |tx.entries| && tx.entries[i].home == k {
        AfterAt(j, homes, tx, i);
      } else {
        ApplyElsewhere(homes, WritesOf(tx.entries), k);
      }
    }
  }

  /** A clean superblock with a later sequence closes the journal, whether the
      transaction was dropped or completed. */
  lemma CleanWrite(j: Journal, image: Image, tx: LogTxn, homes: Image, b: Block, sequence: nat)
    requires j.Valid() && j.Logs(tx) && |image| == j.deviceBlocks && j.PointsTo(b, sequence, 0)
    requires tx.sequence + 1 <= sequence
    requires TornLog(j.geo, j.RingOf(image), tx) || FullLog(j.geo, j.RingOf(image), tx)
    requires j.SameHomes(image, homes)
    ensures j.Idle(image[j.SuperblockId() := b], sequence, homes)
  {
    hide *;
    LogIsStale(j, j.RingOf(image), tx);
    IdleAfter(j, image, b, tx.sequence + 1, sequence, homes);
  }
}
