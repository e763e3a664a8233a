/** What recovery accepts: a transaction is found exactly if all of it stands in
    the log, intact and committed, and found transactions are replayed exactly
    if nothing in them would touch the journal. */
module ScanAccepts {
  import opened Bytes
  import opened Jbd2
  import opened LogTags
  import opened JournalLog
  import opened JournalReplay
  import opened JournalRoundTrip
  import opened LogMeaning

  /** A part of a transaction as it is found in the log. */
  datatype Piece = TagPiece(raw: Block, logged: seq<Logged>) | RevokePiece(raw: Block)

  /** The block belongs to the transaction and its checksum is right. */
  predicate Intact(geo: Geometry, sequence: u32, raw: Block, t: BlockType) {
    ParseHeader(raw) == Ok(Header(t, sequence)) && (geo.fmt.features.v3 ==> geo.fmt.BlockChecksumValid(raw))
  }

  /** It can be read, whether its checksums are right or not. */
  predicate Readable(geo: Geometry, sequence: u32, p: Piece) {
    match p
    case TagPiece(raw, logged) =>
      && ParseHeader(raw) == Ok(Header(Descriptor, sequence))
      && ParseTags(geo.fmt, raw, geo.targetBlocks) == Ok(TagsIn(logged))
    case RevokePiece(raw) => ParseHeader(raw) == Ok(Header(Revoke, sequence))
  }

  /** And they are. */
  predicate Accepted(geo: Geometry, sequence: u32, p: Piece) {
    match p
    case TagPiece(raw, logged) =>
      && Intact(geo, sequence, raw, Descriptor)
      && ParseTags(geo.fmt, raw, geo.targetBlocks) == Ok(TagsIn(logged))
      && (forall l :: l in logged && l.tag.checksum.Some? ==>
            l.tag.checksum.value == geo.fmt.TagChecksum(sequence, l.data))
    case RevokePiece(raw) => Intact(geo, sequence, raw, Revoke)
  }

  function TagsIn(logged: seq<Logged>): seq<Tag> {
    seq(|logged|, i requires 0 <= i < |logged| => logged[i].tag)
  }

  function DataIn(logged: seq<Logged>): (r: seq<Block>)
    ensures |r| == |logged|
  {
    seq(|logged|, i requires 0 <= i < |logged| => logged[i].data)
  }

  function PieceBlocks(p: Piece): seq<Block> {
    match p
    case TagPiece(raw, logged) => [raw] + DataIn(logged)
    case RevokePiece(raw) => [raw]
  }

  function PieceTxn(p: Piece): Txn {
    match p
    case TagPiece(raw, logged) => Txn(logged, [])
    case RevokePiece(raw) => Txn([], [raw])
  }

  function PiecesBlocks(pieces: seq<Piece>): seq<Block> {
    if pieces == [] then [] else PieceBlocks(pieces[0]) + PiecesBlocks(pieces[1..])
  }

  function PiecesTxn(pieces: seq<Piece>): Txn {
    if pieces == [] then NO_TXN else Join(PieceTxn(pieces[0]), PiecesTxn(pieces[1..]))
  }

  /** The slots from `k` on hold intact pieces of the transaction and a commit
      block that closes it, and this is what was found. */
  ghost predicate Closed(geo: Geometry, ring: Ring, sequence: u32, head: nat, k: nat, txn: Txn, r: ScanResult,
                         pieces: seq<Piece>)
    requires geo.Valid() && |ring| == geo.maxLen && geo.InRing(head)
  {
    var n := |PiecesBlocks(pieces)|;
    && (forall i :: 0 <= i < |pieces| ==> Accepted(geo, sequence, pieces[i]))
    && k + n < geo.Size() && Holds(geo, ring, From(sequence, head), k, PiecesBlocks(pieces))
    && IsCommitOf(geo.fmt, ring[From(sequence, head).Slot(geo, k + n)], sequence)
    && r == Complete(From(sequence, head).Slot(geo, k + n + 1), k + n + 1, Join(txn, PiecesTxn(pieces)))
  }

  lemma HoldsBoth(geo: Geometry, ring: Ring, at: LogTxn, k: nat, a: seq<Block>, b: seq<Block>)
    requires geo.Valid() && |ring| == geo.maxLen && geo.InRing(at.head) && k + |a| + |b| <= geo.Size()
    requires Holds(geo, ring, at, k, a) && Holds(geo, ring, at, k + |a|, b)
    ensures Holds(geo, ring, at, k, a + b)
  {
    forall j | 0 <= j < |a| + |b|
      ensures ring[at.Slot(geo, k + j)] == (a + b)[j]
    {
      if j >= |a| {
        assert ring[at.Slot(geo, k + |a| + (j - |a|))] == b[j - |a|];
      }
    }
  }

  lemma ClosedMore(geo: Geometry, ring: Ring, sequence: u32, head: nat, k: nat, txn: Txn, r: ScanResult, p: Piece,
                   rest: seq<Piece>)
    requires geo.Valid() && |ring| == geo.maxLen && geo.InRing(head) && Accepted(geo, sequence, p)
    requires k + |PieceBlocks(p)| <= geo.Size() && Holds(geo, ring, From(sequence, head), k, PieceBlocks(p))
    requires Closed(geo, ring, sequence, head, k + |PieceBlocks(p)|, Join(txn, PieceTxn(p)), r, rest)
    ensures Closed(geo, ring, sequence, head, k, txn, r, [p] + rest)
  {
    hide Accepted;
    hide PieceBlocks;
    hide PieceTxn;
    hide Holds;
    hide IsCommitOf;
    hide RingAt;
    assert ([p] + rest)[1..] == rest;
    HoldsBoth(geo, ring, From(sequence, head), k, PieceBlocks(p), PiecesBlocks(rest));
    JoinAssociates(txn, PieceTxn(p), PiecesTxn(rest));
  }

  /** Nothing but intact, committed transactions is found: every block of one
      has its sequence number, every checksum there is was compared, and the
      commit block is there. */
  lemma {:induction false} ScanFinds(geo: Geometry, ring: Ring, sequence: u32, head: nat, k: nat, txn: Txn, bad: bool)
    returns (pieces: seq<Piece>)
    requires geo.Valid() && |ring| == geo.maxLen && geo.InRing(head) && k < geo.Size()
    requires geo.InRing(From(sequence, head).Slot(geo, k))
    requires ScanTxn(geo, ring, sequence, From(sequence, head).Slot(geo, k), k, txn, bad).Complete?
    ensures !bad
    ensures Closed(geo, ring, sequence, head, k, txn,
                   ScanTxn(geo, ring, sequence, From(sequence, head).Slot(geo, k), k, txn, bad), pieces)
    decreases geo.Size() - k
  {
    hide ScanTxn;
    hide ParseHeader;
    hide ParseTags;
    hide ReadLogged;
    hide Skip;
    hide IsCommitOf;
    hide AllIntact;
    hide RingAt;
    hide Closed;
    hide Accepted;
    hide Holds;
    hide PieceTxn;
    hide Format.BlockChecksumValid;
    var at := From(sequence, head);
    var pos := at.Slot(geo, k);
    var raw := ring[pos];
    var r := ScanTxn(geo, ring, sequence, pos, k, txn, bad);
    SlotInRing(geo, at, k);
    ScanStep(geo, ring, sequence, pos, k, txn, bad);
    var t := ParseHeader(raw).value.blockType;
    if t == Commit {
      pieces := [];
      ClosedNow(geo, ring, sequence, head, k, txn, r);
    } else if t == Revoke {
      var p := RevokePiece(raw);
      RevokeTaken(geo, ring, sequence, head, k, txn, bad);
      ScanEnds(geo, ring, sequence, at.Slot(geo, k + 1), k + 1, Join(txn, PieceTxn(p)), bad || Damaged(geo, raw));
      SlotInRing(geo, at, k + 1);
      var rest := ScanFinds(geo, ring, sequence, head, k + 1, Join(txn, PieceTxn(p)), bad || Damaged(geo, raw));
      ClosedMore(geo, ring, sequence, head, k, txn, r, p, rest);
      pieces := [p] + rest;
    } else {
      var tags := ParseTags(geo.fmt, raw, geo.targetBlocks).value;
      var logged := ReadLogged(geo, ring, tags, geo.Next(pos), k + 1).value;
      var k' := k + 1 + |tags|;
      var hurt := bad || Damaged(geo, raw) || !AllIntact(geo.fmt, sequence, logged);
      var p := TagPiece(raw, logged);
      TagsTaken(geo, ring, sequence, head, k, txn, tags, logged);
      ScanEnds(geo, ring, sequence, at.Slot(geo, k'), k', Join(txn, PieceTxn(p)), hurt);
      SlotInRing(geo, at, k');
      var rest := ScanFinds(geo, ring, sequence, head, k', Join(txn, PieceTxn(p)), hurt);
      TagsAccepted(geo, sequence, raw, tags, logged);
      ClosedMore(geo, ring, sequence, head, k, txn, r, p, rest);
      pieces := [p] + rest;
    }
  }

  predicate Damaged(geo: Geometry, raw: Block) {
    geo.fmt.features.v3 && !geo.fmt.BlockChecksumValid(raw)
  }

  /** One unfolding of a walk that completes. */
  lemma ScanStep(geo: Geometry, ring: Ring, sequence: u32, pos: nat, k: nat, txn: Txn, bad: bool)
    requires geo.Valid() && |ring| == geo.maxLen && geo.InRing(pos) && k < geo.Size()
    requires ScanTxn(geo, ring, sequence, pos, k, txn, bad).Complete?
    ensures var raw := ring[pos];
            var r := ScanTxn(geo, ring, sequence, pos, k, txn, bad);
            && ParseHeader(raw).Ok? && ParseHeader(raw).value.sequence == sequence
            && ParseHeader(raw).value.blockType in {Descriptor, Commit, Revoke}
            && (ParseHeader(raw).value.blockType == Commit ==>
                  !bad && IsCommitOf(geo.fmt, raw, sequence) && r == Complete(geo.Next(pos), k + 1, txn))
            && (ParseHeader(raw).value.blockType == Revoke ==>
                  r == ScanTxn(geo, ring, sequence, geo.Next(pos), k + 1, txn.(revokes := txn.revokes + [raw]),
                               bad || Damaged(geo, raw)))
            && (ParseHeader(raw).value.blockType == Descriptor ==>
                  && ParseTags(geo.fmt, raw, geo.targetBlocks).Ok?
                  && var tags := ParseTags(geo.fmt, raw, geo.targetBlocks).value;
                     && ReadLogged(geo, ring, tags, geo.Next(pos), k + 1).Some?
                     && var logged := ReadLogged(geo, ring, tags, geo.Next(pos), k + 1).value;
                        r == ScanTxn(geo, ring, sequence, Skip(geo, geo.Next(pos), |tags|), k + 1 + |tags|,
                                     txn.(logged := txn.logged + logged),
                                     bad || Damaged(geo, raw) || !AllIntact(geo.fmt, sequence, logged)))
  {
    hide ParseTags;
    hide ReadLogged;
    hide AllIntact;
    hide Skip;
    hide IsCommitOf;
    hide Format.BlockChecksumValid;
  }

  lemma ScanEnds(geo: Geometry, ring: Ring, sequence: u32, pos: nat, k: nat, txn: Txn, bad: bool)
    requires geo.Valid() && |ring| == geo.maxLen && geo.InRing(pos)
    ensures ScanTxn(geo, ring, sequence, pos, k, txn, bad).Complete? ==> k < geo.Size()
  {
    hide ParseTags;
    hide ReadLogged;
    hide AllIntact;
    hide Skip;
    hide IsHeaderOf;
  }

  lemma ClosedNow(geo: Geometry, ring: Ring, sequence: u32, head: nat, k: nat, txn: Txn, r: ScanResult)
    requires geo.Valid() && |ring| == geo.maxLen && geo.InRing(head) && k < geo.Size()
    requires geo.InRing(From(sequence, head).Slot(geo, k))
    requires IsCommitOf(geo.fmt, ring[From(sequence, head).Slot(geo, k)], sequence)
    requires r == Complete(geo.Next(From(sequence, head).Slot(geo, k)), k + 1, txn)
    ensures Closed(geo, ring, sequence, head, k, txn, r, [])
  {
    hide IsCommitOf;
    SlotInRing(geo, From(sequence, head), k);
    JoinAssociates(txn, NO_TXN, NO_TXN);
  }

  lemma RevokeTaken(geo: Geometry, ring: Ring, sequence: u32, head: nat, k: nat, txn: Txn, bad: bool)
    requires geo.Valid() && |ring| == geo.maxLen && geo.InRing(head) && k < geo.Size()
    requires geo.InRing(From(sequence, head).Slot(geo, k))
    requires ParseHeader(ring[From(sequence, head).Slot(geo, k)]) == Ok(Header(Revoke, sequence))
    ensures var p := RevokePiece(ring[From(sequence, head).Slot(geo, k)]);
            && (!Damaged(geo, p.raw) ==> Accepted(geo, sequence, p))
            && |PieceBlocks(p)| == 1 && Holds(geo, ring, From(sequence, head), k, PieceBlocks(p))
            && Join(txn, PieceTxn(p)) == txn.(revokes := txn.revokes + [p.raw])
            && geo.InRing(geo.Next(From(sequence, head).Slot(geo, k)))
            && geo.Next(From(sequence, head).Slot(geo, k)) == From(sequence, head).Slot(geo, k + 1)
  {
    hide ParseHeader;
    hide Format.BlockChecksumValid;
    SlotInRing(geo, From(sequence, head), k);
    assert txn.logged + [] == txn.logged;
  }

  lemma {:induction false} ReadLoggedFits(geo: Geometry, ring: Ring, tags: seq<Tag>, pos: nat, consumed: nat)
    requires geo.Valid() && |ring| == geo.maxLen && geo.InRing(pos) && consumed <= geo.Size()
    ensures ReadLogged(geo, ring, tags, pos, consumed).Some? ==> consumed + |tags| <= geo.Size()
    decreases |tags|
  {
    if tags != [] && consumed < geo.Size() {
      ReadLoggedFits(geo, ring, tags[1..], geo.Next(pos), consumed + 1);
    }
  }

  /** The images behind a descriptor. */
  lemma TagsTaken(geo: Geometry, ring: Ring, sequence: u32, head: nat, k: nat, txn: Txn, tags: seq<Tag>,
                  logged: seq<Logged>)
    requires geo.Valid() && |ring| == geo.maxLen && geo.InRing(head) && k < geo.Size()
    requires geo.InRing(From(sequence, head).Slot(geo, k))
    requires geo.InRing(geo.Next(From(sequence, head).Slot(geo, k)))
    requires ReadLogged(geo, ring, tags, geo.Next(From(sequence, head).Slot(geo, k)), k + 1) == Some(logged)
    ensures k + 1 + |tags| <= geo.Size() && TagsIn(logged) == tags
    ensures var p := TagPiece(ring[From(sequence, head).Slot(geo, k)], logged);
            && |PieceBlocks(p)| == 1 + |tags| && Holds(geo, ring, From(sequence, head), k, PieceBlocks(p))
            && Join(txn, PieceTxn(p)) == txn.(logged := txn.logged + logged)
    ensures Skip(geo, geo.Next(From(sequence, head).Slot(geo, k)), |tags|)
            == From(sequence, head).Slot(geo, k + 1 + |tags|)
    ensures geo.InRing(From(sequence, head).Slot(geo, k + 1 + |tags|))
  {
    hide RingAt;
    hide ReadLogged;
    hide Skip;
    var at := From(sequence, head);
    var raw := ring[at.Slot(geo, k)];
    SlotInRing(geo, at, k);
    ReadLoggedFits(geo, ring, tags, at.Slot(geo, k + 1), k + 1);
    ReadLoggedIsReadAt(geo, ring, tags, at, k + 1);
    SkipIsSlot(geo, at, k + 1, |tags|);
    assert txn.revokes + [] == txn.revokes;
    RingAtInside(geo.first, geo.maxLen, head, k + 1 + |tags|);
    assert Holds(geo, ring, at, k, [raw]) by {
      HoldsOne(geo, ring, at, k);
    }
    HoldsBoth(geo, ring, at, k, [raw], DataIn(logged));
  }

  lemma HoldsOne(geo: Geometry, ring: Ring, at: LogTxn, k: nat)
    requires geo.Valid() && |ring| == geo.maxLen && geo.InRing(at.head) && k < geo.Size()
    requires geo.InRing(at.Slot(geo, k))
    ensures Holds(geo, ring, at, k, [ring[at.Slot(geo, k)]])
  {
  }

  lemma TagsAccepted(geo: Geometry, sequence: u32, raw: Block, tags: seq<Tag>, logged: seq<Logged>)
    requires ParseHeader(raw) == Ok(Header(Descriptor, sequence)) && !Damaged(geo, raw)
    requires ParseTags(geo.fmt, raw, geo.targetBlocks) == Ok(tags) && TagsIn(logged) == tags
    requires AllIntact(geo.fmt, sequence, logged)
    ensures Accepted(geo, sequence, TagPiece(raw, logged))
  {
    hide ParseHeader;
    hide ParseTags;
    hide Format.BlockChecksumValid;
    hide Format.TagChecksum;
    forall l | l in logged && l.tag.checksum.Some?
      ensures l.tag.checksum.value == geo.fmt.TagChecksum(sequence, l.data)
    {
      assert TagIntact(geo.fmt, sequence, l);
    }
  }

  // ---- What becomes of a transaction with a commit block ------------------------------

  predicate AllAccepted(geo: Geometry, sequence: u32, pieces: seq<Piece>) {
    forall i :: 0 <= i < |pieces| ==> Accepted(geo, sequence, pieces[i])
  }

  predicate AllReadable(geo: Geometry, sequence: u32, pieces: seq<Piece>) {
    forall i :: 0 <= i < |pieces| ==> Readable(geo, sequence, pieces[i])
  }

  lemma ScanRevokePiece(geo: Geometry, ring: Ring, sequence: u32, pos: nat, k: nat, txn: Txn, bad: bool)
    requires geo.Valid() && |ring| == geo.maxLen && geo.InRing(pos) && k < geo.Size()
    requires ParseHeader(ring[pos]) == Ok(Header(Revoke, sequence))
    ensures ScanTxn(geo, ring, sequence, pos, k, txn, bad)
            == ScanTxn(geo, ring, sequence, geo.Next(pos), k + 1, txn.(revokes := txn.revokes + [ring[pos]]),
                       bad || Damaged(geo, ring[pos]))
  {
    hide ParseHeader;
    hide Format.BlockChecksumValid;
  }

  lemma ScanTagPiece(geo: Geometry, ring: Ring, sequence: u32, pos: nat, k: nat, txn: Txn, bad: bool,
                     tags: seq<Tag>, logged: seq<Logged>)
    requires geo.Valid() && |ring| == geo.maxLen && geo.InRing(pos) && k < geo.Size()
    requires ParseHeader(ring[pos]) == Ok(Header(Descriptor, sequence))
    requires ParseTags(geo.fmt, ring[pos], geo.targetBlocks) == Ok(tags)
    requires ReadLogged(geo, ring, tags, geo.Next(pos), k + 1) == Some(logged)
    ensures ScanTxn(geo, ring, sequence, pos, k, txn, bad)
            == ScanTxn(geo, ring, sequence, Skip(geo, geo.Next(pos), |tags|), k + 1 + |tags|,
                       txn.(logged := txn.logged + logged),
                       bad || Damaged(geo, ring[pos]) || !AllIntact(geo.fmt, sequence, logged))
  {
    hide ParseHeader;
    hide ParseTags;
    hide ReadLogged;
    hide Skip;
    hide AllIntact;
    hide Format.BlockChecksumValid;
  }

  /** The scan steps over one readable piece; it remembers if that is not intact. */
  lemma ScanPiece(geo: Geometry, ring: Ring, sequence: u32, head: nat, p: Piece, k: nat, txn: Txn, bad: bool)
    requires geo.Valid() && |ring| == geo.maxLen && geo.InRing(head) && Readable(geo, sequence, p)
    requires k + |PieceBlocks(p)| < geo.Size() && Holds(geo, ring, From(sequence, head), k, PieceBlocks(p))
    ensures var k' := k + |PieceBlocks(p)|;
            ScanTxn(geo, ring, sequence, From(sequence, head).Slot(geo, k), k, txn, bad)
            == ScanTxn(geo, ring, sequence, From(sequence, head).Slot(geo, k'), k', Join(txn, PieceTxn(p)),
                       bad || !Accepted(geo, sequence, p))
  {
    hide ScanTxn;
    hide ParseHeader;
    hide ParseTags;
    hide ReadLogged;
    hide Skip;
    hide RingAt;
    hide Format.BlockChecksumValid;
    hide Format.TagChecksum;
    var at := From(sequence, head);
    var pos := at.Slot(geo, k);
    SlotInRing(geo, at, k);
    HoldsFirst(geo, ring, at, k, PieceBlocks(p));
    match p {
      case RevokePiece(raw) =>
        ScanRevokePiece(geo, ring, sequence, pos, k, txn, bad);
        assert txn.logged + [] == txn.logged;
      case TagPiece(raw, logged) =>
        var tags := TagsIn(logged);
        SlotInRing(geo, at, k + 1);
        LoggedInPlace(geo, ring, at, k, raw, logged);
        SkipIsSlot(geo, at, k + 1, |tags|);
        ScanTagPiece(geo, ring, sequence, pos, k, txn, bad, tags, logged);
        IntactIff(geo.fmt, sequence, logged);
        assert txn.revokes + [] == txn.revokes;
    }
  }

  lemma IntactIff(fmt: Format, sequence: u32, logged: seq<Logged>)
    ensures AllIntact(fmt, sequence, logged) <==>
              forall l :: l in logged && l.tag.checksum.Some? ==>
                l.tag.checksum.value == fmt.TagChecksum(sequence, l.data)
  {
    hide Format.TagChecksum;
    if AllIntact(fmt, sequence, logged) {
      forall l | l in logged && l.tag.checksum.Some?
        ensures l.tag.checksum.value == fmt.TagChecksum(sequence, l.data)
      {
        assert TagIntact(fmt, sequence, l);
      }
    }
  }

  lemma LoggedInPlace(geo: Geometry, ring: Ring, at: LogTxn, k: nat, raw: Block, logged: seq<Logged>)
    requires geo.Valid() && |ring| == geo.maxLen && geo.InRing(at.head) && k + 1 + |logged| <= geo.Size()
    requires geo.InRing(at.Slot(geo, k + 1)) && Holds(geo, ring, at, k, [raw] + DataIn(logged))
    ensures ReadLogged(geo, ring, TagsIn(logged), at.Slot(geo, k + 1), k + 1) == Some(logged)
  {
    hide ReadLogged;
    HoldsSplit(geo, ring, at, k, [raw], DataIn(logged));
    ReadLoggedIsReadAt(geo, ring, TagsIn(logged), at, k + 1);
    var read := ReadAt(geo, ring, TagsIn(logged), at, k + 1);
    forall i | 0 <= i < |logged|
      ensures read[i] == logged[i]
    {
      assert ring[at.Slot(geo, k + 1 + i)] == DataIn(logged)[i];
    }
    assert read == logged;
  }

  lemma CommitEnds(geo: Geometry, ring: Ring, sequence: u32, pos: nat, k: nat, txn: Txn, bad: bool)
    requires geo.Valid() && |ring| == geo.maxLen && geo.InRing(pos) && k < geo.Size()
    requires IsCommitOf(geo.fmt, ring[pos], sequence)
    ensures ScanTxn(geo, ring, sequence, pos, k, txn, bad)
            == if bad then Broken(EIO) else Complete(geo.Next(pos), k + 1, txn)
  {
    hide ParseHeader;
    hide ParseTags;
  }

  /** A transaction that can be read up to its commit block is found if it is
      intact; if any of its checksums is wrong, recovery fails: it is neither
      replayed nor passed over. */
  lemma {:induction false} ScanPieces(geo: Geometry, ring: Ring, sequence: u32, head: nat, pieces: seq<Piece>, k: nat,
                                      txn: Txn, bad: bool)
    requires geo.Valid() && |ring| == geo.maxLen && geo.InRing(head) && AllReadable(geo, sequence, pieces)
    requires k + |PiecesBlocks(pieces)| < geo.Size()
    requires Holds(geo, ring, From(sequence, head), k, PiecesBlocks(pieces))
    requires geo.InRing(From(sequence, head).Slot(geo, k + |PiecesBlocks(pieces)|))
    requires IsCommitOf(geo.fmt, ring[From(sequence, head).Slot(geo, k + |PiecesBlocks(pieces)|)], sequence)
    ensures var end := k + |PiecesBlocks(pieces)| + 1;
            ScanTxn(geo, ring, sequence, From(sequence, head).Slot(geo, k), k, txn, bad)
            == if bad || !AllAccepted(geo, sequence, pieces) then Broken(EIO)
               else Complete(From(sequence, head).Slot(geo, end), end, Join(txn, PiecesTxn(pieces)))
    decreases |pieces|
  {
    hide ScanTxn;
    hide Readable;
    hide Accepted;
    hide PieceBlocks;
    hide PieceTxn;
    hide Holds;
    hide IsCommitOf;
    hide RingAt;
    if pieces == [] {
      SlotInRing(geo, From(sequence, head), k);
      CommitEnds(geo, ring, sequence, From(sequence, head).Slot(geo, k), k, txn, bad);
      JoinAssociates(txn, NO_TXN, NO_TXN);
    } else {
      var first, rest := pieces[0], pieces[1..];
      HoldsSplit(geo, ring, From(sequence, head), k, PieceBlocks(first), PiecesBlocks(rest));
      ScanPiece(geo, ring, sequence, head, first, k, txn, bad);
      ScanPieces(geo, ring, sequence, head, rest, k + |PieceBlocks(first)|, Join(txn, PieceTxn(first)),
                 bad || !Accepted(geo, sequence, first));
      JoinAssociates(txn, PieceTxn(first), PiecesTxn(rest));
    }
  }

  /** Images go home only if none of them would overwrite the journal, and if
      every revoke block is well formed, was to be expected and lists blocks of
      the file system outside the journal. */
  lemma PlanAccepts(geo: Geometry, ring: Ring, sequence: u32, head: nat, txns: seq<Txn>)
    requires geo.Valid() && |ring| == geo.maxLen && geo.InRing(head)
    requires ScanFrom(geo, ring, sequence, head, 0) == Ok(txns)
    ensures Plan(geo, ring, sequence, head).Ok? <==>
              && (forall t, l :: t in txns && l in t.logged && !DeletedFlag(l.tag.flags) ==>
                    l.tag.block !in geo.journal)
              && forall m, raw :: 0 <= m < |txns| && raw in txns[m].revokes ==>
                   RevokeAccepted(geo, SequenceAfter(sequence, m), raw)
  {
    hide ScanFrom;
    hide DeletedFlag;
    hide RevokeAccepted;
    hide ReplayPass;
    hide RevokePass;
    hide SequenceAfter;
    RevokePassDecides(geo, sequence, txns, map[]);
    if LogAvoids(geo, txns) {
      forall t, l | t in txns && l in t.logged && !DeletedFlag(l.tag.flags)
        ensures l.tag.block !in geo.journal
      {
        assert AllAvoid(geo, t.logged) && TagAvoids(geo, l);
      }
    }
  }

  predicate RevokeAccepted(geo: Geometry, sequence: u32, raw: Block) {
    var count := BigEndian(raw[12..16]);
    && geo.fmt.features.hasRevoke && ParseHeader(raw) == Ok(Header(Revoke, sequence))
    && 16 <= count <= BLOCK_SIZE - (if geo.fmt.features.v3 then 4 else 0)
    && (count - 16) % (if geo.fmt.features.has64bit then 8 else 4) == 0
    && forall b :: b in RevokedBlocks(geo.fmt.features.has64bit, raw) ==> b < geo.targetBlocks && b !in geo.journal
  }

  lemma OneRevokeDecides(geo: Geometry, sequence: u32, raw: Block)
    ensures var r := ParseRevokeRecords(geo.fmt.features, raw, sequence, geo.targetBlocks);
            RevokeAccepted(geo, sequence, raw) <==> r.Ok? && forall b :: b in r.value ==> b !in geo.journal
  {
    hide ParseRevokeRecords;
    hide RevokedBlocks;
    hide ParseHeader;
    hide BigEndian;
    RevokeParsesTo(geo.fmt.features, raw, sequence, geo.targetBlocks);
  }

  lemma {:induction false} TxnRevokesDecides(geo: Geometry, sequence: u32, blocks: seq<Block>)
    ensures TxnRevokes(geo, sequence, blocks).Ok?
            <==> forall raw :: raw in blocks ==> RevokeAccepted(geo, sequence, raw)
    decreases |blocks|
  {
    hide ParseRevokeRecords;
    hide RevokeAccepted;
    if blocks != [] {
      OneRevokeDecides(geo, sequence, blocks[0]);
      TxnRevokesDecides(geo, sequence, blocks[1..]);
      assert blocks == [blocks[0]] + blocks[1..];
    }
  }

  lemma {:induction false} RevokePassDecides(geo: Geometry, sequence: u32, txns: seq<Txn>, table: RevokeTable)
    ensures RevokePass(geo, sequence, txns, table).Ok? <==>
              forall m, raw :: 0 <= m < |txns| && raw in txns[m].revokes ==>
                RevokeAccepted(geo, SequenceAfter(sequence, m), raw)
    decreases |txns|
  {
    hide TxnRevokes;
    hide RevokeAccepted;
    hide RevokeMany;
    hide SequenceAfter;
    hide NextSequence;
    if txns != [] {
      TxnRevokesDecides(geo, sequence, txns[0].revokes);
      LaterSequence(sequence, 0);
      if TxnRevokes(geo, sequence, txns[0].revokes).Ok? {
        var records := TxnRevokes(geo, sequence, txns[0].revokes).value;
        RevokePassDecides(geo, NextSequence(sequence), txns[1..], RevokeMany(table, records, sequence));
        forall m | 1 <= m < |txns|
          ensures SequenceAfter(NextSequence(sequence), m - 1) == SequenceAfter(sequence, m)
          ensures txns[1..][m - 1] == txns[m]
        {
          LaterSequence(sequence, m - 1);
        }
        if forall m, raw :: 0 <= m < |txns[1..]| && raw in txns[1..][m].revokes ==>
             RevokeAccepted(geo, SequenceAfter(NextSequence(sequence), m), raw) {
          forall m, raw | 0 <= m < |txns| && raw in txns[m].revokes
            ensures RevokeAccepted(geo, SequenceAfter(sequence, m), raw)
          {
            if m > 0 {
              assert raw in txns[1..][m - 1].revokes;
            }
          }
        } else {
          var m, raw :| 0 <= m < |txns[1..]| && raw in txns[1..][m].revokes
                        && !RevokeAccepted(geo, SequenceAfter(NextSequence(sequence), m), raw);
          LaterSequence(sequence, m);
          assert raw in txns[m + 1].revokes;
        }
      }
    }
  }
}
