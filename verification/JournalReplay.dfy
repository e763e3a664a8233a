/** What recovery means: the complete transactions found by walking the ring,
    the revoke table they define, and the home blocks that are rewritten. */
module JournalReplay {
  import opened Bytes
  import opened BlockStore
  import opened Jbd2
  import opened LogTags
  import opened JournalLog

  /** The fixed shape of one journal: format, data ring, device size and the
      physical blocks that belong to the journal itself. */
  datatype Geometry = Geometry(fmt: Format, first: nat, maxLen: nat, targetBlocks: nat, journal: set<nat>)
  {
    predicate Valid() {
      0 < first < maxLen < 0x1_0000_0000
    }

    function Size(): nat
      requires Valid()
    {
      maxLen - first
    }

    predicate InRing(pos: int) {
      first <= pos < maxLen
    }

    function Next(pos: nat): nat {
      RingNext(first, maxLen, pos)
    }
  }

  /** The journal by logical block number. */
  type Ring = seq<Block>

  datatype Logged = Logged(tag: Tag, data: Block)

  datatype Txn = Txn(logged: seq<Logged>, revokes: seq<Block>)

  datatype ScanResult =
    | Stopped                                     // the log ends before this transaction commits
    | Broken(code: ErrCode)                       // recovery must fail
    | Complete(pos: nat, consumed: nat, txn: Txn)

  function NextSequence(s: u32): u32 {
    (s + 1) % 0x1_0000_0000
  }

  function SequenceAfter(s: u32, count: nat): u32 {
    (s + count) % 0x1_0000_0000
  }

  /** Serial-number comparison of transaction ids. */
  predicate TidGeq(a: u32, b: u32) {
    (a - b) % 0x1_0000_0000 < 0x8000_0000
  }

  // ---- Walking one transaction --------------------------------------------

  /** The data blocks behind a descriptor, or None when the ring is used up. */
  function ReadLogged(geo: Geometry, ring: Ring, tags: seq<Tag>, pos: nat, consumed: nat): (r: Option<seq<Logged>>)
    requires geo.Valid() && |ring| == geo.maxLen && geo.InRing(pos)
    ensures r.Some? ==> |r.value| == |tags| && forall l :: l in r.value ==> l.tag in tags
    decreases |tags|
  {
    if tags == [] then Some([])
    else if consumed >= geo.Size() then None
    else
      match ReadLogged(geo, ring, tags[1..], geo.Next(pos), consumed + 1)
      case None => None
      case Some(rest) => Some([Logged(tags[0], ring[pos])] + rest)
  }

  /** The ring slot `count` steps after `pos`. */
  function Skip(geo: Geometry, pos: nat, count: nat): (r: nat)
    requires geo.Valid() && geo.InRing(pos)
    ensures geo.InRing(r)
    decreases count
  {
    if count == 0 then pos else Skip(geo, geo.Next(pos), count - 1)
  }

  predicate TagIntact(fmt: Format, sequence: u32, l: Logged) {
    l.tag.checksum.Some? ==> fmt.TagChecksum(sequence, l.data) == l.tag.checksum.value
  }

  predicate AllIntact(fmt: Format, sequence: u32, logged: seq<Logged>) {
    forall l :: l in logged ==> TagIntact(fmt, sequence, l)
  }

  /** Walk transaction `sequence` from `pos`, having consumed that many ring
      blocks and collected `txn` so far; `bad` remembers a checksum mismatch. */
  function ScanTxn(geo: Geometry, ring: Ring, sequence: u32, pos: nat, consumed: nat, txn: Txn,
                   bad: bool): (r: ScanResult)
    requires geo.Valid() && |ring| == geo.maxLen && geo.InRing(pos)
    ensures r.Complete? ==> geo.InRing(r.pos) && consumed < r.consumed <= geo.Size()
    ensures r.Complete? && TargetsBelow(txn, geo.targetBlocks) ==> TargetsBelow(r.txn, geo.targetBlocks)
    decreases if consumed <= geo.Size() then geo.Size() - consumed else 0
  {
    if consumed >= geo.Size() then Stopped
    else
      var raw := ring[pos];
      if !IsHeaderOf(raw, sequence) then Stopped
      else
        var next := geo.Next(pos);
        var damaged := geo.fmt.features.v3 && !geo.fmt.BlockChecksumValid(raw);
        match ParseHeader(raw).value.blockType
        case Descriptor =>
          (match ParseTags(geo.fmt, raw, geo.targetBlocks)
           case Err(e) => Broken(e)
           case Ok(tags) =>
             match ReadLogged(geo, ring, tags, next, consumed + 1)
             case None => Stopped
             case Some(logged) =>
               ScanTxn(geo, ring, sequence, Skip(geo, next, |tags|), consumed + 1 + |tags|,
                       txn.(logged := txn.logged + logged),
                       bad || damaged || !AllIntact(geo.fmt, sequence, logged)))
        case Revoke =>
          ScanTxn(geo, ring, sequence, next, consumed + 1, txn.(revokes := txn.revokes + [raw]), bad || damaged)
        case Commit =>
          if !IsCommitOf(geo.fmt, raw, sequence) then Stopped
          else if bad then Broken(EIO)
          else Complete(next, consumed + 1, txn)
        case _ => Stopped
  }

  predicate TargetsBelow(txn: Txn, limit: nat) {
    forall l :: l in txn.logged ==> l.tag.block < limit
  }

  const NO_TXN := Txn([], [])

  /** All complete transactions from `pos` on. */
  function ScanFrom(geo: Geometry, ring: Ring, sequence: u32, pos: nat, consumed: nat): (r: Result<seq<Txn>>)
    requires geo.Valid() && |ring| == geo.maxLen && geo.InRing(pos)
    requires consumed <= geo.Size()
    ensures r.Ok? ==> |r.value| <= geo.Size() - consumed
    ensures r.Ok? ==> forall t :: t in r.value ==> TargetsBelow(t, geo.targetBlocks)
    decreases geo.Size() - consumed
  {
    match ScanTxn(geo, ring, sequence, pos, consumed, NO_TXN, false)
    case Stopped => Ok([])
    case Broken(e) => Err(e)
    case Complete(pos', consumed', txn) =>
      if pos' == pos || consumed' >= geo.Size() then Ok([txn])
      else
        match ScanFrom(geo, ring, NextSequence(sequence), pos', consumed')
        case Err(e) => Err(e)
        case Ok(rest) => Ok([txn] + rest)
  }

  // ---- Revokes -------------------------------------------------------------

  function TxnRevokes(geo: Geometry, sequence: u32, blocks: seq<Block>): Result<seq<nat>> {
    if blocks == [] then Ok([])
    else
      match ParseRevokeRecords(geo.fmt.features, blocks[0], sequence, geo.targetBlocks)
      case Err(e) => Err(e)
      case Ok(records) =>
        if exists r :: r in records && r in geo.journal then Err(EIO)
        else
          match TxnRevokes(geo, sequence, blocks[1..])
          case Err(e) => Err(e)
          case Ok(rest) => Ok(records + rest)
  }

  type RevokeTable = map<nat, u32>

  function Revoke1(table: RevokeTable, block: nat, sequence: u32): RevokeTable {
    if block in table && TidGeq(table[block], sequence) then table else table[block := sequence]
  }

  function RevokeMany(table: RevokeTable, records: seq<nat>, sequence: u32): RevokeTable
    decreases |records|
  {
    if records == [] then table
    else RevokeMany(Revoke1(table, records[0], sequence), records[1..], sequence)
  }

  /** The table built by the Revoke pass over `txns`, starting at `sequence`. */
  function RevokePass(geo: Geometry, sequence: u32, txns: seq<Txn>, table: RevokeTable): Result<RevokeTable>
    decreases |txns|
  {
    if txns == [] then Ok(table)
    else
      match TxnRevokes(geo, sequence, txns[0].revokes)
      case Err(e) => Err(e)
      case Ok(records) =>
        RevokePass(geo, NextSequence(sequence), txns[1..], RevokeMany(table, records, sequence))
  }

  // ---- Replay --------------------------------------------------------------

  predicate Revoked(table: RevokeTable, block: nat, sequence: u32) {
    block in table && TidGeq(table[block], sequence)
  }

  function ReplayLogged(table: RevokeTable, sequence: u32, logged: seq<Logged>): (r: seq<Write>)
    ensures forall w :: w in r ==> exists l :: l in logged && !DeletedFlag(l.tag.flags) && l.tag.block == w.block
  {
    if logged == [] then []
    else
      var l := logged[0];
      var rest := ReplayLogged(table, sequence, logged[1..]);
      if DeletedFlag(l.tag.flags) || Revoked(table, l.tag.block, sequence) then rest
      else [Write(l.tag.block, Unescaped(l.tag.flags, l.data))] + rest
  }

  /** The home writes of the Replay pass, in order. */
  function ReplayPass(table: RevokeTable, sequence: u32, txns: seq<Txn>): (r: seq<Write>)
    ensures forall w :: w in r ==>
              exists t, l :: t in txns && l in t.logged && !DeletedFlag(l.tag.flags) && l.tag.block == w.block
    decreases |txns|
  {
    if txns == [] then []
    else ReplayLogged(table, sequence, txns[0].logged) + ReplayPass(table, NextSequence(sequence), txns[1..])
  }

  predicate TagAvoids(geo: Geometry, l: Logged) {
    !DeletedFlag(l.tag.flags) ==> l.tag.block !in geo.journal
  }

  predicate AllAvoid(geo: Geometry, logged: seq<Logged>) {
    forall l :: l in logged ==> TagAvoids(geo, l)
  }

  /** Replay refuses to write into the journal itself. */
  predicate LogAvoids(geo: Geometry, txns: seq<Txn>) {
    forall t :: t in txns ==> AllAvoid(geo, t.logged)
  }

  /** The three passes together. */
  function Plan(geo: Geometry, ring: Ring, sequence: u32, start: nat): (r: Result<(nat, seq<Write>)>)
    requires geo.Valid() && |ring| == geo.maxLen && geo.InRing(start)
    ensures r.Ok? ==> forall w :: w in r.value.1 ==> w.block < geo.targetBlocks && w.block !in geo.journal
  {
    match ScanFrom(geo, ring, sequence, start, 0)
    case Err(e) => Err(e)
    case Ok(txns) =>
      match RevokePass(geo, sequence, txns, map[])
      case Err(e) => Err(e)
      case Ok(table) =>
        if LogAvoids(geo, txns) then Ok((|txns|, ReplayPass(table, sequence, txns))) else Err(EIO)
  }
}
