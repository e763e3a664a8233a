/** What the three recovery passes do to one home block: it ends with the data
    of its last committed tag, unless a revoke of an equal or later transaction
    covers that tag. */
module ReplayMeaning {
  import opened Bytes
  import opened BlockStore
  import opened Jbd2
  import opened LogTags
  import opened JournalReplay

  /** Does transaction `m` of the log revoke block `b`: do the bytes of one of
      its revoke blocks list it? */
  ghost predicate Revokes(geo: Geometry, txns: seq<Txn>, m: nat, b: nat)
    requires m < |txns|
  {
    exists raw :: raw in txns[m].revokes && b in RevokedBlocks(geo.fmt.features.has64bit, raw)
  }

  /** Recovery collects all that the revoke blocks of a transaction list. */
  lemma {:induction false} TxnRevokesAre(geo: Geometry, sequence: u32, blocks: seq<Block>, b: nat)
    requires TxnRevokes(geo, sequence, blocks).Ok?
    ensures b in TxnRevokes(geo, sequence, blocks).value
            <==> exists raw :: raw in blocks && b in RevokedBlocks(geo.fmt.features.has64bit, raw)
    decreases |blocks|
  {
    hide ParseRevokeRecords;
    hide RevokedBlocks;
    if blocks != [] {
      RevokeParsesTo(geo.fmt.features, blocks[0], sequence, geo.targetBlocks);
      TxnRevokesAre(geo, sequence, blocks[1..], b);
      assert blocks == [blocks[0]] + blocks[1..];
    }
  }

  /** A revoke of `b` in transaction `i` or later. */
  ghost predicate CoveredFrom(geo: Geometry, txns: seq<Txn>, i: nat, b: nat) {
    exists m :: i <= m < |txns| && Revokes(geo, txns, m, b)
  }

  /** The serial-number comparison orders transactions that are less than half
      the sequence space apart, across the wrap. */
  lemma TidOrder(s0: u32, m: nat, i: nat)
    requires m < 0x8000_0000 && i < 0x8000_0000
    ensures TidGeq(SequenceAfter(s0, m), SequenceAfter(s0, i)) <==> m >= i
  {
  }

  /** The stop test of the later passes cannot fire early, even if the
      sequence wraps. */
  lemma StopOnlyAtEnd(s0: u32, i: nat, n: nat)
    requires i < n < 0x1_0000_0000
    ensures SequenceAfter(s0, i) != SequenceAfter(s0, n)
  {
  }

  // ---- The revoke table ------------------------------------------------------

  /** The table knows, for each block, the last of the first `k` transactions
      that revokes it. */
  ghost predicate Reflects(geo: Geometry, s0: u32, txns: seq<Txn>, k: nat, table: RevokeTable)
    requires k <= |txns|
  {
    && (forall m, b :: 0 <= m < k && Revokes(geo, txns, m, b) ==> b in table)
    && (forall b :: b in table ==>
                      exists m :: 0 <= m < k && LastRevoke(geo, txns, k, m, b) && table[b] == SequenceAfter(s0, m))
  }

  ghost predicate LastRevoke(geo: Geometry, txns: seq<Txn>, k: nat, m: nat, b: nat)
    requires m < k <= |txns|
  {
    Revokes(geo, txns, m, b) && forall m' :: m < m' < k ==> !Revokes(geo, txns, m', b)
  }

  lemma {:induction false} RevokeManyEffect(table: RevokeTable, records: seq<nat>, sequence: u32)
    requires forall b :: b in table && TidGeq(table[b], sequence) ==> table[b] == sequence
    ensures var after := RevokeMany(table, records, sequence);
            && (forall b :: b in after <==> b in table || b in records)
            && (forall b :: b in after ==> after[b] == if b in records then sequence else table[b])
    decreases |records|
  {
    if records != [] {
      assert TidGeq(sequence, sequence);
      RevokeManyEffect(Revoke1(table, records[0], sequence), records[1..], sequence);
      assert records == [records[0]] + records[1..];
    }
  }

  lemma {:induction false} RevokePassReflects(
    geo: Geometry, s0: u32, txns: seq<Txn>, k: nat, table: RevokeTable, final: RevokeTable)
    requires k <= |txns| < 0x8000_0000
    requires Reflects(geo, s0, txns, k, table)
    requires RevokePass(geo, SequenceAfter(s0, k), txns[k..], table) == Ok(final)
    ensures Reflects(geo, s0, txns, |txns|, final)
    decreases |txns| - k
  {
    hide TxnRevokes;
    hide Reflects;
    hide RevokeMany;
    if k == |txns| {
      assert txns[k..] == [];
    } else {
      var s := SequenceAfter(s0, k);
      var records := TxnRevokes(geo, s, txns[k].revokes).value;
      var next := RevokeMany(table, records, s);
      assert txns[k..][0] == txns[k] && txns[k..][1..] == txns[k + 1..];
      assert NextSequence(s) == SequenceAfter(s0, k + 1);
      RevokeStep(geo, s0, txns, k, table, records);
      RevokePassReflects(geo, s0, txns, k + 1, next, final);
    }
  }

  lemma RecordsAreRevokes(geo: Geometry, sequence: u32, txns: seq<Txn>, k: nat, records: seq<nat>)
    requires k < |txns| && TxnRevokes(geo, sequence, txns[k].revokes) == Ok(records)
    ensures forall b :: b in records <==> Revokes(geo, txns, k, b)
  {
    hide TxnRevokes;
    hide RevokedBlocks;
    forall b
      ensures b in records <==> Revokes(geo, txns, k, b)
    {
      TxnRevokesAre(geo, sequence, txns[k].revokes, b);
    }
  }

  lemma RevokeStep(geo: Geometry, s0: u32, txns: seq<Txn>, k: nat, table: RevokeTable, records: seq<nat>)
    requires k < |txns| < 0x8000_0000 && Reflects(geo, s0, txns, k, table)
    requires TxnRevokes(geo, SequenceAfter(s0, k), txns[k].revokes) == Ok(records)
    ensures Reflects(geo, s0, txns, k + 1, RevokeMany(table, records, SequenceAfter(s0, k)))
  {
    hide TxnRevokes;
    hide Revokes;
    hide SequenceAfter;
    hide TidGeq;
    var s := SequenceAfter(s0, k);
    RecordsAreRevokes(geo, s, txns, k, records);
    forall b | b in table
      ensures !TidGeq(table[b], s)
    {
      var m :| 0 <= m < k && LastRevoke(geo, txns, k, m, b) && table[b] == SequenceAfter(s0, m);
      TidOrder(s0, m, k);
    }
    RevokeManyEffect(table, records, s);
    var after := RevokeMany(table, records, s);
    forall b | b in after
      ensures exists m :: 0 <= m < k + 1 && LastRevoke(geo, txns, k + 1, m, b) && after[b] == SequenceAfter(s0, m)
    {
      if b in records {
        assert LastRevoke(geo, txns, k + 1, k, b);
      } else {
        var m :| 0 <= m < k && LastRevoke(geo, txns, k, m, b) && table[b] == SequenceAfter(s0, m);
        assert LastRevoke(geo, txns, k + 1, m, b);
      }
    }
  }

  /** A tag of transaction `i` is skipped exactly when a revoke of `i` or later
      names its block. */
  lemma RevokedMeansCovered(geo: Geometry, s0: u32, txns: seq<Txn>, table: RevokeTable, i: nat, b: nat)
    requires i < |txns| < 0x8000_0000 && Reflects(geo, s0, txns, |txns|, table)
    ensures Revoked(table, b, SequenceAfter(s0, i)) <==> CoveredFrom(geo, txns, i, b)
  {
    hide Revokes;
    hide SequenceAfter;
    hide TidGeq;
    if b in table {
      var m :| 0 <= m < |txns| && LastRevoke(geo, txns, |txns|, m, b) && table[b] == SequenceAfter(s0, m);
      TidOrder(s0, m, i);
    }
  }

  // ---- The last write to a block -----------------------------------------------

  /** The data that `writes` leave in block `b`, if they touch it. */
  function LastWrite(writes: seq<Write>, b: nat): Option<Block> {
    if writes == [] then None
    else if writes[|writes| - 1].block == b then Some(writes[|writes| - 1].data)
    else LastWrite(writes[..|writes| - 1], b)
  }

  lemma {:induction false} ApplyAt(image: Image, writes: seq<Write>, b: nat)
    requires b < |image| && forall w :: w in writes ==> w.block < |image|
    ensures Apply(image, writes)[b] == match LastWrite(writes, b) case None => image[b] case Some(data) => data
    decreases |writes|
  {
    if writes != [] {
      ApplyAt(image, writes[..|writes| - 1], b);
    }
  }

  lemma {:induction false} LastWriteConcat(first: seq<Write>, second: seq<Write>, b: nat)
    ensures LastWrite(first + second, b)
            == if LastWrite(second, b).Some? then LastWrite(second, b) else LastWrite(first, b)
    decreases |second|
  {
    if second == [] {
      assert first + second == first;
    } else {
      assert (first + second)[..|first + second| - 1] == first + second[..|second| - 1];
      LastWriteConcat(first, second[..|second| - 1], b);
    }
  }

  // ---- The last committed tag ----------------------------------------------------

  predicate Names(l: Logged, b: nat) {
    l.tag.block == b && !DeletedFlag(l.tag.flags)
  }

  /** The last live tag of `b` inside one transaction. */
  function LastTagOf(logged: seq<Logged>, b: nat): Option<Logged> {
    if logged == [] then None
    else if Names(logged[|logged| - 1], b) then Some(logged[|logged| - 1])
    else LastTagOf(logged[..|logged| - 1], b)
  }

  /** The last transaction with a live tag of `b`, and that tag. */
  function LastTag(txns: seq<Txn>, b: nat): (r: Option<(nat, Logged)>)
    ensures r.Some? ==> r.value.0 < |txns|
  {
    if txns == [] then None
    else
      var n := |txns| - 1;
      match LastTagOf(txns[n].logged, b)
      case Some(l) => Some((n, l))
      case None => LastTag(txns[..n], b)
  }

  lemma {:induction false} ReplayLoggedSnoc(table: RevokeTable, s: u32, logged: seq<Logged>, l: Logged)
    ensures ReplayLogged(table, s, logged + [l])
            == ReplayLogged(table, s, logged)
               + (if DeletedFlag(l.tag.flags) || Revoked(table, l.tag.block, s) then []
                  else [Write(l.tag.block, Unescaped(l.tag.flags, l.data))])
    decreases |logged|
  {
    hide Revoked;
    hide Unescaped;
    if logged == [] {
      assert (logged + [l])[1..] == [];
    } else {
      assert (logged + [l])[1..] == logged[1..] + [l];
      ReplayLoggedSnoc(table, s, logged[1..], l);
    }
  }

  lemma {:induction false} LastWriteOfTxn(table: RevokeTable, s: u32, logged: seq<Logged>, b: nat)
    ensures LastWrite(ReplayLogged(table, s, logged), b)
            == match LastTagOf(logged, b)
               case None => None
               case Some(l) => if Revoked(table, b, s) then None else Some(Unescaped(l.tag.flags, l.data))
    decreases |logged|
  {
    hide Revoked;
    hide Unescaped;
    if logged != [] {
      var n := |logged| - 1;
      assert logged == logged[..n] + [logged[n]];
      ReplayLoggedSnoc(table, s, logged[..n], logged[n]);
      LastWriteOfTxn(table, s, logged[..n], b);
      LastWriteConcat(ReplayLogged(table, s, logged[..n]),
                      if DeletedFlag(logged[n].tag.flags) || Revoked(table, logged[n].tag.block, s) then []
                      else [Write(logged[n].tag.block, Unescaped(logged[n].tag.flags, logged[n].data))], b);
      if LastTagOf(logged, b).Some? && Revoked(table, b, s) {
        NoWriteWhenRevoked(table, s, logged, b);
      }
    }
  }

  lemma {:induction false} NoWriteWhenRevoked(table: RevokeTable, s: u32, logged: seq<Logged>, b: nat)
    requires Revoked(table, b, s)
    ensures LastWrite(ReplayLogged(table, s, logged), b) == None
  {
    hide Unescaped;
    NotWritten(ReplayLogged(table, s, logged), b, table, s, logged);
  }

  lemma {:induction false} NotWritten(writes: seq<Write>, b: nat, table: RevokeTable, s: u32, logged: seq<Logged>)
    requires Revoked(table, b, s) && writes == ReplayLogged(table, s, logged)
    ensures (forall w :: w in writes ==> w.block != b) && LastWrite(writes, b) == None
    decreases |logged|
  {
    hide Unescaped;
    if logged != [] {
      NotWritten(ReplayLogged(table, s, logged[1..]), b, table, s, logged[1..]);
    }
    NeverWritten(writes, b);
  }

  lemma {:induction false} NeverWritten(writes: seq<Write>, b: nat)
    requires forall w :: w in writes ==> w.block != b
    ensures LastWrite(writes, b) == None
    decreases |writes|
  {
    if writes != [] {
      NeverWritten(writes[..|writes| - 1], b);
    }
  }

  lemma {:induction false} ReplayPassSnoc(table: RevokeTable, s0: u32, k: nat, txns: seq<Txn>, t: Txn)
    ensures ReplayPass(table, SequenceAfter(s0, k), txns + [t])
            == ReplayPass(table, SequenceAfter(s0, k), txns)
               + ReplayLogged(table, SequenceAfter(s0, k + |txns|), t.logged)
    decreases |txns|
  {
    hide ReplayLogged;
    assert NextSequence(SequenceAfter(s0, k)) == SequenceAfter(s0, k + 1);
    if txns == [] {
      assert (txns + [t])[1..] == [];
    } else {
      assert (txns + [t])[1..] == txns[1..] + [t];
      ReplayPassSnoc(table, s0, k + 1, txns[1..], t);
      var first := ReplayLogged(table, SequenceAfter(s0, k), txns[0].logged);
      var rest := ReplayPass(table, SequenceAfter(s0, k + 1), txns[1..]);
      var last := ReplayLogged(table, SequenceAfter(s0, k + |txns|), t.logged);
      assert first + (rest + last) == first + rest + last;
    }
  }

  /** What a last tag `t` of block `b` amounts to. */
  ghost function Effect(geo: Geometry, txns: seq<Txn>, t: Option<(nat, Logged)>, b: nat): Option<Block> {
    if t.None? || CoveredFrom(geo, txns, t.value.0, b) then None
    else Some(Unescaped(t.value.1.tag.flags, t.value.1.data))
  }

  lemma NothingReplayed(table: RevokeTable, sequence: u32, b: nat)
    ensures LastWrite(ReplayPass(table, sequence, []), b) == None
  {
    NeverWritten([], b);
  }

  lemma {:induction false} LastWriteOfLog(
    geo: Geometry, s0: u32, txns: seq<Txn>, table: RevokeTable, n: nat, b: nat)
    requires n <= |txns| < 0x8000_0000 && Reflects(geo, s0, txns, |txns|, table)
    ensures LastWrite(ReplayPass(table, SequenceAfter(s0, 0), txns[..n]), b)
            == Effect(geo, txns, LastTag(txns[..n], b), b)
    decreases n
  {
    hide Revoked;
    hide Reflects;
    hide Unescaped;
    hide SequenceAfter;
    hide ReplayLogged;
    hide ReplayPass;
    hide LastWrite;
    if n == 0 {
      assert txns[..0] == [];
      NothingReplayed(table, SequenceAfter(s0, 0), b);
    } else {
      var before, t := txns[..n - 1], txns[n - 1];
      assert txns[..n] == before + [t] && txns[..n][..n - 1] == before;
      LastWriteOfLog(geo, s0, txns, table, n - 1, b);
      ReplayPassSnoc(table, s0, 0, before, t);
      LastWriteOfTxn(table, SequenceAfter(s0, n - 1), t.logged, b);
      LastWriteConcat(ReplayPass(table, SequenceAfter(s0, 0), before),
                      ReplayLogged(table, SequenceAfter(s0, n - 1), t.logged), b);
      RevokedMeansCovered(geo, s0, txns, table, n - 1, b);
      if CoveredFrom(geo, txns, n - 1, b) && LastTag(before, b).Some? {
        var i := LastTag(before, b).value.0;
        assert CoveredFrom(geo, txns, i, b);
      }
    }
  }

  /** Replay meaning.  For any committed log of fewer than 2^31 transactions,
      replay leaves in block `b` the data of the last committed tag of `b`,
      unless a revoke of that transaction or a later one names `b`; a block
      that no such tag names keeps its contents. */
  lemma ReplayGivesLastCommitted(geo: Geometry, s0: u32, txns: seq<Txn>, table: RevokeTable, image: Image, b: nat)
    requires |txns| < 0x8000_0000 && b < |image|
    requires RevokePass(geo, s0, txns, map[]) == Ok(table)
    requires forall w :: w in ReplayPass(table, s0, txns) ==> w.block < |image|
    ensures Apply(image, ReplayPass(table, s0, txns))[b]
            == var t := LastTag(txns, b);
               if t.None? || CoveredFrom(geo, txns, t.value.0, b) then image[b]
               else Unescaped(t.value.1.tag.flags, t.value.1.data)
  {
    hide LastWrite;
    hide LastTag;
    hide ReplayPass;
    hide RevokePass;
    hide Unescaped;
    hide CoveredFrom;
    assert SequenceAfter(s0, 0) == s0 && txns[0..] == txns && txns[..|txns|] == txns;
    RevokePassReflects(geo, s0, txns, 0, map[], table);
    LastWriteOfLog(geo, s0, txns, table, |txns|, b);
    ApplyAt(image, ReplayPass(table, s0, txns), b);
  }
}
