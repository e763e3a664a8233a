/** Journal recovery as the mount runs it: one ring walk per pass over a device
    whose operations may fail. */
module JournalRecovery {
  import opened Bytes
  import opened BlockStore
  import opened Jbd2
  import opened LogTags
  import opened JournalReplay
  import opened JournalImage
  import opened ReplayMeaning

  datatype Pass = Scan | RevokeScan | Replay

  /** Where a walk stands after some blocks. */
  datatype Position = Position(pos: nat, consumed: nat, bad: bool)

  /** Read tags one after the other, advancing the offset. */
  method ReadTags(fmt: Format, bytes: Block, targetBlocks: nat) returns (r: Result<seq<Tag>>)
    ensures r == ParseTags(fmt, bytes, targetBlocks)
  {
    var off := HEADER_BYTES;
    var tags: seq<Tag> := [];
    assert ParseTags(fmt, bytes, targetBlocks).Ok? ==>
        [] + ParseTags(fmt, bytes, targetBlocks).value == ParseTags(fmt, bytes, targetBlocks).value;
    while true
      invariant off <= BLOCK_SIZE
      invariant ParseTags(fmt, bytes, targetBlocks)
                == (match ParseTagsFrom(fmt, bytes, off, targetBlocks)
                    case Err(e) => Err(e)
                    case Ok(rest) => Ok(tags + rest))
      decreases BLOCK_SIZE - off
    {
      hide ParseTag;
      var one := ParseTag(fmt, bytes, off, targetBlocks);
      if one.Err? {
        return Err(one.code);
      }
      var (tag, next) := one.value;
      if LastTagFlag(tag.flags) {
        return Ok(tags + [tag]);
      }
      MoreTags(tags, tag, ParseTagsFrom(fmt, bytes, next, targetBlocks));
      off, tags := next, tags + [tag];
    }
  }

  lemma MoreTags(tags: seq<Tag>, tag: Tag, rest: Result<seq<Tag>>)
    ensures rest.Ok? ==> tags + ([tag] + rest.value) == tags + [tag] + rest.value
  {
  }

  lemma {:induction false} BadNeverCompletes(
    geo: Geometry, ring: Ring, sequence: u32, pos: nat, consumed: nat, txn: Txn)
    requires geo.Valid() && |ring| == geo.maxLen && geo.InRing(pos)
    ensures !ScanTxn(geo, ring, sequence, pos, consumed, txn, true).Complete?
    decreases if consumed <= geo.Size() then geo.Size() - consumed else 0
  {
    hide ParseTags;
    hide ReadLogged;
    hide AllIntact;
    hide ParseHeader;
    hide Skip;
    hide IsCommitOf;
    if consumed < geo.Size() && IsHeaderOf(ring[pos], sequence) {
      var next := geo.Next(pos);
      match ParseHeader(ring[pos]).value.blockType
      case Descriptor =>
        var tags := ParseTags(geo.fmt, ring[pos], geo.targetBlocks);
        if tags.Ok? && ReadLogged(geo, ring, tags.value, next, consumed + 1).Some? {
          var logged := ReadLogged(geo, ring, tags.value, next, consumed + 1).value;
          BadNeverCompletes(geo, ring, sequence, Skip(geo, next, |tags.value|), consumed + 1 + |tags.value|,
                            txn.(logged := txn.logged + logged));
        }
      case Revoke =>
        BadNeverCompletes(geo, ring, sequence, next, consumed + 1, txn.(revokes := txn.revokes + [ring[pos]]));
      case _ =>
    }
  }

  /** What reading one more block of the walk adds. */
  lemma ReadLoggedStep(geo: Geometry, ring: Ring, tags: seq<Tag>, i: nat, pos: nat, consumed: nat, got: seq<Logged>)
    requires geo.Valid() && |ring| == geo.maxLen && geo.InRing(pos) && i < |tags| && consumed < geo.Size()
    ensures tags[i..][1..] == tags[i + 1..]
    ensures Extended(got, ReadLogged(geo, ring, tags[i..], pos, consumed))
            == Extended(got + [Logged(tags[i], ring[pos])],
                        ReadLogged(geo, ring, tags[i + 1..], geo.Next(pos), consumed + 1))
    ensures Skip(geo, pos, |tags| - i) == Skip(geo, geo.Next(pos), |tags| - (i + 1))
  {
    assert tags[i..][1..] == tags[i + 1..];
    var rest := ReadLogged(geo, ring, tags[i + 1..], geo.Next(pos), consumed + 1);
    if rest.Some? {
      assert got + ([Logged(tags[i], ring[pos])] + rest.value) == got + [Logged(tags[i], ring[pos])] + rest.value;
    }
  }

  function Extended(got: seq<Logged>, rest: Option<seq<Logged>>): Option<seq<Logged>> {
    if rest.None? then None else Some(got + rest.value)
  }

  /** The writes of one more logged block during replay. */
  lemma ReplayStep(table: RevokeTable, sequence: u32, got: seq<Logged>, l: Logged)
    ensures ReplayLogged(table, sequence, got + [l])
            == ReplayLogged(table, sequence, got)
               + (if DeletedFlag(l.tag.flags) || Revoked(table, l.tag.block, sequence) then []
                  else [Write(l.tag.block, Unescaped(l.tag.flags, l.data))])
  {
    ReplayLoggedSnoc(table, sequence, got, l);
  }

  lemma IssueMore(d: Disk, writes: seq<Write>, w: Write)
    ensures Issue(IssueAll(d, writes), w) == IssueAll(d, writes + [w])
    ensures IssueAll(d, writes + []) == IssueAll(d, writes)
  {
    assert d.pending + writes + [w] == d.pending + (writes + [w]);
  }

  lemma {:induction false} ReplayConcat(table: RevokeTable, sequence: u32, a: seq<Logged>, b: seq<Logged>)
    ensures ReplayLogged(table, sequence, a + b)
            == ReplayLogged(table, sequence, a) + ReplayLogged(table, sequence, b)
    decreases |b|
  {
    hide Revoked;
    hide Unescaped;
    hide ReplayLogged;
    if b == [] {
      assert a + b == a;
      ReplayNothing(table, sequence);
      assert ReplayLogged(table, sequence, a) + [] == ReplayLogged(table, sequence, a);
    } else {
      var n := |b| - 1;
      assert a + b == a + b[..n] + [b[n]] && b == b[..n] + [b[n]];
      ReplayConcat(table, sequence, a, b[..n]);
      ReplayStep(table, sequence, a + b[..n], b[n]);
      ReplayStep(table, sequence, b[..n], b[n]);
    }
  }

  lemma ReplayNothing(table: RevokeTable, sequence: u32)
    ensures ReplayLogged(table, sequence, []) == []
  {
  }

  /** Every disk state since `mark` is the start plus some of `sent`. */
  ghost predicate Trail(history: seq<Disk>, mark: nat, start: Disk, sent: seq<Write>) {
    forall k :: mark <= k < |history| ==> AlongTheWay(history[k], start, sent)
  }

  ghost predicate AlongTheWay(d: Disk, start: Disk, sent: seq<Write>) {
    exists m :: 0 <= m <= |sent| && d == IssueAll(start, sent[..m])
  }

  lemma TrailGrows(history: seq<Disk>, mark: nat, start: Disk, sent: seq<Write>, w: Write)
    requires Trail(history, mark, start, sent)
    ensures Trail(history, mark, start, sent + [w])
    ensures Trail(history + [IssueAll(start, sent + [w])], mark, start, sent + [w])
  {
    forall k | mark <= k < |history|
      ensures AlongTheWay(history[k], start, sent + [w])
    {
      var m :| 0 <= m <= |sent| && history[k] == IssueAll(start, sent[..m]);
      assert (sent + [w])[..m] == sent[..m];
    }
    assert (sent + [w])[..|sent| + 1] == sent + [w];
    assert AlongTheWay(IssueAll(start, sent + [w]), start, sent + [w]);
  }

  class Recovery {
    const j: Journal
    const device: BlockDevice
    var revokes: RevokeTable
    ghost var start: Disk          // the disk when recovery began
    ghost var mark: nat            // length of the device history then
    ghost var sent: seq<Write>     // home writes that reached the cache since

    constructor (j: Journal, device: BlockDevice)
      requires j.Valid() && device.Valid() && |device.disk.stable| == j.deviceBlocks
      ensures this.j == j && this.device == device && revokes == map[] && fresh(this)
      ensures Valid() && sent == [] && start == device.disk && mark == |device.history|
    {
      this.j := j;
      this.device := device;
      revokes := map[];
      start := device.disk;
      mark := |device.history|;
      sent := [];
      new;
      assert device.disk.pending + [] == device.disk.pending;
    }

    ghost predicate Valid()
      reads this, device
    {
      && j.Valid() && device.Valid() && |device.disk.stable| == j.deviceBlocks
      && device.disk == IssueAll(start, sent)
      && mark <= |device.history| && Trail(device.history, mark, start, sent)
    }

    /** The journal as it reads now. */
    ghost function Log(): (r: Ring)
      requires Valid()
      reads this, device
      ensures |r| == j.geo.maxLen
    {
      j.RingOf(View(device.disk))
    }

    method ReadJournal(pos: nat) returns (r: Result<Block>)
      requires Valid() && pos < j.geo.maxLen
      modifies device`faults
      ensures Valid()
      ensures r.Ok? ==> r.value == Log()[pos] && device.faults == old(device.faults)
      ensures r.Err? ==> device.faults > old(device.faults)
    {
      r := device.ReadBlock(j.mapping[pos]);
    }

    /** Replaying a home leaves the log alone. */
    method WriteHome(block: nat, data: Block) returns (r: Result<()>)
      requires Valid() && block < j.deviceBlocks && block !in j.geo.journal
      modifies device, this`sent
      ensures Valid() && Log() == old(Log())
      ensures r.Ok? ==> sent == old(sent) + [Write(block, data)] && device.faults == old(device.faults)
      ensures r.Err? ==>
                (sent == old(sent) || sent == old(sent) + [Write(block, data)]) && device.faults > old(device.faults)
    {
      ghost var before := device.disk;
      ghost var w := Write(block, data);
      ViewOfIssue(before, w);
      HomeWriteFrame(j, View(before), block, data);
      IssueMore(start, sent, w);
      TrailGrows(device.history, mark, start, sent, w);
      r := device.WriteBlock(Write(block, data));
      if device.disk != before {
        sent := sent + [w];
      }
    }

    /** Write one logged block home, unless it is deleted or revoked. */
    method ReplayOne(sequence: u32, l: Logged) returns (r: Result<()>)
      requires Valid() && l.tag.block < j.geo.targetBlocks
      modifies device, this`sent
      ensures Valid() && Log() == old(Log())
      ensures r.Ok? ==> sent == old(sent) + ReplayLogged(revokes, sequence, [l]) && TagAvoids(j.geo, l)
      ensures r.Ok? ==> device.faults == old(device.faults)
      ensures r.Err? ==> old(sent) <= sent <= old(sent) + ReplayLogged(revokes, sequence, [l])
      ensures r.Err? && device.faults == old(device.faults) ==> !TagAvoids(j.geo, l)
    {
      ReplayStep(revokes, sequence, [], l);
      assert [] + [l] == [l];
      if DeletedFlag(l.tag.flags) {
        return Ok(());
      }
      if l.tag.block in j.geo.journal {
        return Err(EIO);
      }
      if Revoked(revokes, l.tag.block, sequence) {
        return Ok(());
      }
      r := WriteHome(l.tag.block, Unescaped(l.tag.flags, l.data));
    }

    /** Read one data block behind a descriptor; the Replay pass writes it
        home. */
    method WalkTag(pass: Pass, sequence: u32, tag: Tag, pos: nat) returns (r: Result<bool>)
      requires Valid() && j.geo.InRing(pos) && tag.block < j.geo.targetBlocks
      modifies device, this`sent
      ensures Valid() && Log() == old(Log())
      ensures !pass.Replay? ==> sent == old(sent)
      ensures var l := Logged(tag, Log()[pos]);
              && (r.Ok? ==>
                    && r.value == TagIntact(j.geo.fmt, sequence, l) && (r.value || pass.Scan?)
                    && sent == old(sent) + WritesIn(pass, revokes, sequence, [l])
                    && (pass.Replay? ==> TagAvoids(j.geo, l))
                    && device.faults == old(device.faults))
              && (r.Err? ==> old(sent) <= sent <= old(sent) + WritesIn(pass, revokes, sequence, [l]))
              && (r.Err? && device.faults == old(device.faults) ==>
                    !pass.Scan? && (!TagIntact(j.geo.fmt, sequence, l) || (pass.Replay? && !TagAvoids(j.geo, l))))
    {
      hide ReplayLogged;
      hide TagIntact;
      hide TagAvoids;
      hide View;
      var raw := ReadJournal(pos);
      if raw.Err? {
        return Err(EIO);
      }
      var l := Logged(tag, raw.value);
      var intact := TagIntact(j.geo.fmt, sequence, l);
      if !intact && !pass.Scan? {
        return Err(EIO);
      }
      if pass.Replay? {
        var written := ReplayOne(sequence, l);
        if written.Err? {
          return Err(EIO);
        }
      }
      return Ok(intact);
    }

    /** Read the data blocks behind a descriptor; the Replay pass writes them
        home as it goes. */
    method WalkTags(pass: Pass, sequence: u32, tags: seq<Tag>, pos0: nat, consumed0: nat)
      returns (r: Result<Option<Position>>)
      requires Valid() && j.geo.InRing(pos0) && consumed0 <= j.geo.Size()
      requires forall t :: t in tags ==> t.block < j.geo.targetBlocks
      modifies device, this`sent
      ensures Valid() && Log() == old(Log())
      ensures !pass.Replay? ==> sent == old(sent)
      ensures var read := ReadLogged(j.geo, Log(), tags, pos0, consumed0);
              && (r.Ok? && r.value.None? ==> pass.Scan? && read.None? && sent == old(sent))
              && (r.Ok? && r.value.Some? ==>
                    && read.Some?
                    && r.value.value
                       == Position(Skip(j.geo, pos0, |tags|), consumed0 + |tags|,
                                   !AllIntact(j.geo.fmt, sequence, read.value))
                    && consumed0 + |tags| <= j.geo.Size()
                    && (r.value.value.bad ==> pass.Scan?)
                    && sent == old(sent) + WritesIn(pass, revokes, sequence, read.value)
                    && (pass.Replay? ==> AllAvoid(j.geo, read.value)))
              && (r.Err? && device.faults == old(device.faults) ==>
                    && !pass.Scan?
                    && (read.None? || !AllIntact(j.geo.fmt, sequence, read.value)
                        || (pass.Replay? && !AllAvoid(j.geo, read.value))))
              && (r.Err? && read.Some? ==>
                  old(sent) <= sent <= old(sent) + WritesIn(pass, revokes, sequence, read.value))
      ensures r.Ok? ==> device.faults == old(device.faults)
    {
      hide ReadLogged;
      hide Skip;
      hide WritesIn;
      hide AllIntact;
      hide AllAvoid;
      hide TagIntact;
      hide TagAvoids;
      hide ParseTags;
      hide View;
      hide Extended;
      hide Trail;
      hide IssueAll;
      ghost var ring := Log();
      ghost var got: seq<Logged> := [];
      var pos, consumed, bad := pos0, consumed0, false;
      ReadLoggedStart(j.geo, ring, tags, pos0, consumed0);
      NoTags(pass, j.geo, revokes, sequence, sent);
      for i := 0 to |tags|
        invariant Valid() && Log() == ring && j.geo.InRing(pos)
        invariant consumed == consumed0 + i <= j.geo.Size()
        invariant ReadLogged(j.geo, ring, tags, pos0, consumed0)
                  == Extended(got, ReadLogged(j.geo, ring, tags[i..], pos, consumed))
        invariant Skip(j.geo, pos0, |tags|) == Skip(j.geo, pos, |tags| - i)
        invariant bad == !AllIntact(j.geo.fmt, sequence, got) && (bad ==> pass.Scan?)
        invariant sent == old(sent) + WritesIn(pass, revokes, sequence, got)
        invariant !pass.Replay? ==> sent == old(sent)
        invariant pass.Replay? ==> AllAvoid(j.geo, got)
        invariant device.faults == old(device.faults)
      {
        if consumed >= j.geo.Size() {
          ReadLoggedEnds(j.geo, ring, tags[i..], pos, consumed, got);
          return if pass.Scan? then Ok(None) else Err(EIO);
        }
        ReadLoggedStep(j.geo, ring, tags, i, pos, consumed, got);
        ghost var l := Logged(tags[i], ring[pos]);
        TagMore(pass, j.geo, revokes, sequence, got, l,
                ReadLogged(j.geo, ring, tags[i + 1..], j.geo.Next(pos), consumed + 1));
        var intact := WalkTag(pass, sequence, tags[i], pos);
        if intact.Err? {
          return Err(EIO);
        }
        bad := bad || !intact.value;
        pos, consumed, got := j.geo.Next(pos), consumed + 1, got + [l];
      }
      ReadLoggedDone(j.geo, ring, tags, pos, consumed, got);
      return Ok(Some(Position(pos, consumed, bad)));
    }

    /** Note the records of one revoke block. */
    method InsertRevokes(records: seq<nat>, sequence: u32) returns (r: Result<()>)
      requires Valid()
      modifies this`revokes
      ensures Valid()
      ensures r.Ok? ==> revokes == RevokeMany(old(revokes), records, sequence) && NoneIn(records, j.geo.journal)
      ensures r.Err? ==> !NoneIn(records, j.geo.journal)
    {
      var i := 0;
      assert records[0..] == records;
      while i < |records|
        invariant i <= |records| && Valid()
        invariant RevokeMany(revokes, records[i..], sequence) == RevokeMany(old(revokes), records, sequence)
        invariant NoneIn(records[..i], j.geo.journal)
      {
        if records[i] in j.geo.journal {
          return Err(EIO);
        }
        assert records[i..][1..] == records[i + 1..];
        revokes := Revoke1(revokes, records[i], sequence);
        i := i + 1;
      }
      assert records[..|records|] == records;
      return Ok(());
    }

    /** Parse and note one revoke block. */
    method NoteRevokes(sequence: u32, raw: Block, ghost earlier: seq<Block>, ghost before: RevokeTable)
      returns (r: Result<()>)
      requires Valid() && Noted(j.geo, sequence, earlier, before, revokes)
      modifies this`revokes
      ensures Valid()
      ensures r.Ok? ==> Noted(j.geo, sequence, earlier + [raw], before, revokes)
      ensures r.Err? ==> TxnRevokes(j.geo, sequence, earlier + [raw]).Err?
    {
      hide ParseRevokeRecords;
      hide RevokeMany;
      hide ParseSuperblock;
      hide View;
      TxnRevokesSnoc(j.geo, sequence, earlier, raw);
      var records := ParseRevokeRecords(j.geo.fmt.features, raw, sequence, j.geo.targetBlocks);
      if records.Err? {
        return Err(records.code);
      }
      RevokeManyConcat(before, TxnRevokes(j.geo, sequence, earlier).value, records.value, sequence);
      r := InsertRevokes(records.value, sequence);
    }

    /** What a pass has done for the part `got` of a transaction. */
    ghost predicate Effects(pass: Pass, sequence: u32, got: Txn, sent0: seq<Write>, before: RevokeTable)
      reads this
    {
      && (!pass.RevokeScan? ==> revokes == before)
      && sent == sent0 + WritesIn(pass, revokes, sequence, got.logged)
      && (pass.Replay? ==> AllAvoid(j.geo, got.logged))
      && (pass.RevokeScan? ==> Noted(j.geo, sequence, got.revokes, before, revokes))
    }

    /** A pass that fails leaves at most the writes of the transaction. */
    ghost predicate Partial(pass: Pass, sequence: u32, scan: ScanResult, sent0: seq<Write>, before: RevokeTable)
      reads this
    {
      && (!pass.RevokeScan? ==> revokes == before)
      && (!pass.Replay? ==> sent == sent0)
      && (scan.Complete? ==> sent0 <= sent <= sent0 + WritesIn(pass, revokes, sequence, scan.txn.logged))
    }

    lemma NothingDone(pass: Pass, sequence: u32)
      ensures Effects(pass, sequence, NO_TXN, sent, revokes)
    {
      EmptyTxn(pass, j.geo, revokes, sequence);
    }

    lemma StillPartial(pass: Pass, sequence: u32, ring: Ring, at: Position, got: Txn, sent0: seq<Write>,
                       before: RevokeTable)
      requires j.geo.Valid() && |ring| == j.geo.maxLen && j.geo.InRing(at.pos)
      requires Effects(pass, sequence, got, sent0, before)
      ensures Partial(pass, sequence, ScanTxn(j.geo, ring, sequence, at.pos, at.consumed, got, at.bad), sent0, before)
      ensures !pass.Replay? ==> sent == sent0
      ensures !pass.RevokeScan? ==> revokes == before
    {
      hide ScanTxn;
      hide AllAvoid;
      hide Noted;
      ScanTxnExtends(j.geo, ring, sequence, at.pos, at.consumed, got, at.bad);
      PassExtends(pass, j.geo, revokes, sequence, got,
                  ScanTxn(j.geo, ring, sequence, at.pos, at.consumed, got, at.bad));
    }

    /** One descriptor and the blocks behind it. */
    method WalkDescriptor(pass: Pass, sequence: u32, raw: Block, at: Position,
                          ghost got: Txn, ghost sent0: seq<Write>, ghost before: RevokeTable)
      returns (r: Result<Option<Position>>, ghost more: Txn)
      requires Valid() && j.geo.InRing(at.pos) && at.consumed < j.geo.Size() && (at.bad ==> pass.Scan?)
      requires raw == Log()[at.pos] && ParseHeader(raw) == Ok(Header(Descriptor, sequence))
      requires Effects(pass, sequence, got, sent0, before)
      modifies device, this`sent
      ensures Valid() && Log() == old(Log())
      ensures r.Ok? ==> device.faults == old(device.faults) && Effects(pass, sequence, more, sent0, before)
      ensures var scan := ScanTxn(j.geo, Log(), sequence, at.pos, at.consumed, got, at.bad);
              && (r.Ok? && r.value.None? ==> pass.Scan? && scan.Stopped? && more == got)
              && (r.Ok? && r.value.Some? ==>
                    && var p := r.value.value;
                    && j.geo.InRing(p.pos) && at.consumed < p.consumed <= j.geo.Size() && (p.bad ==> pass.Scan?)
                    && scan == ScanTxn(j.geo, Log(), sequence, p.pos, p.consumed, more, p.bad))
              && (r.Err? && device.faults == old(device.faults) ==> PassFails(pass, j.geo, sequence, scan))
              && (r.Err? ==> Partial(pass, sequence, scan, sent0, before))
    {
      hide ScanTxn;
      hide ParseTags;
      hide ParseHeader;
      hide AllIntact;
      hide AllAvoid;
      hide ReadLogged;
      hide ReplayLogged;
      hide Skip;
      hide View;
      hide Noted;
      more := got;
      ghost var ring := Log();
      var next := j.geo.Next(at.pos);
      var damaged := j.geo.fmt.features.v3 && !j.geo.fmt.BlockChecksumValid(raw);
      DescriptorScan(pass, j.geo, ring, revokes, sequence, at, got);
      if damaged && !pass.Scan? {
        return Err(EIO), more;
      }
      var tags := ReadTags(j.geo.fmt, raw, j.geo.targetBlocks);
      if tags.Err? {
        return Err(tags.code), more;
      }
      var walked := WalkTags(pass, sequence, tags.value, next, at.consumed + 1);
      if walked.Err? {
        return Err(EIO), more;
      }
      if pass.Scan? && walked.value.None? {
        return Ok(None), more;
      }
      var p := walked.value.value;
      more := got.(logged := got.logged + ReadLogged(j.geo, ring, tags.value, next, at.consumed + 1).value);
      return Ok(Some(Position(p.pos, p.consumed, at.bad || damaged || p.bad))), more;
    }

    /** One revoke block. */
    method WalkRevoke(pass: Pass, sequence: u32, raw: Block, at: Position,
                      ghost got: Txn, ghost sent0: seq<Write>, ghost before: RevokeTable)
      returns (r: Result<Position>, ghost more: Txn)
      requires Valid() && j.geo.InRing(at.pos) && at.consumed < j.geo.Size() && (at.bad ==> pass.Scan?)
      requires raw == Log()[at.pos] && ParseHeader(raw) == Ok(Header(Revoke, sequence))
      requires Effects(pass, sequence, got, sent0, before)
      modifies device, this`sent, this`revokes
      ensures Valid() && Log() == old(Log()) && device.faults == old(device.faults)
      ensures r.Ok? ==> Effects(pass, sequence, more, sent0, before)
      ensures var scan := ScanTxn(j.geo, Log(), sequence, at.pos, at.consumed, got, at.bad);
              && (r.Ok? ==>
                    && var p := r.value;
                    && j.geo.InRing(p.pos) && at.consumed < p.consumed <= j.geo.Size() && (p.bad ==> pass.Scan?)
                    && scan == ScanTxn(j.geo, Log(), sequence, p.pos, p.consumed, more, p.bad))
              && (r.Err? ==> PassFails(pass, j.geo, sequence, scan) && Partial(pass, sequence, scan, sent0, before))
    {
      hide ScanTxn;
      hide ParseRevokeRecords;
      hide ParseHeader;
      hide AllAvoid;
      hide ReplayLogged;
      hide TxnRevokes;
      hide View;
      more := got.(revokes := got.revokes + [raw]);
      ghost var ring := Log();
      var damaged := j.geo.fmt.features.v3 && !j.geo.fmt.BlockChecksumValid(raw);
      RevokeScanned(pass, j.geo, ring, revokes, sequence, at, got);
      if damaged && !pass.Scan? {
        return Err(EIO), more;
      }
      if pass.RevokeScan? {
        var noted := NoteRevokes(sequence, raw, got.revokes, before);
        if noted.Err? {
          RevokeFails(j.geo, sequence, more.revokes, ScanTxn(j.geo, ring, sequence, at.pos, at.consumed, got, at.bad));
          return Err(EIO), more;
        }
      }
      return Ok(Position(j.geo.Next(at.pos), at.consumed + 1, at.bad || damaged)), more;
    }

    /** Walk one transaction block by block. */
    method WalkTxn(pass: Pass, sequence: u32, pos0: nat, consumed0: nat) returns (r: Result<Option<Position>>)
      requires Valid() && j.geo.InRing(pos0) && consumed0 <= j.geo.Size()
      modifies device, this`sent, this`revokes
      ensures Valid() && Log() == old(Log())
      ensures r.Ok? ==> device.faults == old(device.faults)
      ensures var scan := ScanTxn(j.geo, Log(), sequence, pos0, consumed0, NO_TXN, false);
              && (r.Ok? && r.value.None? ==>
                  pass.Scan? && scan.Stopped? && sent == old(sent) && revokes == old(revokes))
              && (r.Ok? && r.value.Some? ==>
                    && scan.Complete? && scan.pos == r.value.value.pos && scan.consumed == r.value.value.consumed
                    && Effects(pass, sequence, scan.txn, old(sent), old(revokes)))
              && (r.Err? && device.faults == old(device.faults) ==> PassFails(pass, j.geo, sequence, scan))
              && (r.Err? ==> Partial(pass, sequence, scan, old(sent), old(revokes)))
    {
      hide ParseHeader;
      hide IsCommitOf;
      hide ScanTxn;
      hide AllAvoid;
      hide ReplayLogged;
      hide WritesIn;
      hide Noted;
      hide View;
      hide PassFails;
      hide Effects;
      hide Partial;
      hide NO_TXN;
      ghost var ring, got, sent0, before := Log(), NO_TXN, sent, revokes;
      var at := Position(pos0, consumed0, false);
      NothingDone(pass, sequence);
      while at.consumed < j.geo.Size()
        invariant Valid() && Log() == ring && j.geo.InRing(at.pos) && at.consumed <= j.geo.Size()
        invariant ScanTxn(j.geo, ring, sequence, pos0, consumed0, NO_TXN, false)
                  == ScanTxn(j.geo, ring, sequence, at.pos, at.consumed, got, at.bad)
        invariant at.bad ==> pass.Scan?
        invariant Effects(pass, sequence, got, sent0, before)
        invariant device.faults == old(device.faults)
        decreases j.geo.Size() - at.consumed
      {
        StillPartial(pass, sequence, ring, at, got, sent0, before);
        var block := ReadJournal(at.pos);
        if block.Err? {
          return Err(EIO);
        }
        var raw := block.value;
        var header := ParseHeader(raw);
        if header.Err? || header.value.sequence != sequence {
          ScanEnds(pass, j.geo, ring, sequence, at, got);
          return if pass.Scan? then Ok(None) else Err(EIO);
        }
        match header.value.blockType
        case Descriptor =>
          var walked, more := WalkDescriptor(pass, sequence, raw, at, got, sent0, before);
          if walked.Err? {
            return Err(walked.code);
          }
          if walked.value.None? {
            StillPartial(pass, sequence, ring, at, got, sent0, before);
            return Ok(None);
          }
          at, got := walked.value.value, more;
        case Revoke =>
          var walked, more := WalkRevoke(pass, sequence, raw, at, got, sent0, before);
          if walked.Err? {
            return Err(walked.code);
          }
          at, got := walked.value, more;
        case Commit =>
          ScanAtCommit(pass, j.geo, ring, sequence, at, got);
          if !IsCommitOf(j.geo.fmt, raw, sequence) {
            return if pass.Scan? then Ok(None) else Err(EIO);
          }
          if at.bad {
            return Err(EIO);
          }
          return Ok(Some(Position(j.geo.Next(at.pos), at.consumed + 1, false)));
        case _ =>
          ScanEnds(pass, j.geo, ring, sequence, at, got);
          return if pass.Scan? then Ok(None) else Err(EIO);
      }
      StillPartial(pass, sequence, ring, at, got, sent0, before);
      ScanEnds(pass, j.geo, ring, sequence, at, got);
      return if pass.Scan? then Ok(None) else Err(EIO);
    }

    /** One pass over the whole log.  The later passes are told where the scan
        ended. */
    method Walk(pass: Pass, sb: Superblock, stop: Option<u32>, ghost txns: seq<Txn>) returns (r: Result<u32>)
      requires Valid() && j.geo.InRing(sb.start)
      requires pass.Scan? <==> stop.None?
      requires !pass.Scan? ==>
                 && ScanFrom(j.geo, Log(), sb.sequence, sb.start, 0) == Ok(txns)
                 && stop == Some(SequenceAfter(sb.sequence, |txns|))
      requires pass.RevokeScan? ==> revokes == map[]
      modifies device, this`sent, this`revokes
      ensures Valid() && Log() == old(Log())
      ensures !pass.RevokeScan? ==> revokes == old(revokes)
      ensures r.Ok? ==> device.faults == old(device.faults)
      ensures pass.Scan? ==>
                var scan := ScanFrom(j.geo, Log(), sb.sequence, sb.start, 0);
                && sent == old(sent)
                && (r.Ok? ==> scan.Ok? && r.value == SequenceAfter(sb.sequence, |scan.value|))
                && (r.Err? && device.faults == old(device.faults) ==> scan.Err?)
      ensures pass.RevokeScan? ==>
                && sent == old(sent)
                && (r.Ok? ==> RevokePass(j.geo, sb.sequence, txns, map[]) == Ok(revokes))
                && (r.Err? && device.faults == old(device.faults) ==> RevokePass(j.geo, sb.sequence, txns, map[]).Err?)
      ensures pass.Replay? ==>
                && (r.Ok? ==> sent == old(sent) + ReplayPass(revokes, sb.sequence, txns) && LogAvoids(j.geo, txns))
                && (r.Err? ==> old(sent) <= sent <= old(sent) + ReplayPass(revokes, sb.sequence, txns))
                && (r.Err? && device.faults == old(device.faults) ==> !LogAvoids(j.geo, txns))
    {
      hide ScanTxn;
      hide ScanFrom;
      hide ReplayPass;
      hide RevokePass;
      hide LogAvoids;
      hide View;
      hide SequenceAfter;
      hide NO_TXN;
      hide Underway;
      hide Effects;
      hide Partial;
      hide PassFails;
      ghost var ring, table, sent0 := Log(), revokes, sent;
      ghost var k, found := 0, [];
      var pos, sequence, consumed := sb.start, sb.sequence, 0;
      WalkStart(pass, j.geo, ring, sb.sequence, sb.start, txns, table, sent);
      while true
        invariant Valid() && Log() == ring && j.geo.InRing(pos) && consumed <= j.geo.Size()
        invariant device.faults == old(device.faults)
        invariant Underway(pass, j.geo, ring, sb.sequence, sb.start, sequence, pos, consumed, txns, k, found, table,
                           revokes, sent0, sent)
        decreases j.geo.Size() - consumed
      {
        if stop == Some(sequence) {
          StopReached(pass, j.geo, ring, sb.sequence, sb.start, sequence, pos, consumed, txns, k, found, table,
                      revokes, sent0, sent);
          return Ok(sequence);
        }
        ghost var sent1, revokes1 := sent, revokes;
        var one := WalkTxn(pass, sequence, pos, consumed);
        ghost var scan := ScanTxn(j.geo, ring, sequence, pos, consumed, NO_TXN, false);
        TxnFollowed(pass, j.geo, ring, sb.sequence, sb.start, sequence, pos, consumed, txns, k, found, table, revokes1,
                    sent0, sent1, scan);
        if one.Err? {
          TxnFails(pass, ring, sb.sequence, sb.start, sequence, pos, consumed, txns, k, found, table, revokes1, sent0,
                   sent1, scan);
          return Err(one.code);
        }
        if pass.Scan? && one.value.None? {
          ScanStops(pass, j.geo, ring, sb.sequence, sb.start, sequence, pos, consumed, txns, k, found, table, revokes1,
                    sent0, sent1, scan);
          return Ok(sequence);
        }
        var p := one.value.value;
        TxnDone(pass, ring, sb.sequence, sb.start, sequence, pos, consumed, txns, k, found, table, revokes1, sent0,
                sent1, scan);
        sequence, found, k := NextSequence(sequence), found + [scan.txn], k + 1;
        if p.pos == pos || p.consumed >= j.geo.Size() {
          return Ok(sequence);
        }
        pos, consumed := p.pos, p.consumed;
      }
    }

    /** A pass that failed in a transaction. */
    lemma TxnFails(pass: Pass, ring: Ring, s0: u32, start: nat, sequence: u32, pos: nat, consumed: nat, txns: seq<Txn>,
                   k: nat, found: seq<Txn>, table: RevokeTable, now: RevokeTable, sent0: seq<Write>, sent1: seq<Write>,
                   scan: ScanResult)
      requires j.geo.Valid() && |ring| == j.geo.maxLen && j.geo.InRing(start) && j.geo.InRing(pos)
               && consumed <= j.geo.Size()
      requires Underway(pass, j.geo, ring, s0, start, sequence, pos, consumed, txns, k, found, table, now, sent0, sent1)
      requires scan == ScanTxn(j.geo, ring, sequence, pos, consumed, NO_TXN, false)
      requires !pass.Scan? ==> sequence != SequenceAfter(s0, |txns|)
      requires scan.Complete? && !pass.Scan? ==> k < |txns| && scan.txn == txns[k]
      requires Partial(pass, sequence, scan, sent1, now)
      ensures !pass.RevokeScan? ==> revokes == table
      ensures !pass.Replay? ==> sent == sent0
      ensures pass.Replay? ==> sent0 <= sent <= sent0 + ReplayPass(revokes, s0, txns)
      ensures PassFails(pass, j.geo, sequence, scan) ==>
                && (pass.Scan? ==> ScanFrom(j.geo, ring, s0, start, 0).Err?)
                && (pass.RevokeScan? ==> RevokePass(j.geo, s0, txns, map[]).Err?)
                && (pass.Replay? ==> !LogAvoids(j.geo, txns))
    {
      hide ScanTxn;
      hide ScanFrom;
      hide ReplayPass;
      hide RevokePass;
      hide TxnRevokes;
      hide ReplayLogged;
      hide AllAvoid;
      hide SequenceAfter;
      hide LogAvoids;
      hide NO_TXN;
      WalkContinues(pass, s0, k, txns);
      ScanFromUnfolds(j.geo, ring, sequence, pos, consumed);
      ReplayPrefix(table, s0, txns, k);
      FailingTxn(pass, j.geo, s0, txns, k, scan);
    }

    /** One transaction more. */
    lemma TxnDone(pass: Pass, ring: Ring, s0: u32, start: nat, sequence: u32, pos: nat, consumed: nat, txns: seq<Txn>,
                  k: nat, found: seq<Txn>, table: RevokeTable, now: RevokeTable, sent0: seq<Write>, sent1: seq<Write>,
                  scan: ScanResult)
      requires j.geo.Valid() && |ring| == j.geo.maxLen && j.geo.InRing(start) && j.geo.InRing(pos)
               && consumed <= j.geo.Size()
      requires Underway(pass, j.geo, ring, s0, start, sequence, pos, consumed, txns, k, found, table, now, sent0, sent1)
      requires scan == ScanTxn(j.geo, ring, sequence, pos, consumed, NO_TXN, false) && scan.Complete?
      requires j.geo.InRing(scan.pos) && scan.consumed <= j.geo.Size()
      requires !pass.Scan? ==> sequence != SequenceAfter(s0, |txns|)
      requires !pass.Scan? ==> k < |txns| && scan.txn == txns[k]
      requires Effects(pass, sequence, scan.txn, sent1, now)
      ensures if scan.pos == pos || scan.consumed >= j.geo.Size() then
                Finished(pass, j.geo, ring, s0, start, txns, table, revokes, sent0, sent, NextSequence(sequence))
              else
                Underway(pass, j.geo, ring, s0, start, NextSequence(sequence), scan.pos, scan.consumed, txns, k + 1,
                         found + [scan.txn], table, revokes, sent0, sent)
    {
      hide ScanTxn;
      hide ScanFrom;
      hide ReplayPass;
      hide RevokePass;
      hide TxnRevokes;
      hide ReplayLogged;
      hide AllAvoid;
      hide SequenceAfter;
      hide LogAvoids;
      hide NO_TXN;
      hide Noted;
      WalkContinues(pass, s0, k, txns);
      ScanFromUnfolds(j.geo, ring, sequence, pos, consumed);
      ReplayPrefix(table, s0, txns, k);
      DoneTxn(pass, j.geo, s0, txns, k, scan);
      FollowedMore(found, scan.txn, ScanFrom(j.geo, ring, NextSequence(sequence), scan.pos, scan.consumed));
      NextAfter(s0, k);
      if scan.pos == pos || scan.consumed >= j.geo.Size() {
        LastTxn(txns, k, scan.txn);
        FollowedEnds(found + [scan.txn]);
        WalkEnds(j.geo, s0, k + 1, txns, revokes, table);
      } else {
        NotLastTxn(txns, k, scan.txn, ScanFrom(j.geo, ring, NextSequence(sequence), scan.pos, scan.consumed));
      }
    }

    /** The three passes over a journal that is not clean. */
    method Passes(sb: Superblock, ghost image: Image)
      returns (r: Result<u32>, ghost count: nat, ghost writes: seq<Write>)
      requires Valid() && sent == [] && revokes == map[] && start == Disk(image, [])
      requires |image| == j.deviceBlocks && Unclean(j, image, sb)
      modifies device, this`sent, this`revokes
      ensures Valid() && PartOfPlan(j, image, sent)
      ensures r.Ok? ==>
                && device.faults == old(device.faults)
                && Planned(j, image, count, writes) && sent == writes
                && r.value == SequenceAfter(sb.sequence, count)
      ensures r.Err? && device.faults == old(device.faults) ==> j.Recover(image).Err?
    {
      hide Plan;
      hide ScanFrom;
      hide RevokePass;
      hide ReplayPass;
      hide ParseSuperblock;
      hide UpdateSuperblock;
      hide Apply;
      hide LogAvoids;
      hide SequenceAfter;
      hide Trail;
      hide PartOfPlan;
      hide Planned;
      hide Unclean;
      UncleanFacts(j, image, sb, device.disk);
      ghost var ring := Log();
      PlanUnfolds(j.geo, ring, sb.sequence, sb.start);
      count, writes := 0, [];
      var scanned := Walk(Scan, sb, None, []);
      NoPlanYet(j, image, sb);
      if scanned.Err? {
        return Err(scanned.code), count, writes;
      }
      ghost var txns := ScanFrom(j.geo, ring, sb.sequence, sb.start, 0).value;
      var noted := Walk(RevokeScan, sb, Some(scanned.value), txns);
      if noted.Err? {
        return Err(noted.code), count, writes;
      }
      count, writes := |txns|, ReplayPass(revokes, sb.sequence, txns);
      var replayed := Walk(Replay, sb, Some(scanned.value), txns);
      PlanFrom(j, image, sb, count, writes, sent);
      if replayed.Err? {
        return Err(replayed.code), count, writes;
      }
      r := Ok(scanned.value);
    }

    /** Make the homes durable, then mark the journal clean. */
    method Close(raw: Block, sb: Superblock, tail: u32, ghost image: Image, ghost count: nat, ghost writes: seq<Write>)
      returns (r: Result<()>)
      requires Valid() && |image| == j.deviceBlocks && start == Disk(image, [])
      requires Planned(j, image, count, writes) && sent == writes
      requires raw == image[j.SuperblockId()] && ParseSuperblock(j.geo.fmt.crc, raw) == Ok(sb)
      requires tail == SequenceAfter(sb.sequence, count)
      modifies device
      ensures device.Valid() && |device.disk.stable| == j.deviceBlocks && old(device.history) <= device.history
      ensures j.Recover(image).Ok?
      ensures r.Ok? ==> device.faults == old(device.faults) && device.disk == Disk(j.Recover(image).value, [])
      ensures r.Err? ==> device.faults > old(device.faults)
      ensures forall k :: old(|device.history|) <= k < |device.history| ==> Restartable(j, image, device.history[k])
    {
      hide Plan;
      hide ParseSuperblock;
      hide UpdateSuperblock;
      hide Apply;
      hide CrashImage;
      hide Trail;
      hide Restartable;
      hide Planned;
      ClosingIsRestartable(j, image, raw, sb, count, writes);
      SequenceCount(sb.sequence, count);
      var homes := device.Flush();
      if homes.Err? {
        return Err(EIO);
      }
      var clean := UpdateSuperblock(j.geo.fmt.crc, raw, NextSequence(tail), 0, sb.features.v3);
      var sealed := device.WriteBlock(Write(j.SuperblockId(), clean));
      if sealed.Err? {
        return Err(EIO);
      }
      r := device.Flush();
    }

    /** Replay every complete transaction and make the journal clean.  The
        device ends up holding what recovery is meant to yield, and a power
        loss at any moment leaves a device that recovers to the same homes. */
    method Recover() returns (r: Result<u32>)
      requires Valid() && sent == [] && device.disk.pending == [] && revokes == map[]
      requires mark == |device.history|
      modifies this`sent, this`revokes, device
      ensures device.Valid() && |device.disk.stable| == j.deviceBlocks && |device.history| >= old(|device.history|)
      ensures r.Ok? ==>
                && device.faults == old(device.faults)
                && j.Recover(old(device.disk.stable)).Ok?
                && device.disk == Disk(j.Recover(old(device.disk.stable)).value, [])
                && Reported(j, old(device.disk.stable), r.value)
      ensures r.Err? && device.faults == old(device.faults) ==> j.Recover(old(device.disk.stable)).Err?
      ensures forall k :: old(|device.history|) <= k < |device.history| ==>
                Restartable(j, old(device.disk.stable), device.history[k])
    {
      hide Plan;
      hide ParseSuperblock;
      hide UpdateSuperblock;
      hide Apply;
      hide CrashImage;
      hide Trail;
      hide Restartable;
      hide Planned;
      hide PartOfPlan;
      hide Reported;
      ghost var image := device.disk.stable;
      ViewNow(j, device.disk);
      assert start == Disk(image, []);
      var block := device.ReadBlock(j.SuperblockId());
      if block.Err? {
        return Err(EIO);
      }
      var raw := block.value;
      var parsed := ParseSuperblock(j.geo.fmt.crc, raw);
      if parsed.Err? {
        return Err(parsed.code);
      }
      var sb := parsed.value;
      if !j.Matches(sb) {
        return Err(EIO);
      }
      if sb.start == 0 {
        NothingReported(j, image, sb);
        return Ok(0);
      }
      var tail, count, writes := Passes(sb, image);
      TrailIsRestartable(j, image, sent, device.history, mark);
      if tail.Err? {
        return Err(tail.code);
      }
      var closed := Close(raw, sb, tail.value, image, count, writes);
      if closed.Err? {
        return Err(closed.code);
      }
      CountReported(j, image, sb, count, writes);
      return Ok((tail.value - sb.sequence) % 0x1_0000_0000);
    }
  }

  /** The home writes that a pass issues for these logged blocks. */
  ghost function WritesIn(pass: Pass, table: RevokeTable, sequence: u32, logged: seq<Logged>): seq<Write> {
    if pass.Replay? then ReplayLogged(table, sequence, logged) else []
  }

  lemma ReadLoggedStart(geo: Geometry, ring: Ring, tags: seq<Tag>, pos: nat, consumed: nat)
    requires geo.Valid() && |ring| == geo.maxLen && geo.InRing(pos)
    ensures ReadLogged(geo, ring, tags, pos, consumed)
            == Extended([], ReadLogged(geo, ring, tags[0..], pos, consumed))
  {
    hide ReadLogged;
    assert tags[0..] == tags;
    var r := ReadLogged(geo, ring, tags, pos, consumed);
    if r.Some? {
      assert [] + r.value == r.value;
    }
  }

  lemma ReadLoggedEnds(geo: Geometry, ring: Ring, tags: seq<Tag>, pos: nat, consumed: nat, got: seq<Logged>)
    requires geo.Valid() && |ring| == geo.maxLen && geo.InRing(pos) && tags != [] && consumed >= geo.Size()
    ensures Extended(got, ReadLogged(geo, ring, tags, pos, consumed)) == None
  {
  }

  lemma ReadLoggedDone(geo: Geometry, ring: Ring, tags: seq<Tag>, pos: nat, consumed: nat, got: seq<Logged>)
    requires geo.Valid() && |ring| == geo.maxLen && geo.InRing(pos)
    ensures Extended(got, ReadLogged(geo, ring, tags[|tags|..], pos, consumed)) == Some(got)
    ensures Skip(geo, pos, |tags| - |tags|) == pos
  {
    assert got + [] == got;
  }

  lemma NoTags(pass: Pass, geo: Geometry, table: RevokeTable, sequence: u32, sent: seq<Write>)
    ensures AllIntact(geo.fmt, sequence, []) && AllAvoid(geo, [])
    ensures sent + WritesIn(pass, table, sequence, []) == sent
  {
    ReplayNothing(table, sequence);
  }

  /** One logged block more, of all that will be read. */
  lemma TagMore(pass: Pass, geo: Geometry, table: RevokeTable, sequence: u32, got: seq<Logged>, l: Logged,
                rest: Option<seq<Logged>>)
    ensures var more, all := got + [l], Extended(got + [l], rest);
            && (AllIntact(geo.fmt, sequence, more) <==>
                AllIntact(geo.fmt, sequence, got) && TagIntact(geo.fmt, sequence, l))
            && (AllAvoid(geo, more) <==> AllAvoid(geo, got) && TagAvoids(geo, l))
            && WritesIn(pass, table, sequence, more) == WritesIn(pass, table, sequence, got)
               + WritesIn(pass, table, sequence, [l])
            && (!pass.Replay? ==> WritesIn(pass, table, sequence, [l]) == [])
            && (all.Some? ==>
                  && WritesIn(pass, table, sequence, more) <= WritesIn(pass, table, sequence, all.value)
                  && (AllIntact(geo.fmt, sequence, all.value) ==> AllIntact(geo.fmt, sequence, more))
                  && (AllAvoid(geo, all.value) ==> AllAvoid(geo, more)))
  {
    hide ReplayLogged;
    hide TagIntact;
    hide TagAvoids;
    ReplayConcat(table, sequence, got, [l]);
    ExtendedWrites(pass, table, sequence, got + [l], rest);
    assert l in got + [l];
  }

  /** What has been written so far is part of what will be written. */
  lemma ExtendedWrites(pass: Pass, table: RevokeTable, sequence: u32, got: seq<Logged>, rest: Option<seq<Logged>>)
    ensures rest.Some? ==>
              && WritesIn(pass, table, sequence, got) <= WritesIn(pass, table, sequence, got + rest.value)
              && forall l :: l in got ==> l in got + rest.value
  {
    hide ReplayLogged;
    if rest.Some? {
      ReplayConcat(table, sequence, got, rest.value);
    }
  }

  predicate NoneIn(records: seq<nat>, journal: set<nat>) {
    forall r :: r in records ==> r !in journal
  }

  /** The Revoke pass has entered the records of these revoke blocks. */
  ghost predicate Noted(geo: Geometry, sequence: u32, blocks: seq<Block>, before: RevokeTable, after: RevokeTable) {
    var records := TxnRevokes(geo, sequence, blocks);
    records.Ok? && after == RevokeMany(before, records.value, sequence)
  }

  lemma {:induction false} TxnRevokesSnoc(geo: Geometry, sequence: u32, blocks: seq<Block>, raw: Block)
    ensures var earlier := TxnRevokes(geo, sequence, blocks);
            var records := ParseRevokeRecords(geo.fmt.features, raw, sequence, geo.targetBlocks);
            if earlier.Ok? && records.Ok? && NoneIn(records.value, geo.journal)
            then TxnRevokes(geo, sequence, blocks + [raw]) == Ok(earlier.value + records.value)
            else TxnRevokes(geo, sequence, blocks + [raw]).Err?
    decreases |blocks|
  {
    hide ParseRevokeRecords;
    if blocks == [] {
      assert (blocks + [raw])[1..] == [];
      var records := ParseRevokeRecords(geo.fmt.features, raw, sequence, geo.targetBlocks);
      assert TxnRevokes(geo, sequence, []) == Ok([]);
      assert records.Ok? ==> records.value + [] == records.value == [] + records.value;
    } else {
      assert (blocks + [raw])[1..] == blocks[1..] + [raw];
      TxnRevokesSnoc(geo, sequence, blocks[1..], raw);
      var first := ParseRevokeRecords(geo.fmt.features, blocks[0], sequence, geo.targetBlocks);
      var rest := TxnRevokes(geo, sequence, blocks[1..]);
      var records := ParseRevokeRecords(geo.fmt.features, raw, sequence, geo.targetBlocks);
      if first.Ok? && rest.Ok? && records.Ok? {
        assert first.value + (rest.value + records.value) == first.value + rest.value + records.value;
      }
    }
  }

  lemma {:induction false} RevokeManyConcat(table: RevokeTable, a: seq<nat>, b: seq<nat>, sequence: u32)
    ensures RevokeMany(table, a + b, sequence) == RevokeMany(RevokeMany(table, a, sequence), b, sequence)
    decreases |a|
  {
    if a == [] {
      assert a + b == b;
    } else {
      assert (a + b)[1..] == a[1..] + b;
      RevokeManyConcat(Revoke1(table, a[0], sequence), a[1..], b, sequence);
    }
  }

  /** A bad revoke block spoils the whole transaction. */
  lemma {:induction false} TxnRevokesPrefix(geo: Geometry, sequence: u32, a: seq<Block>, b: seq<Block>)
    requires TxnRevokes(geo, sequence, a).Err?
    ensures TxnRevokes(geo, sequence, a + b).Err?
    decreases |b|
  {
    hide ParseRevokeRecords;
    hide TxnRevokes;
    if b == [] {
      assert a + b == a;
    } else {
      var n := |b| - 1;
      assert a + b == a + b[..n] + [b[n]];
      TxnRevokesPrefix(geo, sequence, a, b[..n]);
      TxnRevokesSnoc(geo, sequence, a + b[..n], b[n]);
    }
  }

  lemma RevokeFails(geo: Geometry, sequence: u32, blocks: seq<Block>, scan: ScanResult)
    requires scan.Complete? ==> blocks <= scan.txn.revokes
    requires TxnRevokes(geo, sequence, blocks).Err?
    ensures scan.Complete? ==> TxnRevokes(geo, sequence, scan.txn.revokes).Err?
  {
    hide TxnRevokes;
    if scan.Complete? {
      var rest := scan.txn.revokes[|blocks|..];
      assert scan.txn.revokes == blocks + rest;
      TxnRevokesPrefix(geo, sequence, blocks, rest);
    }
  }

  /** The reasons for a pass to fail although every operation succeeded. */
  ghost predicate PassFails(pass: Pass, geo: Geometry, sequence: u32, scan: ScanResult) {
    || scan.Broken?
    || (!pass.Scan? && !scan.Complete?)
    || (pass.Replay? && !AllAvoid(geo, scan.txn.logged))
    || (pass.RevokeScan? && TxnRevokes(geo, sequence, scan.txn.revokes).Err?)
  }

  /** The walk at a descriptor, case by case. */
  lemma DescriptorScan(pass: Pass, geo: Geometry, ring: Ring, table: RevokeTable, sequence: u32, at: Position, got: Txn)
    requires geo.Valid() && |ring| == geo.maxLen && geo.InRing(at.pos) && at.consumed < geo.Size()
    requires ParseHeader(ring[at.pos]) == Ok(Header(Descriptor, sequence))
    ensures var scan := ScanTxn(geo, ring, sequence, at.pos, at.consumed, got, at.bad);
            var next := geo.Next(at.pos);
            var damaged := geo.fmt.features.v3 && !geo.fmt.BlockChecksumValid(ring[at.pos]);
            var tags := ParseTags(geo.fmt, ring[at.pos], geo.targetBlocks);
            && (tags.Err? ==> scan.Broken?)
            && (damaged ==> !scan.Complete?)
            && (tags.Ok? ==>
                  var read := ReadLogged(geo, ring, tags.value, next, at.consumed + 1);
                  && (read.None? ==> scan.Stopped?)
                  && (read.Some? ==>
                        && scan
                           == ScanTxn(geo, ring, sequence, Skip(geo, next, |tags.value|),
                                      at.consumed + 1 + |tags.value|,
                                           got.(logged := got.logged + read.value),
                                           at.bad || damaged || !AllIntact(geo.fmt, sequence, read.value))
                        && (!AllIntact(geo.fmt, sequence, read.value) ==> !scan.Complete?)
                        && (scan.Complete? ==>
                              && WritesIn(pass, table, sequence, got.logged)
                                 <= WritesIn(pass, table, sequence, got.logged + read.value)
                              && WritesIn(pass, table, sequence, got.logged + read.value)
                                 == WritesIn(pass, table, sequence, got.logged)
                                    + WritesIn(pass, table, sequence, read.value)
                              && WritesIn(pass, table, sequence, got.logged + read.value)
                                 <= WritesIn(pass, table, sequence, scan.txn.logged)
                              && (AllAvoid(geo, scan.txn.logged) ==> AllAvoid(geo, read.value)))
                        && (AllAvoid(geo, got.logged) && AllAvoid(geo, read.value) ==>
                            AllAvoid(geo, got.logged + read.value))
                        && WritesIn(pass, table, sequence, got.logged + read.value)
                           == WritesIn(pass, table, sequence, got.logged)
                              + WritesIn(pass, table, sequence, read.value)))
            && (scan.Complete? ==>
                WritesIn(pass, table, sequence, got.logged) <= WritesIn(pass, table, sequence, scan.txn.logged))
  {
    hide ParseTags;
    hide ParseHeader;
    hide AllIntact;
    hide ReadLogged;
    hide ReplayLogged;
    hide Skip;
    hide TagAvoids;
    var damaged := geo.fmt.features.v3 && !geo.fmt.BlockChecksumValid(ring[at.pos]);
    var next := geo.Next(at.pos);
    var tags := ParseTags(geo.fmt, ring[at.pos], geo.targetBlocks);
    var scan := ScanTxn(geo, ring, sequence, at.pos, at.consumed, got, at.bad);
    ScanTxnExtends(geo, ring, sequence, at.pos, at.consumed, got, at.bad);
    PassExtends(pass, geo, table, sequence, got, scan);
    if tags.Ok? {
      var read := ReadLogged(geo, ring, tags.value, next, at.consumed + 1);
      if read.Some? {
        var more := got.(logged := got.logged + read.value);
        var pos, consumed := Skip(geo, next, |tags.value|), at.consumed + 1 + |tags.value|;
        ScanTxnExtends(geo, ring, sequence, pos, consumed, more, at.bad || damaged
                       || !AllIntact(geo.fmt, sequence, read.value));
        BadNeverCompletes(geo, ring, sequence, pos, consumed, more);
        PassExtends(pass, geo, table, sequence, more, scan);
        ReplayConcat(table, sequence, got.logged, read.value);
      }
    }
  }

  /** The walk at a revoke block. */
  lemma RevokeScanned(pass: Pass, geo: Geometry, ring: Ring, table: RevokeTable, sequence: u32, at: Position, got: Txn)
    requires geo.Valid() && |ring| == geo.maxLen && geo.InRing(at.pos) && at.consumed < geo.Size()
    requires ParseHeader(ring[at.pos]) == Ok(Header(Revoke, sequence))
    ensures var scan := ScanTxn(geo, ring, sequence, at.pos, at.consumed, got, at.bad);
            var more := got.(revokes := got.revokes + [ring[at.pos]]);
            var damaged := geo.fmt.features.v3 && !geo.fmt.BlockChecksumValid(ring[at.pos]);
            && scan == ScanTxn(geo, ring, sequence, geo.Next(at.pos), at.consumed + 1, more, at.bad || damaged)
            && (damaged ==> !scan.Complete?)
            && (scan.Complete? ==>
                  && more.revokes <= scan.txn.revokes
                  && WritesIn(pass, table, sequence, got.logged) <= WritesIn(pass, table, sequence, scan.txn.logged))
  {
    hide ParseHeader;
    hide ReplayLogged;
    hide AllAvoid;
    var more := got.(revokes := got.revokes + [ring[at.pos]]);
    var damaged := geo.fmt.features.v3 && !geo.fmt.BlockChecksumValid(ring[at.pos]);
    ScanTxnExtends(geo, ring, sequence, geo.Next(at.pos), at.consumed + 1, more, at.bad || damaged);
    BadNeverCompletes(geo, ring, sequence, geo.Next(at.pos), at.consumed + 1, more);
    PassExtends(pass, geo, table, sequence, got, ScanTxn(geo, ring, sequence, at.pos, at.consumed, got, at.bad));
  }

  /** The walk stops where no block of this transaction follows. */
  lemma ScanEnds(pass: Pass, geo: Geometry, ring: Ring, sequence: u32, at: Position, got: Txn)
    requires geo.Valid() && |ring| == geo.maxLen && geo.InRing(at.pos)
    requires at.consumed < geo.Size() ==>
               var h := ParseHeader(ring[at.pos]);
               h.Err? || h.value.sequence != sequence || h.value.blockType.SuperblockV1?
               || h.value.blockType.SuperblockV2?
    ensures var scan := ScanTxn(geo, ring, sequence, at.pos, at.consumed, got, at.bad);
            scan.Stopped? && (!pass.Scan? ==> PassFails(pass, geo, sequence, scan))
  {
    hide ParseHeader;
  }

  lemma ScanAtCommit(pass: Pass, geo: Geometry, ring: Ring, sequence: u32, at: Position, got: Txn)
    requires geo.Valid() && |ring| == geo.maxLen && geo.InRing(at.pos) && at.consumed < geo.Size()
    requires ParseHeader(ring[at.pos]) == Ok(Header(Commit, sequence))
    ensures var scan := ScanTxn(geo, ring, sequence, at.pos, at.consumed, got, at.bad);
            if !IsCommitOf(geo.fmt, ring[at.pos], sequence)
            then scan.Stopped? && (!pass.Scan? ==> PassFails(pass, geo, sequence, scan))
            else if at.bad then scan.Broken? && PassFails(pass, geo, sequence, scan)
            else scan == Complete(geo.Next(at.pos), at.consumed + 1, got)
  {
    hide ParseHeader;
    hide IsCommitOf;
  }

  lemma EmptyTxn(pass: Pass, geo: Geometry, table: RevokeTable, sequence: u32)
    ensures WritesIn(pass, table, sequence, NO_TXN.logged) == []
    ensures AllAvoid(geo, NO_TXN.logged)
    ensures Noted(geo, sequence, NO_TXN.revokes, table, table)
  {
  }

  /** The walk only ever adds to the transaction it collects. */
  lemma {:induction false} ScanTxnExtends(
    geo: Geometry, ring: Ring, sequence: u32, pos: nat, consumed: nat, txn: Txn, bad: bool)
    requires geo.Valid() && |ring| == geo.maxLen && geo.InRing(pos)
    ensures var scan := ScanTxn(geo, ring, sequence, pos, consumed, txn, bad);
            scan.Complete? ==> txn.logged <= scan.txn.logged && txn.revokes <= scan.txn.revokes
    decreases if consumed <= geo.Size() then geo.Size() - consumed else 0
  {
    hide ParseTags;
    hide ReadLogged;
    hide AllIntact;
    hide ParseHeader;
    hide Skip;
    hide IsCommitOf;
    if consumed < geo.Size() && IsHeaderOf(ring[pos], sequence) {
      var next := geo.Next(pos);
      var damaged := geo.fmt.features.v3 && !geo.fmt.BlockChecksumValid(ring[pos]);
      match ParseHeader(ring[pos]).value.blockType
      case Descriptor =>
        var tags := ParseTags(geo.fmt, ring[pos], geo.targetBlocks);
        if tags.Ok? && ReadLogged(geo, ring, tags.value, next, consumed + 1).Some? {
          var logged := ReadLogged(geo, ring, tags.value, next, consumed + 1).value;
          ScanTxnExtends(geo, ring, sequence, Skip(geo, next, |tags.value|), consumed + 1 + |tags.value|,
                         txn.(logged := txn.logged + logged), bad || damaged || !AllIntact(geo.fmt, sequence, logged));
        }
      case Revoke =>
        ScanTxnExtends(geo, ring, sequence, next, consumed + 1, txn.(revokes := txn.revokes + [ring[pos]]), bad
                       || damaged);
      case _ =>
    }
  }

  /** So the effects so far are part of the effects of the transaction. */
  lemma PassExtends(pass: Pass, geo: Geometry, table: RevokeTable, sequence: u32, got: Txn, scan: ScanResult)
    requires scan.Complete? ==> got.logged <= scan.txn.logged && got.revokes <= scan.txn.revokes
    ensures scan.Complete? ==>
              && WritesIn(pass, table, sequence, got.logged) <= WritesIn(pass, table, sequence, scan.txn.logged)
              && (AllAvoid(geo, scan.txn.logged) ==> AllAvoid(geo, got.logged))
  {
    hide ReplayLogged;
    hide TagAvoids;
    if scan.Complete? {
      var rest := scan.txn.logged[|got.logged|..];
      assert scan.txn.logged == got.logged + rest;
      ExtendedWrites(pass, table, sequence, got.logged, Some(rest));
    }
  }

  ghost function Followed(found: seq<Txn>, rest: Result<seq<Txn>>): Result<seq<Txn>> {
    if rest.Err? then rest else Ok(found + rest.value)
  }

  lemma FollowedEnds(found: seq<Txn>)
    ensures Followed(found, Ok([])) == Ok(found)
  {
    assert found + [] == found;
  }

  lemma FollowedMore(found: seq<Txn>, txn: Txn, rest: Result<seq<Txn>>)
    ensures Followed(found, Followed([txn], rest)) == Followed(found + [txn], rest)
    ensures Followed(found, Ok([txn])) == Followed(found + [txn], Ok([]))
  {
    if rest.Ok? {
      assert found + ([txn] + rest.value) == found + [txn] + rest.value;
    }
    assert found + [txn] + [] == found + [txn];
  }

  /** The next transaction of the scan, if there is one. */
  lemma ScanFromUnfolds(geo: Geometry, ring: Ring, sequence: u32, pos: nat, consumed: nat)
    requires geo.Valid() && |ring| == geo.maxLen && geo.InRing(pos) && consumed <= geo.Size()
    ensures var scan := ScanTxn(geo, ring, sequence, pos, consumed, NO_TXN, false);
            var all := ScanFrom(geo, ring, sequence, pos, consumed);
            && (scan.Stopped? ==> all == Ok([]))
            && (scan.Broken? ==> all.Err?)
            && (scan.Complete? ==>
                  if scan.pos == pos || scan.consumed >= geo.Size() then all == Ok([scan.txn])
                  else all
                       == Followed([scan.txn], ScanFrom(geo, ring, NextSequence(sequence), scan.pos, scan.consumed)))
  {
    hide ScanTxn;
  }

  lemma ScanFromBounds(geo: Geometry, ring: Ring, sequence: u32, start: nat)
    requires geo.Valid() && |ring| == geo.maxLen && geo.InRing(start)
    ensures ScanFrom(geo, ring, sequence, start, 0).Ok? ==>
              |ScanFrom(geo, ring, sequence, start, 0).value| < 0x1_0000_0000
  {
    hide ScanFrom;
  }

  lemma NextAfter(s0: u32, k: nat)
    ensures NextSequence(SequenceAfter(s0, k)) == SequenceAfter(s0, k + 1)
  {
  }

  /** What holds between two transactions of a pass: `k` of them are behind
      it. */
  ghost predicate Underway(pass: Pass, geo: Geometry, ring: Ring, s0: u32, start: nat, sequence: u32, pos: nat,
                           consumed: nat, txns: seq<Txn>, k: nat, found: seq<Txn>, table: RevokeTable,
                           now: RevokeTable, sent0: seq<Write>, sent: seq<Write>)
    requires geo.Valid() && |ring| == geo.maxLen && geo.InRing(start) && geo.InRing(pos) && consumed <= geo.Size()
  {
    && sequence == SequenceAfter(s0, k)
    && (!pass.RevokeScan? ==> now == table)
    && (!pass.Replay? ==> sent == sent0)
    && (pass.Scan? ==>
        |found| == k
        && ScanFrom(geo, ring, s0, start, 0) == Followed(found, ScanFrom(geo, ring, sequence, pos, consumed)))
    && (!pass.Scan? ==>
          && k <= |txns| && ScanFrom(geo, ring, sequence, pos, consumed) == Ok(txns[k..])
          && ScanFrom(geo, ring, s0, start, 0) == Ok(txns))
    && (pass.RevokeScan? ==> RevokePass(geo, s0, txns, map[]) == RevokePass(geo, sequence, txns[k..], now))
    && (pass.Replay? ==> sent == sent0 + ReplayPass(table, s0, txns[..k]) && LogAvoids(geo, txns[..k]))
  }

  /** What a pass that got to the end has done. */
  ghost predicate Finished(pass: Pass, geo: Geometry, ring: Ring, s0: u32, start: nat,
                           txns: seq<Txn>, table: RevokeTable, now: RevokeTable, sent0: seq<Write>, sent: seq<Write>,
                           sequence: u32)
    requires geo.Valid() && |ring| == geo.maxLen && geo.InRing(start)
  {
    var scan := ScanFrom(geo, ring, s0, start, 0);
    && (!pass.RevokeScan? ==> now == table)
    && (!pass.Replay? ==> sent == sent0)
    && (pass.Scan? ==> scan.Ok? && sequence == SequenceAfter(s0, |scan.value|))
    && (pass.RevokeScan? ==> RevokePass(geo, s0, txns, map[]) == Ok(now))
    && (pass.Replay? ==> sent == sent0 + ReplayPass(now, s0, txns) && LogAvoids(geo, txns))
  }

  lemma WalkStart(pass: Pass, geo: Geometry, ring: Ring, s0: u32, start: nat, txns: seq<Txn>, table: RevokeTable,
                  sent: seq<Write>)
    requires geo.Valid() && |ring| == geo.maxLen && geo.InRing(start)
    requires !pass.Scan? ==> ScanFrom(geo, ring, s0, start, 0) == Ok(txns)
    requires pass.RevokeScan? ==> table == map[]
    ensures Underway(pass, geo, ring, s0, start, s0, start, 0, txns, 0, [], table, table, sent, sent)
  {
    hide ScanFrom;
    hide RevokePass;
    var all := ScanFrom(geo, ring, s0, start, 0);
    if all.Ok? {
      assert [] + all.value == all.value;
    }
    assert txns[0..] == txns && txns[..0] == [];
    assert sent + [] == sent;
  }

  lemma StopReached(pass: Pass, geo: Geometry, ring: Ring, s0: u32, start: nat, sequence: u32, pos: nat, consumed: nat,
                    txns: seq<Txn>, k: nat, found: seq<Txn>, table: RevokeTable, now: RevokeTable, sent0: seq<Write>,
                    sent: seq<Write>)
    requires geo.Valid() && |ring| == geo.maxLen && geo.InRing(start) && geo.InRing(pos) && consumed <= geo.Size()
    requires Underway(pass, geo, ring, s0, start, sequence, pos, consumed, txns, k, found, table, now, sent0, sent)
    requires !pass.Scan? && sequence == SequenceAfter(s0, |txns|)
    ensures Finished(pass, geo, ring, s0, start, txns, table, now, sent0, sent, sequence)
  {
    hide ScanFrom;
    hide ReplayPass;
    hide RevokePass;
    hide LogAvoids;
    hide SequenceAfter;
    ScanFromBounds(geo, ring, s0, start);
    WalkEnds(geo, s0, k, txns, now, table);
  }

  lemma ScanStops(pass: Pass, geo: Geometry, ring: Ring, s0: u32, start: nat, sequence: u32, pos: nat, consumed: nat,
                  txns: seq<Txn>, k: nat, found: seq<Txn>, table: RevokeTable, now: RevokeTable, sent0: seq<Write>,
                  sent: seq<Write>,
                  scan: ScanResult)
    requires geo.Valid() && |ring| == geo.maxLen && geo.InRing(start) && geo.InRing(pos) && consumed <= geo.Size()
    requires Underway(pass, geo, ring, s0, start, sequence, pos, consumed, txns, k, found, table, now, sent0, sent)
    requires pass.Scan? && scan == ScanTxn(geo, ring, sequence, pos, consumed, NO_TXN, false) && scan.Stopped?
    ensures Finished(pass, geo, ring, s0, start, txns, table, now, sent0, sent, sequence)
  {
    hide ScanTxn;
    hide ScanFrom;
    hide ReplayPass;
    hide RevokePass;
    hide LogAvoids;
    hide SequenceAfter;
    ScanFromUnfolds(geo, ring, sequence, pos, consumed);
    FollowedEnds(found);
  }

  lemma WalkEnds(geo: Geometry, s0: u32, k: nat, txns: seq<Txn>, revokes: RevokeTable, table: RevokeTable)
    ensures k == |txns| ==>
              && txns[k..] == [] && txns[..k] == txns
              && RevokePass(geo, SequenceAfter(s0, k), txns[k..], revokes) == Ok(revokes)
    ensures forall i :: 0 <= i < |txns| < 0x1_0000_0000 ==> SequenceAfter(s0, i) != SequenceAfter(s0, |txns|)
  {
    forall i | 0 <= i < |txns| < 0x1_0000_0000
      ensures SequenceAfter(s0, i) != SequenceAfter(s0, |txns|)
    {
      StopOnlyAtEnd(s0, i, |txns|);
    }
  }

  /** Short of the stop sequence there is another transaction. */
  lemma WalkContinues(pass: Pass, s0: u32, k: nat, txns: seq<Txn>)
    requires !pass.Scan? ==> k <= |txns| && SequenceAfter(s0, k) != SequenceAfter(s0, |txns|)
    ensures !pass.Scan? ==>
              k < |txns| && txns[k..] == [txns[k]] + txns[k + 1..] && txns[..k + 1] == txns[..k] + [txns[k]]
  {
  }

  lemma {:induction false} ReplayPassConcat(table: RevokeTable, s0: u32, k: nat, a: seq<Txn>, b: seq<Txn>)
    ensures ReplayPass(table, SequenceAfter(s0, k), a) <= ReplayPass(table, SequenceAfter(s0, k), a + b)
    decreases |b|
  {
    hide ReplayPass;
    if b == [] {
      assert a + b == a;
    } else {
      var n := |b| - 1;
      assert a + b == a + b[..n] + [b[n]];
      ReplayPassConcat(table, s0, k, a, b[..n]);
      ReplayPassSnoc(table, s0, k, a + b[..n], b[n]);
    }
  }

  /** The writes of the first transactions, and of one more, are part of all
      the writes. */
  lemma ReplayPrefix(table: RevokeTable, s0: u32, txns: seq<Txn>, k: nat)
    ensures k < |txns| ==>
              && ReplayPass(table, s0, txns[..k + 1])
                 == ReplayPass(table, s0, txns[..k]) + ReplayLogged(table, SequenceAfter(s0, k), txns[k].logged)
              && ReplayPass(table, s0, txns[..k + 1]) <= ReplayPass(table, s0, txns)
              && ReplayPass(table, s0, txns[..k]) <= ReplayPass(table, s0, txns)
  {
    hide ReplayPass;
    hide ReplayLogged;
    if k < |txns| {
      assert SequenceAfter(s0, 0) == s0;
      assert txns[..k + 1] == txns[..k] + [txns[k]] && txns == txns[..k + 1] + txns[k + 1..];
      ReplayPassSnoc(table, s0, 0, txns[..k], txns[k]);
      ReplayPassConcat(table, s0, 0, txns[..k + 1], txns[k + 1..]);
    }
  }

  /** The transaction at hand is the next one of the list. */
  lemma TxnFollowed(pass: Pass, geo: Geometry, ring: Ring, s0: u32, start: nat, sequence: u32, pos: nat, consumed: nat,
                    txns: seq<Txn>, k: nat, found: seq<Txn>, table: RevokeTable, now: RevokeTable, sent0: seq<Write>,
                    sent: seq<Write>,
                    scan: ScanResult)
    requires geo.Valid() && |ring| == geo.maxLen && geo.InRing(start) && geo.InRing(pos) && consumed <= geo.Size()
    requires Underway(pass, geo, ring, s0, start, sequence, pos, consumed, txns, k, found, table, now, sent0, sent)
    requires !pass.Scan? ==> sequence != SequenceAfter(s0, |txns|)
    requires scan == ScanTxn(geo, ring, sequence, pos, consumed, NO_TXN, false)
    ensures scan.Complete? ==> geo.InRing(scan.pos) && scan.consumed <= geo.Size()
    ensures scan.Complete? && !pass.Scan? ==> k < |txns| && scan.txn == txns[k]
  {
    hide ScanTxn;
    hide ScanFrom;
    hide ReplayPass;
    hide RevokePass;
    hide LogAvoids;
    hide SequenceAfter;
    hide NO_TXN;
    ScanFromUnfolds(geo, ring, sequence, pos, consumed);
    WalkContinues(pass, s0, k, txns);
    if scan.Complete? {
      NotLastTxn(txns, k, scan.txn, ScanFrom(geo, ring, NextSequence(sequence), scan.pos, scan.consumed));
      LastTxn(txns, k, scan.txn);
    }
  }

  lemma NotLastTxn(txns: seq<Txn>, k: nat, txn: Txn, rest: Result<seq<Txn>>)
    ensures k < |txns| && Followed([txn], rest) == Ok(txns[k..]) ==> rest == Ok(txns[k + 1..]) && txn == txns[k]
  {
    if k < |txns| && Followed([txn], rest) == Ok(txns[k..]) {
      assert txns[k..][0] == txns[k];
      assert ([txn] + rest.value)[1..] == rest.value && txns[k..][1..] == txns[k + 1..];
    }
  }

  lemma LastTxn(txns: seq<Txn>, k: nat, txn: Txn)
    ensures k < |txns| && txns[k..] == [txn] ==> k + 1 == |txns| && txn == txns[k]
  {
    if k < |txns| {
      assert txns[k..][0] == txns[k];
    }
  }

  lemma FailingTxn(pass: Pass, geo: Geometry, s0: u32, txns: seq<Txn>, k: nat, scan: ScanResult)
    requires !pass.Scan? ==> k < |txns| && (scan.Complete? ==> scan.txn == txns[k])
    ensures pass.Replay? && scan.Complete? && !AllAvoid(geo, scan.txn.logged) ==> !LogAvoids(geo, txns)
    ensures pass.RevokeScan? && scan.Complete? && TxnRevokes(geo, SequenceAfter(s0, k), scan.txn.revokes).Err? ==>
              forall t :: RevokePass(geo, SequenceAfter(s0, k), txns[k..], t).Err?
  {
    hide AllAvoid;
    hide TxnRevokes;
    if !pass.Scan? {
      assert txns[k] in txns && txns[k..][0] == txns[k];
    }
  }

  /** What a completed transaction adds. */
  lemma DoneTxn(pass: Pass, geo: Geometry, s0: u32, txns: seq<Txn>, k: nat, scan: ScanResult)
    requires !pass.Scan? ==> k < |txns| && scan.Complete? && scan.txn == txns[k]
    ensures !pass.Scan? && LogAvoids(geo, txns[..k]) && AllAvoid(geo, scan.txn.logged) ==> LogAvoids(geo, txns[..k + 1])
    ensures pass.RevokeScan? ==>
              forall before, after :: Noted(geo, SequenceAfter(s0, k), scan.txn.revokes, before, after) ==>
                RevokePass(geo, SequenceAfter(s0, k), txns[k..], before)
                == RevokePass(geo, SequenceAfter(s0, k + 1), txns[k + 1..], after)
  {
    hide AllAvoid;
    hide TxnRevokes;
    hide RevokeMany;
    if !pass.Scan? {
      assert txns[..k + 1] == txns[..k] + [txns[k]];
      assert txns[k..][0] == txns[k] && txns[k..][1..] == txns[k + 1..];
    }
    NextAfter(s0, k);
  }

  lemma ViewNow(j: Journal, d: Disk)
    requires d.Valid() && d.pending == []
    ensures View(d) == d.stable
  {
  }

  lemma PlanUnfolds(geo: Geometry, ring: Ring, sequence: u32, start: nat)
    requires geo.Valid() && |ring| == geo.maxLen && geo.InRing(start)
    ensures var scan := ScanFrom(geo, ring, sequence, start, 0);
            var plan := Plan(geo, ring, sequence, start);
            && (scan.Err? ==> plan.Err?)
            && (scan.Ok? ==>
                  var table := RevokePass(geo, sequence, scan.value, map[]);
                  && (table.Err? ==> plan.Err?)
                  && (table.Ok? ==>
                        plan == if LogAvoids(geo, scan.value)
                                then Ok((|scan.value|, ReplayPass(table.value, sequence, scan.value))) else Err(EIO)))
  {
    hide ScanFrom;
    hide RevokePass;
    hide ReplayPass;
    hide LogAvoids;
  }

  // ---- Starting recovery again -------------------------------------------------

  lemma SequenceCount(s0: u32, count: nat)
    ensures NextSequence(SequenceAfter(s0, count)) == SequenceAfter(s0, count + 1)
  {
  }

  /** Whatever a power loss leaves of this disk, recovery can be run again and
      gives the homes it would have given on `image`. */
  ghost predicate Restartable(j: Journal, image: Image, d: Disk)
    requires j.Valid() && |image| == j.deviceBlocks
  {
    j.Recover(image).Ok? ==>
      && d.Valid() && |d.stable| == j.deviceBlocks
      && forall left :: CrashImage(d, left) ==> RecoversAlike(j, image, left)
  }

  ghost predicate RecoversAlike(j: Journal, image: Image, left: Image)
    requires j.Valid() && |image| == j.deviceBlocks && j.Recover(image).Ok?
  {
    |left| == j.deviceBlocks && j.Recover(left).Ok? && j.SameHomes(j.Recover(left).value, j.Recover(image).value)
  }

  /** The journal on `image` is to be replayed with these writes. */
  ghost predicate Planned(j: Journal, image: Image, count: nat, writes: seq<Write>)
    requires j.Valid() && |image| == j.deviceBlocks
  {
    var parsed := ParseSuperblock(j.geo.fmt.crc, image[j.SuperblockId()]);
    && parsed.Ok? && j.Matches(parsed.value) && parsed.value.start != 0
    && Plan(j.geo, j.RingOf(image), parsed.value.sequence, parsed.value.start) == Ok((count, writes))
  }

  /** The number that recovery reports is that of the transactions it replays. */
  ghost predicate Reported(j: Journal, image: Image, n: nat)
    requires j.Valid() && |image| == j.deviceBlocks
  {
    var parsed := ParseSuperblock(j.geo.fmt.crc, image[j.SuperblockId()]);
    && parsed.Ok?
    && (parsed.value.start == 0 ==> n == 0)
    && (parsed.value.start != 0 ==> exists writes :: Planned(j, image, n, writes))
  }

  lemma NothingReported(j: Journal, image: Image, sb: Superblock)
    requires j.Valid() && |image| == j.deviceBlocks
    requires ParseSuperblock(j.geo.fmt.crc, image[j.SuperblockId()]) == Ok(sb) && sb.start == 0
    ensures Reported(j, image, 0)
  {
    hide ParseSuperblock;
  }

  lemma CountReported(j: Journal, image: Image, sb: Superblock, count: nat, writes: seq<Write>)
    requires j.Valid() && |image| == j.deviceBlocks && Planned(j, image, count, writes)
    requires ParseSuperblock(j.geo.fmt.crc, image[j.SuperblockId()]) == Ok(sb)
    ensures Reported(j, image, (SequenceAfter(sb.sequence, count) - sb.sequence) % 0x1_0000_0000)
  {
    hide ParseSuperblock;
    hide ScanFrom;
    hide RevokePass;
    hide ReplayPass;
    hide LogAvoids;
    assert count < 0x1_0000_0000;
    CountsBack(sb.sequence, count);
  }

  lemma CountsBack(s0: u32, count: nat)
    requires count < 0x1_0000_0000
    ensures (SequenceAfter(s0, count) - s0) % 0x1_0000_0000 == count
  {
  }

  /** An image in which some of the replay writes are already in place. */
  lemma RecoverAgain(j: Journal, image: Image, left: Image, count: nat, writes: seq<Write>)
    requires j.Valid() && |image| == |left| == j.deviceBlocks && Planned(j, image, count, writes)
    requires forall b :: 0 <= b < |image| ==> left[b] == image[b] || exists w :: w in writes && w.block == b
    ensures j.Recover(image).Ok? && RecoversAlike(j, image, left)
  {
    hide Plan;
    hide ParseSuperblock;
    hide UpdateSuperblock;
    hide Apply;
    forall i | 0 <= i < |j.mapping|
      ensures left[j.mapping[i]] == image[j.mapping[i]]
    {
      assert j.mapping[i] in j.geo.journal;
    }
    assert j.RingOf(left) == j.RingOf(image);
    forall b | 0 <= b < |image|
      ensures Apply(left, writes)[b] == Apply(image, writes)[b]
    {
      ApplyDecides(left, image, writes, b);
    }
  }

  /** A crash image differs from the stable image only where something was
      pending. */
  lemma CrashDiffers(d: Disk, left: Image)
    requires d.Valid() && CrashImage(d, left)
    ensures |left| == |d.stable|
    ensures forall b :: 0 <= b < |left| ==> left[b] == d.stable[b] || exists w :: w in d.pending && w.block == b
  {
    forall b | 0 <= b < |left|
      ensures left[b] == d.stable[b] || exists w :: w in d.pending && w.block == b
    {
      if forall w :: w in d.pending ==> w.block != b {
        CrashElsewhere(d, left, b);
      }
    }
  }

  lemma PlannedInRange(j: Journal, image: Image, count: nat, writes: seq<Write>)
    requires j.Valid() && |image| == j.deviceBlocks && Planned(j, image, count, writes)
    ensures forall w :: w in writes ==> w.block < |image| && w.block !in j.geo.journal
    ensures j.Recover(image).Ok?
  {
    hide Plan;
    hide ParseSuperblock;
    hide UpdateSuperblock;
    hide Apply;
  }

  /** During replay: part of the plan is pending. */
  lemma ReplayingIsRestartable(j: Journal, image: Image, count: nat, writes: seq<Write>, some: seq<Write>)
    requires j.Valid() && |image| == j.deviceBlocks && Planned(j, image, count, writes) && some <= writes
    ensures Restartable(j, image, IssueAll(Disk(image, []), some))
  {
    hide Planned;
    hide RecoversAlike;
    hide Journal.Recover;
    var d := IssueAll(Disk(image, []), some);
    assert d.pending == some;
    PlannedInRange(j, image, count, writes);
    assert forall w :: w in some ==> w in writes;
    forall left | CrashImage(d, left)
      ensures RecoversAlike(j, image, left)
    {
      CrashDiffers(d, left);
      RecoverAgain(j, image, left, count, writes);
    }
  }

  /** If `image` can be recovered, these writes are the beginning of its plan. */
  ghost predicate PartOfPlan(j: Journal, image: Image, sent: seq<Write>)
    requires j.Valid() && |image| == j.deviceBlocks
  {
    j.Recover(image).Ok? ==> exists count, writes :: Planned(j, image, count, writes) && sent <= writes
  }

  /** The journal on `image` is ours and is not clean. */
  ghost predicate Unclean(j: Journal, image: Image, sb: Superblock)
    requires j.Valid() && |image| == j.deviceBlocks
  {
    && ParseSuperblock(j.geo.fmt.crc, image[j.SuperblockId()]) == Ok(sb)
    && j.Matches(sb) && sb.start != 0
  }

  lemma UncleanFacts(j: Journal, image: Image, sb: Superblock, d: Disk)
    requires j.Valid() && |image| == j.deviceBlocks && Unclean(j, image, sb)
    requires d.Valid() && d == IssueAll(Disk(image, []), [])
    ensures j.geo.InRing(sb.start) && View(d) == image
  {
    ViewNow(j, d);
  }

  lemma NoPlanYet(j: Journal, image: Image, sb: Superblock)
    requires j.Valid() && |image| == j.deviceBlocks && Unclean(j, image, sb) && j.geo.InRing(sb.start)
    ensures PartOfPlan(j, image, [])
    ensures Plan(j.geo, j.RingOf(image), sb.sequence, sb.start).Err? ==> j.Recover(image).Err?
  {
    hide Plan;
    hide ParseSuperblock;
    hide UpdateSuperblock;
    hide Apply;
    var plan := Plan(j.geo, j.RingOf(image), sb.sequence, sb.start);
    if plan.Ok? {
      assert Planned(j, image, plan.value.0, plan.value.1);
    }
  }

  lemma PlanFrom(j: Journal, image: Image, sb: Superblock, count: nat, writes: seq<Write>, sent: seq<Write>)
    requires j.Valid() && |image| == j.deviceBlocks && Unclean(j, image, sb) && j.geo.InRing(sb.start)
    requires sent <= writes
    ensures var plan := Plan(j.geo, j.RingOf(image), sb.sequence, sb.start);
            && (plan == Ok((count, writes)) ==> Planned(j, image, count, writes) && PartOfPlan(j, image, sent))
            && (plan.Err? ==> j.Recover(image).Err? && PartOfPlan(j, image, sent))
  {
    hide Plan;
    hide ParseSuperblock;
    hide UpdateSuperblock;
    hide Apply;
  }

  lemma TrailIsRestartable(j: Journal, image: Image, sent: seq<Write>, history: seq<Disk>, mark: nat)
    requires j.Valid() && |image| == j.deviceBlocks
    requires Trail(history, mark, Disk(image, []), sent) && PartOfPlan(j, image, sent)
    ensures forall k :: mark <= k < |history| ==> Restartable(j, image, history[k])
  {
    hide Planned;
    hide RecoversAlike;
    hide Journal.Recover;
    if j.Recover(image).Ok? {
      var count, writes :| Planned(j, image, count, writes) && sent <= writes;
      forall k | mark <= k < |history|
        ensures Restartable(j, image, history[k])
      {
        var m :| 0 <= m <= |sent| && history[k] == IssueAll(Disk(image, []), sent[..m]);
        ReplayingIsRestartable(j, image, count, writes, sent[..m]);
      }
    }
  }

  /** After replay: the homes are flushed, then the superblock is written. */
  lemma ClosingIsRestartable(j: Journal, image: Image, raw: Block, sb: Superblock, count: nat, writes: seq<Write>)
    requires j.Valid() && |image| == j.deviceBlocks && Planned(j, image, count, writes)
    requires raw == image[j.SuperblockId()] && ParseSuperblock(j.geo.fmt.crc, raw) == Ok(sb)
    ensures forall w :: w in writes ==> w.block < |image| && w.block !in j.geo.journal
    ensures IssueAll(Disk(image, []), writes).Valid()
    ensures var homes := Apply(image, writes);
            var w := Write(j.SuperblockId(), j.CleanBlock(raw, sb, count));
            && Flushed(IssueAll(Disk(image, []), writes)) == Disk(homes, [])
            && Restartable(j, image, Disk(homes, []))
            && Issue(Disk(homes, []), w).Valid()
            && Restartable(j, image, Issue(Disk(homes, []), w))
            && j.Recover(image).Ok? && Flushed(Issue(Disk(homes, []), w)) == Disk(j.Recover(image).value, [])
            && Restartable(j, image, Disk(j.Recover(image).value, []))
  {
    hide Plan;
    hide ParseSuperblock;
    hide UpdateSuperblock;
    hide RecoversAlike;
    PlannedInRange(j, image, count, writes);
    var homes := Apply(image, writes);
    var clean := j.CleanBlock(raw, sb, count);
    var w := Write(j.SuperblockId(), clean);
    assert [] + writes == writes;
    ViewNow(j, Disk(homes, []));
    ViewOfIssue(Disk(homes, []), w);
    var done := homes[j.SuperblockId() := clean];
    HomesOfPlan(j, image, writes);
    assert RecoversAlike(j, image, homes) by {
      RecoverAgain(j, image, homes, count, writes);
    }
    assert RecoversAlike(j, image, done) by {
      DoneIsDone(j, image, raw, sb, count, done);
    }
    forall left | CrashImage(Disk(homes, []), left)
      ensures left == homes
    {
      CrashOfFlushed(Disk(homes, []), left);
    }
    forall left | CrashImage(Issue(Disk(homes, []), w), left)
      ensures left == homes || left == done
    {
      CrashOfFirstIssue(Disk(homes, []), w, left);
    }
    forall left | CrashImage(Disk(done, []), left)
      ensures left == done
    {
      CrashOfFlushed(Disk(done, []), left);
    }
  }

  lemma HomesOfPlan(j: Journal, image: Image, writes: seq<Write>)
    requires forall w :: w in writes ==> w.block < |image|
    ensures forall b :: 0 <= b < |image| ==>
              Apply(image, writes)[b] == image[b] || exists w :: w in writes && w.block == b
  {
    forall b | 0 <= b < |image|
      ensures Apply(image, writes)[b] == image[b] || exists w :: w in writes && w.block == b
    {
      if forall w :: w in writes ==> w.block != b {
        ApplyElsewhere(image, writes, b);
      }
    }
  }

  /** Recovering a recovered image changes nothing. */
  lemma DoneIsDone(j: Journal, image: Image, raw: Block, sb: Superblock, count: nat, done: Image)
    requires j.Valid() && |image| == |done| == j.deviceBlocks
    requires raw == image[j.SuperblockId()] && ParseSuperblock(j.geo.fmt.crc, raw) == Ok(sb) && j.Matches(sb)
    requires done[j.SuperblockId()] == j.CleanBlock(raw, sb, count)
    requires j.Recover(image) == Ok(done)
    ensures j.Recover(done) == Ok(done) && RecoversAlike(j, image, done)
  {
    hide ParseSuperblock;
    hide UpdateSuperblock;
    hide Plan;
    SuperblockRoundTrip(j.geo.fmt.crc, raw, SequenceAfter(sb.sequence, count + 1), 0);
  }
}
