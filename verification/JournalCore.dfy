/** The transaction core as the file system drives it: a single-writer token, a
    poison bit, the journal context, and a commit whose every device operation
    is one step of the state machine of JournalRun. */
module JournalCore {
  import opened Bytes
  import opened BlockStore
  import opened Jbd2
  import opened LogTags
  import opened JournalLog
  import opened JournalRoundTrip
  import opened JournalImage
  import opened JournalRun
  import opened JournalSafety

  datatype CommitError = CommitError(code: ErrCode, failure: CommitFailure)

  // ---- Staged images: a map kept in home order -------------------------------

  predicate Ordered(staged: seq<Entry>) {
    forall i, k :: 0 <= i < k < |staged| ==> staged[i].home < staged[k].home
  }

  /** The staged images by home. */
  function Contents(staged: seq<Entry>): map<nat, Block>
    decreases |staged|
  {
    if staged == [] then map[]
    else
      var n := |staged| - 1;
      Contents(staged[..n])[staged[n].home := staged[n].image]
  }

  lemma EmptyContents(cache: map<nat, Block>)
    ensures cache + Contents([]) == cache
  {
  }

  lemma {:induction false} ContentsConcat(a: seq<Entry>, b: seq<Entry>)
    ensures Contents(a + b) == Contents(a) + Contents(b)
    decreases |b|
  {
    if b == [] {
      assert a + b == a;
    } else {
      var n := |b| - 1;
      assert (a + b)[..|a + b| - 1] == a + b[..n];
      ContentsConcat(a, b[..n]);
    }
  }

  lemma {:induction false} ContentsKeys(staged: seq<Entry>, home: nat)
    ensures home in Contents(staged) <==> exists i :: 0 <= i < |staged| && staged[i].home == home
    decreases |staged|
  {
    if staged != [] {
      var n := |staged| - 1;
      ContentsKeys(staged[..n], home);
      assert forall i :: 0 <= i < n ==> staged[..n][i] == staged[i];
    }
  }

  /** Each staged image is the one its home maps to. */
  lemma {:induction false} ContentsAt(staged: seq<Entry>, i: nat)
    requires Ordered(staged) && i < |staged|
    ensures staged[i].home in Contents(staged) && Contents(staged)[staged[i].home] == staged[i].image
    decreases |staged|
  {
    if i < |staged| - 1 {
      ContentsAt(staged[..|staged| - 1], i);
    }
  }

  /** Where `home` is, or where it belongs. */
  method Search(staged: seq<Entry>, home: PBlock) returns (i: nat)
    requires Ordered(staged)
    ensures i <= |staged|
    ensures forall k :: 0 <= k < i ==> staged[k].home < home
    ensures forall k :: i <= k < |staged| ==> home <= staged[k].home
  {
    i := 0;
    while i < |staged| && staged[i].home < home
      invariant i <= |staged| && forall k :: 0 <= k < i ==> staged[k].home < home
    {
      i := i + 1;
    }
  }

  method Insert(staged: seq<Entry>, home: PBlock, image: Block) returns (r: seq<Entry>)
    requires Ordered(staged)
    ensures Ordered(r) && Contents(r) == Contents(staged)[home := image]
    ensures |r| == if home in Contents(staged) then |staged| else |staged| + 1
  {
    hide Contents;
    var i := Search(staged, home);
    var present := i < |staged| && staged[i].home == home;
    var rest := if present then staged[i + 1..] else staged[i..];
    r := staged[..i] + [Entry(home, image)] + rest;
    ContentsKeys(staged, home);
    OrderedInsert(staged[..i], Entry(home, image), rest);
    ContentsOfInsert(staged[..i], if present then [staged[i]] else [], rest, Entry(home, image));
    assert staged == staged[..i] + (if present then [staged[i]] else []) + rest;
  }

  lemma OrderedInsert(before: seq<Entry>, e: Entry, after: seq<Entry>)
    requires Ordered(before) && Ordered(after)
    requires forall i :: 0 <= i < |before| ==> before[i].home < e.home
    requires forall i :: 0 <= i < |after| ==> e.home < after[i].home
    ensures Ordered(before + [e] + after)
  {
  }

  lemma ContentsOfInsert(before: seq<Entry>, at: seq<Entry>, after: seq<Entry>, e: Entry)
    requires at == [] || (|at| == 1 && at[0].home == e.home)
    requires forall i :: 0 <= i < |after| ==> after[i].home != e.home
    ensures Contents(before + [e] + after) == Contents(before + at + after)[e.home := e.image]
  {
    hide Contents;
    ContentsConcat(before, [e]);
    ContentsConcat(before + [e], after);
    ContentsConcat(before, at);
    ContentsConcat(before + at, after);
    ContentsKeys(after, e.home);
    ContentsOfOne(e);
    ContentsOfOne(if at == [] then e else at[0]);
    assert at == [] || at == [at[0]];
    MergeAround(Contents(before), Contents(at), Contents(after), e.home, e.image);
  }

  lemma ContentsOfOne(e: Entry)
    ensures Contents([e]) == map[e.home := e.image] && Contents([]) == map[]
  {
    assert [e][..0] == [];
  }

  lemma MergeAround(a: map<nat, Block>, o: map<nat, Block>, c: map<nat, Block>, home: nat, image: Block)
    requires o.Keys <= {home} && home !in c
    ensures a + map[home := image] + c == (a + o + c)[home := image]
  {
  }

  // ---- The superblock image ----------------------------------------------------

  lemma InsidePrefix(a: seq<byte>, n: nat, lo: nat, hi: nat)
    requires lo <= hi <= n <= |a|
    ensures a[..n][lo..hi] == a[lo..hi]
  {
  }

  /** The parser of the superblock only looks at its first 1024 bytes. */
  lemma ParseSuperblockWindow(crc: Crc, a: seq<byte>, b: seq<byte>)
    requires |a| >= SUPERBLOCK_BYTES && |b| >= SUPERBLOCK_BYTES
    requires a[..SUPERBLOCK_BYTES] == b[..SUPERBLOCK_BYTES]
    ensures ParseSuperblock(crc, a) == ParseSuperblock(crc, b)
  {
    forall lo, hi | 0 <= lo <= hi <= SUPERBLOCK_BYTES
      ensures a[lo..hi] == b[lo..hi]
    {
      InsidePrefix(a, SUPERBLOCK_BYTES, lo, hi);
      InsidePrefix(b, SUPERBLOCK_BYTES, lo, hi);
    }
    assert a[..252] == a[0..252] && b[..252] == b[0..252];
    assert a[..HEADER_BYTES] == a[0..HEADER_BYTES] && b[..HEADER_BYTES] == b[0..HEADER_BYTES];
    HeaderWindow(a, b);
    Be32Window(a, 12, b, 12);
    Be32Window(a, 16, b, 16);
    Be32Window(a, 20, b, 20);
    Be32Window(a, 24, b, 24);
    Be32Window(a, 28, b, 28);
    Be32Window(a, 32, b, 32);
    Be32Window(a, 36, b, 36);
    Be32Window(a, 40, b, 40);
    Be32Window(a, 44, b, 44);
    Be32Window(a, 252, b, 252);
    assert a[80] == a[80..81][0] && b[80] == b[80..81][0];
  }

  /** A superblock image with a new tail, laid over whatever block was read,
      is a superblock with that tail. */
  lemma OverlayPoints(j: Journal, image: seq<byte>, old_: Block, sequence: u32, start: u32)
    requires j.Valid() && |image| == SUPERBLOCK_BYTES
    requires ParseSuperblock(j.geo.fmt.crc, image).Ok? && j.Matches(ParseSuperblock(j.geo.fmt.crc, image).value)
    requires start == 0 || j.geo.InRing(start)
    ensures var updated := UpdateSuperblock(j.geo.fmt.crc, image, sequence, start, j.geo.fmt.features.v3);
            && j.PointsTo(Put(old_, 0, updated), sequence, start)
            && ParseSuperblock(j.geo.fmt.crc, updated)
               == Ok(ParseSuperblock(j.geo.fmt.crc, image).value.(sequence := sequence, start := start))
  {
    hide ParseSuperblock;
    hide UpdateSuperblock;
    var updated := UpdateSuperblock(j.geo.fmt.crc, image, sequence, start, j.geo.fmt.features.v3);
    SuperblockRoundTrip(j.geo.fmt.crc, image, sequence, start);
    var block := Put(old_, 0, updated);
    assert block[..SUPERBLOCK_BYTES] == block[0..0 + |updated|] == updated == updated[..SUPERBLOCK_BYTES];
    ParseSuperblockWindow(j.geo.fmt.crc, block, updated);
  }

  // ---- Runs --------------------------------------------------------------------

  lemma ExtendRun(j: Journal, base: Image, run: seq<State>, step: Step, s: State)
    requires IsRun(j, base, run) && run != [] && OnDevice(j, Last(run)) && |base| == j.deviceBlocks
    requires Commits(j, Last(run), step, s)
    ensures IsRun(j, base, run + [s]) && Last(run + [s]) == s
  {
    hide Commits;
    hide Recovers;
    hide Start;
    assert (run + [s])[..|run|] == run;
    assert Next(j, base, Last(run), step, s);
  }

  lemma RunOnDevice(j: Journal, base: Image, run: seq<State>)
    requires IsRun(j, base, run)
    ensures run != [] && OnDevice(j, Last(run)) && |base| == j.deviceBlocks
  {
    hide Inv;
    RunSafe(j, base, run);
    InvParts(j, base, Last(run));
  }

  /** Between two states of one commit only the disk and the phase differ. */
  ghost predicate Within(before: State, after: State) {
    after == before.(disk := after.disk, phase := after.phase)
  }

  class Core {
    const j: Journal
    const device: BlockDevice
    var superblock: Superblock
    var head: nat
    var superblockImage: seq<byte>
    var writer: bool
    var poisoned: bool
    var cache: map<nat, Block>       // what the publisher shows to readers
    ghost const base: Image
    ghost var run: seq<State>

    /** The device is where the run says it is. */
    ghost predicate Running()
      reads this`run, device
    {
      && j.Valid() && device.Valid()
      && IsRun(j, base, run) && run != []
      && OnDevice(j, Last(run)) && |base| == j.deviceBlocks
      && device.disk == Last(run).disk
    }

    ghost predicate Context()
      reads this`superblock, this`superblockImage
    {
      && |superblockImage| == SUPERBLOCK_BYTES
      && ParseSuperblock(j.geo.fmt.crc, superblockImage) == Ok(superblock)
      && j.Matches(superblock) && superblock.start == 0
    }

    ghost predicate Valid()
      reads this, device
    {
      && Running() && Context()
      && (poisoned <==> Last(run).failure.Some?)
      && (!poisoned ==>
            && Last(run).phase.Ready?
            && Last(run).sequence == superblock.sequence && Last(run).head == head && j.geo.InRing(head))
    }

    /** The transactions that took effect. */
    ghost function Done(): seq<seq<Entry>>
      requires Running()
      reads this`run, device
    {
      Last(run).done
    }

    /** Take over a clean journal. */
    constructor (j: Journal, device: BlockDevice, superblock: Superblock, superblockImage: seq<byte>, ghost base: Image)
      requires j.Valid() && device.Valid() && device.disk.pending == []
               && |device.disk.stable| == |base| == j.deviceBlocks
      requires |superblockImage| == SUPERBLOCK_BYTES
      requires ParseSuperblock(j.geo.fmt.crc, superblockImage) == Ok(superblock)
      requires j.Matches(superblock) && superblock.start == 0
      requires j.Idle(device.disk.stable, superblock.sequence, base)
      ensures Valid() && !writer && !poisoned && Done() == []
      ensures this.j == j && this.device == device && this.superblock == superblock && this.base == base
    {
      hide Journal.Idle;
      hide ParseSuperblock;
      this.j := j;
      this.device := device;
      this.superblock := superblock;
      this.superblockImage := superblockImage;
      this.base := base;
      head := superblock.first;
      writer, poisoned, cache := false, false, map[];
      run := [State(device.disk, Ready, superblock.sequence, superblock.first, None, [])];
    }

    /** Hand out the writer token, if the credits can never outgrow the ring. */
    method Start(credits: nat) returns (r: Result<Transaction>)
      requires Valid()
      modifies this`writer
      ensures Valid()
      ensures r.Ok? <==> credits != 0 && !poisoned && !old(writer)
                         && RequiredLogBlocks(credits, superblock.features) <= j.geo.Size()
      ensures r.Ok? ==> fresh(r.value) && r.value.core == this && r.value.credits == credits && r.value.staged == []
                        && r.value.Valid() && r.value.ownsWriter
      ensures writer == (old(writer) || r.Ok?)
      ensures r.Err? ==>
                r.code == if credits == 0 then EINVAL
                          else if poisoned then EROFS
                          else if old(writer) then EAGAIN
                          else E2BIG
    {
      hide IsRun;
      hide ParseSuperblock;
      hide RequiredLogBlocks;
      if credits == 0 || poisoned {
        return Err(if credits == 0 then EINVAL else EROFS);
      }
      if writer {
        return Err(EAGAIN);
      }
      writer := true;
      var available := RingLen(superblock);
      if available.Err? || RequiredLogBlocks(credits, superblock.features) > available.value {
        writer := false;
        return Err(E2BIG);
      }
      var t := new Transaction(this, credits);
      return Ok(t);
    }

    /** One block write of the protocol.  If it lands, the run moves. */
    method Issue(w: Write, ghost step: Step, ghost s: State) returns (r: Result<()>)
      requires Running() && w.block < j.deviceBlocks
      requires Commits(j, Last(run), step, s) && s.disk == BlockStore.Issue(Last(run).disk, w)
      modifies device, this`run
      ensures Running() && old(run) <= run
      ensures r.Ok? ==> Last(run) == s && device.faults == old(device.faults)
      ensures r.Err? ==>
                (Last(run) == s || Last(run) == old(Last(run))) && r.code == EIO && device.faults > old(device.faults)
    {
      hide Commits;
      hide IsRun;
      ghost var before := device.disk;
      ExtendRun(j, base, run, step, s);
      RunOnDevice(j, base, run + [s]);
      r := device.WriteBlock(w);
      if device.disk != before {
        run := run + [s];
      }
    }

    /** One flush of the protocol. */
    method Barrier(ghost step: Step, ghost s: State) returns (r: Result<()>)
      requires Running() && Commits(j, Last(run), step, s) && s.disk == Flushed(Last(run).disk)
      modifies device, this`run
      ensures Running() && old(run) <= run
      ensures r.Ok? ==> Last(run) == s && device.faults == old(device.faults)
      ensures r.Err? ==> Last(run) == old(Last(run)) && r.code == EIO && device.faults > old(device.faults)
    {
      hide Commits;
      hide IsRun;
      ExtendRun(j, base, run, step, s);
      RunOnDevice(j, base, run + [s]);
      r := device.Flush();
      if r.Ok? {
        run := run + [s];
      }
    }

    /** Read the superblock's block and write it back with a new image. */
    method WriteSuperblock(image: seq<byte>, ghost step: Block -> Step, ghost after: Block -> State)
      returns (r: Result<()>)
      requires Running() && |image| == SUPERBLOCK_BYTES
      requires forall old_: Block ::
                 var b: Block := Put(old_, 0, image);
                 && Commits(j, Last(run), step(b), after(b))
                 && after(b).disk == BlockStore.Issue(Last(run).disk, Write(j.SuperblockId(), b))
      modifies device, this`run
      ensures Running() && old(run) <= run
      ensures r.Ok? ==> (exists b: Block :: Last(run) == after(b)) && device.faults == old(device.faults)
      ensures r.Err? ==>
                (Last(run) == old(Last(run)) || exists b: Block :: Last(run) == after(b)) && r.code == EIO
                && device.faults > old(device.faults)
    {
      hide Commits;
      hide IsRun;
      var block := device.ReadBlock(j.SuperblockId());
      if block.Err? {
        return Err(EIO);
      }
      var b: Block := Put(block.value, 0, image);
      r := Issue(Write(j.SuperblockId(), b), step(b), after(b));
    }

    /** Make the active tail durable. */
    method PublishTail(image: seq<byte>, ghost tx: LogTxn) returns (r: Result<()>)
      requires Running() && Last(run).phase.Ready? && Last(run).failure.None?
      requires j.Logs(tx) && tx.sequence == Last(run).sequence && tx.head == Last(run).head
      requires |image| == SUPERBLOCK_BYTES
      requires forall old_: Block :: j.PointsTo(Put(old_, 0, image), tx.sequence, tx.head)
      modifies device, this`run
      ensures Running() && old(run) <= run && Within(old(Last(run)), Last(run))
      ensures r.Ok? ==> Last(run).phase == Payload(tx, 0) && device.faults == old(device.faults)
      ensures r.Err? ==>
                (Last(run).phase.Ready? || Last(run).phase == TailIssued(tx)) && r.code == EIO
                && device.faults > old(device.faults)
    {
      hide IsRun;
      hide Journal.Logs;
      hide Journal.PointsTo;
      ghost var s := Last(run);
      r := WriteSuperblock(image, (b: Block) => IssueTail(tx, b),
                           (b: Block) => s.(disk := BlockStore.Issue(s.disk, Write(j.SuperblockId(), b)),
                                            phase := TailIssued(tx)));
      if r.Ok? {
        ghost var t := Last(run);
        r := Barrier(FlushTail, t.(disk := Flushed(t.disk), phase := Payload(tx, 0)));
      }
    }

    /** Write the log payload to its ring slots and make it durable. */
    method WriteLog(encoded: seq<Block>, positions: seq<nat>, ghost tx: LogTxn) returns (r: Result<()>)
      requires Running() && Last(run).phase == Payload(tx, 0) && Last(run).failure.None? && j.Logs(tx)
      requires encoded == tx.Blocks(j.geo.fmt) && |positions| == |encoded| + 1
      requires forall i :: 0 <= i < |positions| ==> positions[i] < j.geo.maxLen && positions[i] == tx.Slot(j.geo, i)
      modifies device, this`run
      ensures Running() && old(run) <= run && Within(old(Last(run)), Last(run))
      ensures r.Ok? ==> Last(run).phase == Loaded(tx) && device.faults == old(device.faults)
      ensures r.Err? ==>
                Last(run).phase.Payload? && Last(run).phase.tx == tx && r.code == EIO
                && device.faults > old(device.faults)
    {
      hide IsRun;
      hide LogBlocks;
      for i := 0 to |encoded|
        invariant Running() && old(run) <= run && Within(old(Last(run)), Last(run))
        invariant Last(run).phase == Payload(tx, i) && device.faults == old(device.faults)
      {
        ghost var s := Last(run);
        var w := Write(j.mapping[positions[i]], encoded[i]);
        var written := Issue(w, WritePayload, s.(disk := BlockStore.Issue(s.disk, w), phase := Payload(tx, i + 1)));
        if written.Err? {
          return Err(EIO);
        }
      }
      ghost var t := Last(run);
      r := Barrier(FlushPayload, t.(disk := Flushed(t.disk), phase := Loaded(tx)));
    }

    /** Write the commit record and make it durable. */
    method WriteCommit(commit: Block, position: nat, ghost tx: LogTxn) returns (r: Result<()>)
      requires Running() && Last(run).phase == Loaded(tx) && Last(run).failure.None? && j.Logs(tx)
      requires commit == CommitBlock(j.geo.fmt, tx.sequence)
      requires position < j.geo.maxLen && position == tx.Slot(j.geo, |tx.Blocks(j.geo.fmt)|)
      modifies device, this`run
      ensures Running() && old(run) <= run && Within(old(Last(run)), Last(run))
      ensures r.Ok? ==> Last(run).phase == Checkpointing(tx, 0) && device.faults == old(device.faults)
      ensures r.Err? ==>
                Last(run).phase in {Loaded(tx), CommitIssued(tx)} && r.code == EIO && device.faults > old(device.faults)
    {
      hide IsRun;
      hide LogBlocks;
      hide CommitBlock;
      ghost var s := Last(run);
      var w := Write(j.mapping[position], commit);
      r := Issue(w, IssueCommit, s.(disk := BlockStore.Issue(s.disk, w), phase := CommitIssued(tx)));
      if r.Ok? {
        ghost var t := Last(run);
        r := Barrier(FlushCommit, t.(disk := Flushed(t.disk), phase := Checkpointing(tx, 0)));
      }
    }

    /** Write every home block and make them durable. */
    method Checkpoint(staged: seq<Entry>, ghost tx: LogTxn) returns (r: Result<()>)
      requires Running() && Last(run).phase == Checkpointing(tx, 0) && Last(run).failure.None? && j.Logs(tx)
      requires staged == tx.entries
      modifies device, this`run
      ensures Running() && old(run) <= run && Within(old(Last(run)), Last(run))
      ensures r.Ok? ==> Last(run).phase == Durable(tx) && device.faults == old(device.faults)
      ensures r.Err? ==>
                Last(run).phase.Checkpointing? && Last(run).phase.tx == tx && r.code == EIO
                && device.faults > old(device.faults)
    {
      hide IsRun;
      hide LogBlocks;
      j.HomesInRange(tx);
      for i := 0 to |staged|
        invariant Running() && old(run) <= run && Within(old(Last(run)), Last(run))
        invariant Last(run).phase == Checkpointing(tx, i) && device.faults == old(device.faults)
      {
        ghost var s := Last(run);
        assert staged[i] in tx.entries;
        var w := Write(staged[i].home, staged[i].image);
        var written := Issue(w, WriteHome, s.(disk := BlockStore.Issue(s.disk, w), phase := Checkpointing(tx, i + 1)));
        if written.Err? {
          return Err(EIO);
        }
      }
      ghost var t := Last(run);
      r := Barrier(FlushHomes, t.(disk := Flushed(t.disk), phase := Durable(tx)));
    }

    /** The callback of the cache layer.  It is handed images that are already
        durable in their homes. */
    method Publish(staged: seq<Entry>)
      requires Running() && Last(run).phase.Durable? && Last(run).phase.tx.entries == staged
      modifies this`cache
      ensures cache == old(cache) + Contents(staged)
    {
      cache := cache + Contents(staged);
    }

    /** Write the clean superblock. */
    method CleanTail(image: seq<byte>, ghost tx: LogTxn) returns (r: Result<()>)
      requires Running() && Last(run).phase == Durable(tx) && Last(run).failure.None? && j.Logs(tx)
      requires |image| == SUPERBLOCK_BYTES
      requires forall old_: Block :: j.PointsTo(Put(old_, 0, image), Last(run).sequence + 1, 0)
      modifies device, this`run
      ensures Running() && old(run) <= run
      ensures r.Ok? ==>
                && device.faults == old(device.faults)
                && Last(run) == State(device.disk, Ready, old(Last(run)).sequence + 1,
                                      j.geo.Next(tx.Slot(j.geo, |tx.Blocks(j.geo.fmt)|)), None,
                                      old(Last(run)).done + [tx.entries])
      ensures r.Err? ==>
                && Within(old(Last(run)), Last(run)) && Last(run).phase in {Durable(tx), CleanIssued(tx)}
                && r.code == EIO && device.faults > old(device.faults)
    {
      hide IsRun;
      hide LogBlocks;
      hide Journal.PointsTo;
      ghost var s := Last(run);
      r := WriteSuperblock(image, (b: Block) => IssueClean(b),
                           (b: Block) => s.(disk := BlockStore.Issue(s.disk, Write(j.SuperblockId(), b)),
                                            phase := CleanIssued(tx)));
      if r.Ok? {
        ghost var t := Last(run);
        r := Barrier(FlushClean, State(Flushed(t.disk), Ready, t.sequence + 1,
                                       j.geo.Next(tx.Slot(j.geo, |tx.Blocks(j.geo.fmt)|)), None,
                                       t.done + [tx.entries]));
      }
    }

    /** The device operations up to the commit point.  On failure the run stops
        in a phase that the returned label describes. */
    method DriveLog(encoded: seq<Block>, commit: Block, positions: seq<nat>, active: seq<byte>, ghost tx: LogTxn)
      returns (r: Option<CommitFailure>)
      requires Running() && Last(run).phase.Ready? && Last(run).failure.None?
      requires j.Logs(tx) && tx.sequence == Last(run).sequence && tx.head == Last(run).head
      requires encoded == tx.Blocks(j.geo.fmt) && commit == CommitBlock(j.geo.fmt, tx.sequence)
      requires |positions| == |encoded| + 1
      requires forall i :: 0 <= i < |positions| ==> positions[i] < j.geo.maxLen && positions[i] == tx.Slot(j.geo, i)
      requires |active| == SUPERBLOCK_BYTES
      requires forall old_: Block :: j.PointsTo(Put(old_, 0, active), tx.sequence, tx.head)
      modifies device, this`run
      ensures Running() && old(run) <= run && Within(old(Last(run)), Last(run))
      ensures r.None? ==> device.faults == old(device.faults) && Last(run).phase == Checkpointing(tx, 0)
      ensures r.Some? ==>
                && device.faults > old(device.faults)
                && !r.value.TailUpdateFailed? && FailsAs(Last(run).phase, r.value)
    {
      hide IsRun;
      hide LogBlocks;
      hide CommitBlock;
      hide Journal.Logs;
      hide Journal.PointsTo;
      hide Apply;
      hide RingAt;
      var tail := PublishTail(active, tx);
      if tail.Err? {
        return Some(BeforeCommit);
      }
      var logged := WriteLog(encoded, positions, tx);
      if logged.Err? {
        return Some(BeforeCommit);
      }
      var committed := WriteCommit(commit, positions[|positions| - 1], tx);
      if committed.Err? {
        return Some(CommitUncertain);
      }
      return None;
    }

    /** The device operations behind the commit point. */
    method DriveHomes(clean: seq<byte>, staged: seq<Entry>, ghost tx: LogTxn) returns (r: Option<CommitFailure>)
      requires Running() && Last(run).phase == Checkpointing(tx, 0) && Last(run).failure.None?
      requires j.Logs(tx) && staged == tx.entries && tx.sequence == Last(run).sequence
      requires |clean| == SUPERBLOCK_BYTES
      requires forall old_: Block :: j.PointsTo(Put(old_, 0, clean), tx.sequence + 1, 0)
      modifies device, this`run, this`cache
      ensures Running() && old(run) <= run
      ensures r.None? ==>
                && device.faults == old(device.faults)
                && Last(run) == State(device.disk, Ready, tx.sequence + 1,
                                      j.geo.Next(tx.Slot(j.geo, |tx.Blocks(j.geo.fmt)|)), None,
                                      old(Last(run)).done + [tx.entries])
      ensures r.Some? ==>
                && device.faults > old(device.faults)
                && Within(old(Last(run)), Last(run)) && FailsAs(Last(run).phase, r.value)
      ensures cache == if r.None? || r.value.TailUpdateFailed? then old(cache) + Contents(staged) else old(cache)
    {
      hide IsRun;
      hide LogBlocks;
      hide Contents;
      hide Journal.Logs;
      hide Journal.PointsTo;
      hide Apply;
      hide RingAt;
      var written := Checkpoint(staged, tx);
      if written.Err? {
        return Some(CheckpointFailed);
      }
      Publish(staged);
      var cleaned := CleanTail(clean, tx);
      if cleaned.Err? {
        return Some(TailUpdateFailed);
      }
      return None;
    }

    /** All device operations of one commit. */
    method Drive(encoded: seq<Block>, commit: Block, positions: seq<nat>, active: seq<byte>, clean: seq<byte>,
                 staged: seq<Entry>, ghost tx: LogTxn) returns (r: Option<CommitFailure>)
      requires Running() && Last(run).phase.Ready? && Last(run).failure.None?
      requires j.Logs(tx) && tx.sequence == Last(run).sequence && tx.head == Last(run).head && staged == tx.entries
      requires encoded == tx.Blocks(j.geo.fmt) && commit == CommitBlock(j.geo.fmt, tx.sequence)
      requires |positions| == |encoded| + 1
      requires forall i :: 0 <= i < |positions| ==> positions[i] < j.geo.maxLen && positions[i] == tx.Slot(j.geo, i)
      requires |active| == SUPERBLOCK_BYTES && |clean| == SUPERBLOCK_BYTES
      requires forall old_: Block :: j.PointsTo(Put(old_, 0, active), tx.sequence, tx.head)
      requires forall old_: Block :: j.PointsTo(Put(old_, 0, clean), tx.sequence + 1, 0)
      modifies device, this`run, this`cache
      ensures Running() && old(run) <= run
      ensures r.None? ==>
                && device.faults == old(device.faults)
                && Last(run) == State(device.disk, Ready, tx.sequence + 1,
                                      j.geo.Next(tx.Slot(j.geo, |tx.Blocks(j.geo.fmt)|)), None,
                                      old(Last(run)).done + [tx.entries])
      ensures r.Some? ==>
                device.faults > old(device.faults) && Last(run).failure.None? && FailsAs(Last(run).phase, r.value)
      ensures cache == if r.None? || r.value.TailUpdateFailed? then old(cache) + Contents(staged) else old(cache)
    {
      hide IsRun;
      hide LogBlocks;
      hide CommitBlock;
      hide Contents;
      hide Journal.Logs;
      hide Journal.PointsTo;
      hide Apply;
      hide RingAt;
      hide FailsAs;
      r := DriveLog(encoded, commit, positions, active, tx);
      if r.None? {
        r := DriveHomes(clean, staged, tx);
      }
    }

    /** The context after a commit. */
    method Adopt(sb: Superblock, next: nat, image: seq<byte>)
      requires Running() && !poisoned && Last(run).phase.Ready? && Last(run).failure.None?
      requires Last(run).sequence == sb.sequence && Last(run).head == next && j.geo.InRing(next)
      requires |image| == SUPERBLOCK_BYTES && ParseSuperblock(j.geo.fmt.crc, image) == Ok(sb)
      requires j.Matches(sb) && sb.start == 0
      modifies this`superblock, this`head, this`superblockImage
      ensures Valid() && superblock == sb && head == next && superblockImage == image
    {
      hide IsRun;
      hide ParseSuperblock;
      superblock := sb;
      head := next;
      superblockImage := image;
    }

    /** No transaction starts any more, whatever the device does. */
    method Poison(ghost failure: CommitFailure)
      requires Running() && Last(run).failure.None? && FailsAs(Last(run).phase, failure)
      modifies this`poisoned, this`run
      ensures Running() && poisoned && old(run) <= run
      ensures Last(run) == old(Last(run)).(failure := Some(failure))
    {
      hide IsRun;
      poisoned := true;
      ghost var s := Last(run).(failure := Some(failure));
      ExtendRun(j, base, run, Fail(failure), s);
      run := run + [s];
    }
  }

  /** A home outside the file system or inside the journal. */
  predicate OffLimits(j: Journal, staged: seq<Entry>) {
    exists e :: e in staged && (e.home >= j.geo.targetBlocks || e.home in j.geo.journal)
  }

  /** A commit refuses these images before it touches the device: recovery
      could not find some home from its tag, or must not write it. */
  ghost predicate Rejected(j: Journal, reliableFlush: bool, sequence: u32, staged: seq<Entry>) {
    !reliableFlush || OffLimits(j, staged) || !AllReadBack(j.geo.fmt, sequence, staged)
  }

  /** The error code of a refusal. */
  ghost predicate RefusedAs(j: Journal, reliableFlush: bool, staged: seq<Entry>, code: ErrCode) {
    if reliableFlush && OffLimits(j, staged) then code == EINVAL
    else
      && code == ENOTSUP
      && (reliableFlush ==>
            && !(j.geo.fmt.features.v3 && j.geo.fmt.features.has64bit)
            && exists e :: e in staged && e.home >= 0x1_0000_0000)
  }

  class Transaction {
    const core: Core
    const credits: nat
    var staged: seq<Entry>
    var ownsWriter: bool

    constructor (core: Core, credits: nat)
      requires core.Valid() && credits > 0 && core.writer
      requires RequiredLogBlocks(credits, core.superblock.features) <= core.j.geo.Size()
      ensures this.core == core && this.credits == credits && staged == [] && ownsWriter && Valid()
    {
      this.core := core;
      this.credits := credits;
      staged := [];
      ownsWriter := true;
    }

    /** An open transaction holds the token, and its credits fit the ring. */
    ghost predicate Valid()
      reads this, core, core.device
    {
      && core.Valid()
      && Ordered(staged) && |staged| <= credits
      && (ownsWriter ==> core.writer)
      && RequiredLogBlocks(credits, core.j.geo.fmt.features) <= core.j.geo.Size()
    }

    ghost function Staged(): map<nat, Block>
      reads this
    {
      Contents(staged)
    }

    /** Replace the final image of a home; staging a home again is free. */
    method Stage(home: PBlock, image: Block) returns (r: Result<()>)
      requires Valid()
      modifies this`staged
      ensures Valid()
      ensures r.Ok? <==> home in old(Staged()) || old(|staged|) < credits
      ensures r.Ok? ==> Staged() == old(Staged())[home := image]
      ensures r.Err? ==> r.code == E2BIG && staged == old(staged)
    {
      hide IsRun;
      hide RequiredLogBlocks;
      hide ParseSuperblock;
      hide Contents;
      var i := Search(staged, home);
      var present := i < |staged| && staged[i].home == home;
      ContentsKeys(staged, home);
      if !present && |staged| == credits {
        return Err(E2BIG);
      }
      staged := Insert(staged, home, image);
      return Ok(());
    }

    /** The transaction's own view of a home: its latest image if there is one,
        otherwise the device block, which becomes staged. */
    method ReadForUpdate(home: PBlock) returns (r: Result<Block>)
      requires Valid()
      modifies this`staged, core.device`faults
      ensures Valid()
      ensures r.Ok? && home in old(Staged()) ==> r.value == old(Staged())[home] && Staged() == old(Staged())
      ensures r.Ok? && home !in old(Staged()) ==>
                && home < core.j.deviceBlocks && r.value == View(core.device.disk)[home]
                && Staged() == old(Staged())[home := r.value] && old(|staged|) < credits
      ensures r.Err? ==>
                && staged == old(staged) && home !in Staged()
                && (r.code == E2BIG || r.code == EIO) && (r.code == E2BIG <==> |staged| == credits)
                && (r.code == EIO ==> home >= core.j.deviceBlocks || core.device.faults > old(core.device.faults))
    {
      hide IsRun;
      hide RequiredLogBlocks;
      hide ParseSuperblock;
      hide Contents;
      hide Apply;
      var i := Search(staged, home);
      ContentsKeys(staged, home);
      if i < |staged| && staged[i].home == home {
        ContentsAt(staged, i);
        return Ok(staged[i].image);
      }
      if |staged| == credits {
        return Err(E2BIG);
      }
      r := core.device.ReadBlock(home);
      if r.Ok? {
        staged := Insert(staged, home, r.value);
      }
    }

    method ReleaseWriter()
      modifies this`ownsWriter, core`writer
      ensures !ownsWriter && core.writer == (old(core.writer) && !old(ownsWriter))
    {
      if ownsWriter {
        ownsWriter := false;
        core.writer := false;
      }
    }

    /** Drop the staged images; nothing reaches the device. */
    method Abort()
      requires Valid() && ownsWriter
      modifies this`ownsWriter, core`writer
      ensures Valid() && !ownsWriter && !core.writer
    {
      ReleaseWriter();
    }

    /** The entry point: a transaction without images costs nothing. */
    method Commit() returns (r: Option<CommitError>)
      requires Valid() && ownsWriter && !core.poisoned && core.superblock.sequence + 2 < U32_LIMIT
      modifies this, core, core.device
      ensures core.Valid() && !ownsWriter && !core.writer && old(core.run) <= core.run
      ensures old(staged) == [] ==> r.None? && core.run == old(core.run) && core.cache == old(core.cache)
      ensures r.None? && old(staged) != [] ==>
                !core.poisoned && core.Done() == old(core.Done()) + [old(staged)]
      ensures r.Some? && core.poisoned ==>
                Last(core.run).failure == Some(r.value.failure) && core.device.faults > old(core.device.faults)
      ensures r.Some? && !core.poisoned ==> r.value.failure == BeforeCommit && core.run == old(core.run)
      ensures r.Some? && !core.poisoned <==>
                old(staged) != []
                && Rejected(core.j, core.device.reliableFlush, old(core.superblock.sequence), old(staged))
      ensures r.Some? && !core.poisoned ==>
                RefusedAs(core.j, core.device.reliableFlush, old(staged), r.value.code)
      ensures r.Some? && core.poisoned ==> r.value.code == EIO
      ensures core.cache == if r.None? || r.value.failure.TailUpdateFailed? then old(core.cache) + old(Staged())
              else old(core.cache)
    {
      hide IsRun;
      hide RequiredLogBlocks;
      hide ParseSuperblock;
      EmptyContents(core.cache);
      if staged == [] {
        ReleaseWriter();
        return None;
      }
      r := CommitJournal();
    }

    /** Everything that can be refused is refused before the first write. */
    method Prepare() returns (r: Result<(seq<Block>, Block, seq<nat>)>)
      requires Valid() && !core.poisoned && staged != [] && core.superblock.sequence + 2 < U32_LIMIT
      ensures r.Ok? <==> !Rejected(core.j, core.device.reliableFlush, core.superblock.sequence, staged)
      ensures r.Err? ==> RefusedAs(core.j, core.device.reliableFlush, staged, r.code)
      ensures r.Ok? ==>
                var tx := LogTxn(core.superblock.sequence, core.head, staged);
                var (encoded, commit, positions) := r.value;
                && core.j.Logs(tx) && encoded == tx.Blocks(core.j.geo.fmt)
                && commit == CommitBlock(core.j.geo.fmt, tx.sequence)
                && |positions| == |encoded| + 1
                && forall i :: 0 <= i < |positions| ==>
                     positions[i] < core.j.geo.maxLen && positions[i] == tx.Slot(core.j.geo, i)
    {
      hide IsRun;
      hide ParseSuperblock;
      hide LogBlocks;
      hide CommitBlock;
      hide RequiredLogBlocks;
      hide ReadsBack;
      if !core.device.reliableFlush {
        return Err(ENOTSUP);
      }
      var j, sb := core.j, core.superblock;
      var needed := RequiredLogBlocks(|staged|, sb.features);
      RequiredMonotone(|staged|, credits, sb.features);
      var available := RingLen(sb);
      if available.Err? || needed > available.value {
        assert false;   // the reservation made by Start rules out E2BIG
      }
      var positions := RingPositions(sb, core.head, needed);
      if OffLimits(j, staged) {
        return Err(EINVAL);
      }
      var encoded := EncodeLog(j.geo.fmt, sb.sequence, staged);
      if encoded.Err? {
        return Err(encoded.code);
      }
      LogLength(j.geo.fmt, sb.sequence, staged);
      AllEncodableIffReadBack(j.geo.fmt, sb.sequence, staged);
      PreparedLogs(j, LogTxn(sb.sequence, core.head, staged));
      return Ok((encoded.value, CommitBlock(j.geo.fmt, sb.sequence), positions.value));
    }

    /** Commit through the journal. */
    method CommitJournal() returns (r: Option<CommitError>)
      requires Valid() && ownsWriter && !core.poisoned && staged != [] && core.superblock.sequence + 2 < U32_LIMIT
      modifies this`ownsWriter, core, core.device
      ensures core.Valid() && !ownsWriter && !core.writer && old(core.run) <= core.run
      ensures r.None? ==>
                && !core.poisoned && core.Done() == old(core.Done()) + [staged]
                && core.superblock == old(core.superblock).(sequence := old(core.superblock.sequence) + 1)
                && core.device.faults == old(core.device.faults)
      ensures r.Some? && core.poisoned ==> Last(core.run).failure == Some(r.value.failure)
      ensures r.Some? && !core.poisoned ==> r.value.failure == BeforeCommit && core.run == old(core.run)
      ensures r.Some? ==>
                core.superblock == old(core.superblock) && core.head == old(core.head)
      ensures r.Some? && core.poisoned ==> core.device.faults > old(core.device.faults)
      ensures r.Some? && !core.poisoned <==>
                Rejected(core.j, core.device.reliableFlush, old(core.superblock.sequence), staged)
      ensures r.Some? && !core.poisoned ==> RefusedAs(core.j, core.device.reliableFlush, staged, r.value.code)
      ensures r.Some? && core.poisoned ==> r.value.code == EIO
      ensures core.cache == if r.None? || r.value.failure.TailUpdateFailed? then old(core.cache) + Staged()
              else old(core.cache)
    {
      hide IsRun;
      hide ParseSuperblock;
      hide UpdateSuperblock;
      hide LogBlocks;
      hide CommitBlock;
      hide RequiredLogBlocks;
      hide Contents;
      hide Rejected;
      hide RefusedAs;
      hide Journal.Logs;
      hide Journal.PointsTo;
      hide Apply;
      hide RingAt;
      hide FailsAs;
      hide Ordered;
      hide OnDevice;
      hide BlockDevice.Valid;
      var prepared := Prepare();
      if prepared.Err? {
        ReleaseWriter();
        return Some(CommitError(prepared.code, BeforeCommit));
      }
      var (encoded, commit, positions) := prepared.value;
      var j, sb := core.j, core.superblock;
      ghost var tx := LogTxn(sb.sequence, core.head, staged);
      var active := UpdateSuperblock(j.geo.fmt.crc, core.superblockImage, sb.sequence, core.head, sb.features.v3);
      var clean := UpdateSuperblock(j.geo.fmt.crc, core.superblockImage, sb.sequence + 1, 0, sb.features.v3);
      Overlays(j, core.superblockImage, sb.sequence, core.head);
      Overlays(j, core.superblockImage, sb.sequence + 1, 0);

      var failed := core.Drive(encoded, commit, positions, active, clean, staged, tx);
      if failed.Some? {
        r := Fail(EIO, failed.value);
        return;
      }
      HeadStays(j, tx);
      core.Adopt(sb.(sequence := sb.sequence + 1, start := 0), j.geo.Next(positions[|positions| - 1]), clean);
      ReleaseWriter();
      return None;
    }

    /** Poison the core and give the token back. */
    method Fail(code: ErrCode, failure: CommitFailure) returns (r: Option<CommitError>)
      requires core.Running() && core.Context()
      requires Last(core.run).failure.None? && FailsAs(Last(core.run).phase, failure)
      requires ownsWriter
      modifies this`ownsWriter, core`writer, core`poisoned, core`run
      ensures core.Valid() && core.poisoned && !ownsWriter && !core.writer && old(core.run) <= core.run
      ensures Last(core.run).failure == Some(failure) && r == Some(CommitError(code, failure))
    {
      hide IsRun;
      hide ParseSuperblock;
      core.Poison(failure);
      ReleaseWriter();
      return Some(CommitError(code, failure));
    }
  }

  lemma HeadStays(j: Journal, tx: LogTxn)
    requires j.Valid() && j.Logs(tx)
    ensures |tx.Blocks(j.geo.fmt)| < j.geo.Size()
    ensures j.geo.InRing(j.geo.Next(tx.Slot(j.geo, |tx.Blocks(j.geo.fmt)|)))
  {
    hide LogBlocks;
    RingAtInside(j.geo.first, j.geo.maxLen, tx.head, |tx.Blocks(j.geo.fmt)|);
  }

  lemma Overlays(j: Journal, image: seq<byte>, sequence: u32, start: u32)
    requires j.Valid() && |image| == SUPERBLOCK_BYTES
    requires ParseSuperblock(j.geo.fmt.crc, image).Ok? && j.Matches(ParseSuperblock(j.geo.fmt.crc, image).value)
    requires start == 0 || j.geo.InRing(start)
    ensures var updated := UpdateSuperblock(j.geo.fmt.crc, image, sequence, start, j.geo.fmt.features.v3);
            && |updated| == SUPERBLOCK_BYTES
            && (forall old_: Block :: j.PointsTo(Put(old_, 0, updated), sequence, start))
            && ParseSuperblock(j.geo.fmt.crc, updated)
               == Ok(ParseSuperblock(j.geo.fmt.crc, image).value.(sequence := sequence, start := start))
  {
    hide ParseSuperblock;
    hide UpdateSuperblock;
    hide Journal.PointsTo;
    OverlayPoints(j, image, Zeros(BLOCK_SIZE), sequence, start);
    forall old_: Block
      ensures j.PointsTo(Put(old_, 0, UpdateSuperblock(j.geo.fmt.crc, image, sequence, start, j.geo.fmt.features.v3)),
                         sequence, start)
    {
      OverlayPoints(j, image, old_, sequence, start);
    }
  }

  lemma PreparedLogs(j: Journal, tx: LogTxn)
    requires j.Valid() && j.geo.InRing(tx.head) && tx.sequence + 2 < U32_LIMIT
    requires tx.Needed(j.geo.fmt) <= j.geo.Size() && tx.entries != [] && Ordered(tx.entries)
    requires AllEncodable(j.geo.fmt.features, tx.entries)
    requires forall e :: e in tx.entries ==> e.home < j.geo.targetBlocks && e.home !in j.geo.journal
    ensures j.Logs(tx)
  {
    hide LogBlocks;
  }

  /** What a caller may rely on while the core accepts transactions: every
      commit that returned success survives any power loss, and nothing else
      does. */
  lemma CommittedSurvives(core: Core, image: Image)
    requires core.Valid() && !core.poisoned && CrashImage(core.device.disk, image)
    ensures |image| == core.j.deviceBlocks && core.j.Recover(image).Ok?
    ensures core.j.SameHomes(core.j.Recover(image).value, Homes(core.base, core.Done()))
  {
    hide IsRun;
    hide Journal.Recover;
    hide Homes;
    hide ParseSuperblock;
    CrashAtomicity(core.j, core.base, core.run, image);
  }
}
