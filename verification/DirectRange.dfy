/** Appending a zeroed range without a journal: the blocks are zeroed and
    flushed, then marked allocated and flushed, and only then does the inode
    that reaches them go out. */
module DirectRange {
  import opened Bytes
  import opened BlockStore

  const ZERO_CHUNK_BLOCKS: nat := 8

  /** A transaction-private image and, for rollback, what the device held. */
  datatype Staged = Staged(original: Option<Block>, image: Block)

  datatype Failure = Failure(code: ErrCode, kind: CommitFailure)

  /** The data blocks that the new extent maps. */
  datatype Range = Range(first: nat, count: nat)
  {
    predicate Contains(b: nat) {
      first <= b < first + count
    }
  }

  // ---- What a power loss may show ----------------------------------------------

  /** No power loss shows the secret, if there is one, in block `b`. */
  ghost predicate NeverShows(d: Disk, b: nat, secret: Option<Block>) {
    && d.Valid()
    && (secret.Some? ==>
          b < |d.stable| && forall image :: CrashImage(d, image) && b < |image| ==> image[b] != secret.value)
  }

  ghost predicate ZeroedIn(image: Image, range: Range) {
    forall b: nat :: range.Contains(b) ==> b < |image| && image[b] == Zeros(BLOCK_SIZE)
  }

  /** Every power loss leaves the range zeroed. */
  ghost predicate AlwaysZeroed(d: Disk, range: Range) {
    d.Valid() && forall image :: CrashImage(d, image) ==> ZeroedIn(image, range)
  }

  ghost predicate OwnedIn(image: Image, homes: seq<nat>, staged: map<nat, Staged>) {
    forall h :: h in homes ==> h < |image| && h in staged && image[h] == staged[h].image
  }

  /** Wherever a power loss strikes: an inode that reaches the range implies
      that its blocks are zeroed and marked allocated. */
  ghost predicate Ordered(d: Disk, range: Range, homes: seq<nat>, inodeHome: nat, staged: map<nat, Staged>) {
    && d.Valid()
    && inodeHome in staged
    && forall image :: CrashImage(d, image) && inodeHome < |image| && image[inodeHome] == staged[inodeHome].image ==>
         ZeroedIn(image, range) && OwnedIn(image, homes, staged)
  }

  ghost predicate OrderedSince(history: seq<Disk>, mark: nat,
                               range: Range, homes: seq<nat>, inodeHome: nat, staged: map<nat, Staged>)
  {
    forall k :: mark <= k < |history| ==> Ordered(history[k], range, homes, inodeHome, staged)
  }

  lemma NothingHidden(d: Disk, b: nat)
    requires d.Valid()
    ensures NeverShows(d, b, None)
  {
  }

  lemma StaysHidden(d: Disk, w: Write, b: nat, secret: Option<Block>)
    requires NeverShows(d, b, secret) && w.block < |d.stable| && w.block != b
    ensures NeverShows(Issue(d, w), b, secret)
  {
    ViewOfIssue(d, w);
    if secret.Some? {
      forall image | CrashImage(Issue(d, w), image) && b < |image|
        ensures image[b] != secret.value
      {
        var before := CrashOfIssue(d, w, image);
      }
    }
  }

  lemma StaysZeroed(d: Disk, w: Write, range: Range)
    requires AlwaysZeroed(d, range) && w.block < |d.stable| && !range.Contains(w.block)
    ensures AlwaysZeroed(Issue(d, w), range)
  {
    ViewOfIssue(d, w);
    forall image | CrashImage(Issue(d, w), image)
      ensures ZeroedIn(image, range)
    {
      var before := CrashOfIssue(d, w, image);
    }
  }

  lemma FlushFacts(d: Disk)
    requires d.Valid()
    ensures Flushed(d).Valid() && View(Flushed(d)) == View(d) && |View(d)| == |d.stable|
    ensures forall image :: CrashImage(Flushed(d), image) ==> image == View(d)
    ensures CrashImage(d, View(d))
  {
    ViewIsCrashImage(d);
    forall image | CrashImage(Flushed(d), image)
      ensures image == View(d)
    {
      CrashOfFlushed(Flushed(d), image);
    }
  }

  lemma HiddenIsOrdered(d: Disk, range: Range, homes: seq<nat>, inodeHome: nat, staged: map<nat, Staged>)
    requires inodeHome in staged && NeverShows(d, inodeHome, Some(staged[inodeHome].image))
    ensures Ordered(d, range, homes, inodeHome, staged)
  {
  }

  /** The inode goes out over durable allocation metadata. */
  lemma InodeIsOrdered(d: Disk, range: Range, homes: seq<nat>, inodeHome: nat, staged: map<nat, Staged>)
    requires d.Valid() && d.pending == [] && inodeHome < |d.stable| && inodeHome in staged
    requires ZeroedIn(d.stable, range) && !range.Contains(inodeHome)
    requires OwnedIn(d.stable, homes, staged) && inodeHome !in homes
    ensures Ordered(Issue(d, Write(inodeHome, staged[inodeHome].image)), range, homes, inodeHome, staged)
  {
    hide CrashImage;
    hide ZeroedIn;
    hide OwnedIn;
    var w := Write(inodeHome, staged[inodeHome].image);
    ViewOfIssue(d, w);
    assert View(d) == d.stable;
    ElsewhereKept(d.stable, inodeHome, w.data, range, homes, staged);
    forall image | CrashImage(Issue(d, w), image)
      ensures ZeroedIn(image, range) && OwnedIn(image, homes, staged)
    {
      CrashOfFirstIssue(d, w, image);
    }
  }

  lemma ElsewhereKept(image: Image, b: nat, data: Block, range: Range, homes: seq<nat>, staged: map<nat, Staged>)
    requires ZeroedIn(image, range) && OwnedIn(image, homes, staged)
    requires b < |image| && !range.Contains(b) && b !in homes
    ensures ZeroedIn(image[b := data], range) && OwnedIn(image[b := data], homes, staged)
  {
  }

  /** The views agree except at these blocks. */
  ghost predicate Patched(view: Image, view0: Image, touched: seq<nat>) {
    |view| == |view0| && forall b: nat :: b < |view| && b !in touched ==> view[b] == view0[b]
  }

  lemma PatchMore(view: Image, view0: Image, touched: seq<nat>, b: nat, data: Block)
    requires Patched(view, view0, touched) && b < |view|
    ensures Patched(view[b := data], view0, touched + [b]) && Patched(view, view0, touched + [b])
  {
  }

  lemma PatchLess(view: Image, view0: Image, touched: seq<nat>, b: nat)
    requires Patched(view, view0, touched + [b]) && b < |view|
    ensures Patched(view[b := view0[b]], view0, touched)
  {
    forall c: nat | c < |view| && c !in touched
      ensures view[b := view0[b]][c] == view0[c]
    {
    }
  }

  lemma OwnedMore(view: Image, homes: seq<nat>, staged: map<nat, Staged>, h: nat)
    requires OwnedIn(view, homes, staged) && h < |view| && h in staged
    ensures OwnedIn(view[h := staged[h].image], homes + [h], staged)
  {
  }

  /** The range is zeroed and the inode is not out yet, whatever survives. */
  ghost predicate Guarded(d: Disk, range: Range, inodeHome: nat, secret: Option<Block>) {
    NeverShows(d, inodeHome, secret) && AlwaysZeroed(d, range)
  }

  ghost predicate HiddenSince(history: seq<Disk>, mark: nat, inodeHome: nat, secret: Option<Block>) {
    mark <= |history| && forall k :: mark <= k < |history| ==> NeverShows(history[k], inodeHome, secret)
  }

  lemma HiddenMore(history: seq<Disk>, mark: nat, d: Disk, inodeHome: nat, secret: Option<Block>)
    requires HiddenSince(history, mark, inodeHome, secret) && NeverShows(d, inodeHome, secret)
    ensures HiddenSince(history + [d], mark, inodeHome, secret)
  {
    hide NeverShows;
  }

  class DirectCore {
    const device: BlockDevice
    const targetBlocks: nat
    var writer: bool
    var poisoned: bool
    var cache: map<nat, Block>

    ghost predicate Valid()
      reads this, device
    {
      device.Valid() && targetBlocks <= |device.disk.stable|
    }

    constructor (device: BlockDevice, targetBlocks: nat)
      requires device.Valid() && 0 < targetBlocks <= |device.disk.stable|
      ensures Valid() && !writer && !poisoned && this.device == device && this.targetBlocks == targetBlocks
    {
      this.device := device;
      this.targetBlocks := targetBlocks;
      writer, poisoned, cache := false, false, map[];
    }

    method Start(credits: nat) returns (r: Result<DirectTransaction>)
      requires Valid()
      modifies this`writer
      ensures Valid()
      ensures r.Ok? <==> credits != 0 && !poisoned && !old(writer)
      ensures r.Ok? ==>
                fresh(r.value) && r.value.core == this && r.value.staged == map[] && r.value.ownsWriter
                && r.value.Valid()
      ensures writer == (old(writer) || r.Ok?)
      ensures r.Err? ==> r.code == if credits == 0 then EINVAL else if poisoned then EROFS else EAGAIN
    {
      if credits == 0 || poisoned {
        return Err(if credits == 0 then EINVAL else EROFS);
      }
      if writer {
        return Err(EAGAIN);
      }
      writer := true;
      var t := new DirectTransaction(this, credits);
      return Ok(t);
    }

    /** Zero blocks `first + done .. first + upto` of the range, one chunk. */
    method WriteZeros(range: Range, done: nat, upto: nat, ghost view0: Image, ghost mark: nat, ghost inodeHome: nat,
                      ghost secret: Option<Block>)
      returns (r: Result<()>)
      requires Valid() && done <= upto <= range.count
      requires Zeroing(View(device.disk), view0, range, done)
      requires NeverShows(device.disk, inodeHome, secret) && !range.Contains(inodeHome)
      requires HiddenSince(device.history, mark, inodeHome, secret)
      modifies device
      ensures Valid() && |device.disk.stable| == old(|device.disk.stable|)
      ensures NeverShows(device.disk, inodeHome, secret)
      ensures HiddenSince(device.history, mark, inodeHome, secret)
      ensures r.Ok? ==> Zeroing(View(device.disk), view0, range, upto) && device.faults == old(device.faults)
      ensures r.Err? ==> ZeroingPart(View(device.disk), view0, range)
      ensures r.Err? && range.first + range.count <= |device.disk.stable| ==> device.faults > old(device.faults)
    {
      hide NeverShows;
      hide HiddenSince;
      hide Zeroing;
      hide ZeroingPart;
      hide Apply;
      for i := done to upto
        invariant Valid() && |device.disk.stable| == old(|device.disk.stable|)
        invariant NeverShows(device.disk, inodeHome, secret)
        invariant HiddenSince(device.history, mark, inodeHome, secret)
        invariant Zeroing(View(device.disk), view0, range, i)
        invariant device.faults == old(device.faults)
      {
        var w := Write(range.first + i, Zeros(BLOCK_SIZE));
        ZeroingIsPart(View(device.disk), view0, range, i);
        ViewLength(device.disk);
        if w.block < |device.disk.stable| {
          ViewOfIssue(device.disk, w);
          StaysHidden(device.disk, w, inodeHome, secret);
          HiddenMore(device.history, mark, Issue(device.disk, w), inodeHome, secret);
          ZeroOneMore(View(device.disk), view0, range, i);
        }
        var written := device.WriteBlock(w);
        if written.Err? {
          return Err(EIO);
        }
      }
      return Ok(());
    }

    /** Zero the whole range chunk by chunk and make the zeros durable. */
    method InitializeRange(range: Range, ghost mark: nat, ghost inodeHome: nat, ghost secret: Option<Block>)
      returns (r: Result<()>)
      requires Valid() && NeverShows(device.disk, inodeHome, secret) && !range.Contains(inodeHome)
      requires HiddenSince(device.history, mark, inodeHome, secret)
      modifies device
      ensures Valid() && |device.disk.stable| == old(|device.disk.stable|)
      ensures NeverShows(device.disk, inodeHome, secret)
      ensures HiddenSince(device.history, mark, inodeHome, secret)
      ensures ZeroingPart(View(device.disk), old(View(device.disk)), range)
      ensures r.Ok? ==>
                AlwaysZeroed(device.disk, range) && device.disk.pending == [] && device.faults == old(device.faults)
      ensures r.Err? && range.first + range.count <= |device.disk.stable| ==> device.faults > old(device.faults)
    {
      hide NeverShows;
      hide HiddenSince;
      hide Zeroing;
      hide ZeroingPart;
      hide AlwaysZeroed;
      hide Apply;
      ghost var view0 := View(device.disk);
      var done := 0;
      NothingZeroed(view0, range);
      while done < range.count
        invariant done <= range.count
        invariant Valid() && |device.disk.stable| == old(|device.disk.stable|)
        invariant NeverShows(device.disk, inodeHome, secret)
        invariant HiddenSince(device.history, mark, inodeHome, secret)
        invariant Zeroing(View(device.disk), view0, range, done)
        invariant device.faults == old(device.faults)
      {
        var blocks := if range.count - done < ZERO_CHUNK_BLOCKS then range.count - done else ZERO_CHUNK_BLOCKS;
        var written := WriteZeros(range, done, done + blocks, view0, mark, inodeHome, secret);
        if written.Err? {
          return written;
        }
        done := done + blocks;
      }
      ZeroingIsPart(View(device.disk), view0, range, done);
      FlushFacts(device.disk);
      FlushHides(device.disk, inodeHome, secret);
      FlushZeroes(device.disk, view0, range);
      HiddenMore(device.history, mark, Flushed(device.disk), inodeHome, secret);
      r := device.Flush();
    }
  }

  /** The first `done` blocks of the range are zeroed, the rest of the view is
      as before. */
  ghost predicate Zeroing(view: Image, view0: Image, range: Range, done: nat) {
    && |view| == |view0|
    && (forall b: nat :: b < |view| && !(range.first <= b < range.first + done) ==> view[b] == view0[b])
    && (forall b: nat :: range.first <= b < range.first + done ==> b < |view| && view[b] == Zeros(BLOCK_SIZE))
  }

  ghost predicate ZeroingPart(view: Image, view0: Image, range: Range) {
    |view| == |view0| && forall b: nat :: b < |view| && !range.Contains(b) ==> view[b] == view0[b]
  }

  lemma NothingZeroed(view0: Image, range: Range)
    ensures Zeroing(view0, view0, range, 0)
  {
  }

  lemma ZeroingIsPart(view: Image, view0: Image, range: Range, done: nat)
    requires Zeroing(view, view0, range, done) && done <= range.count
    ensures ZeroingPart(view, view0, range)
  {
  }

  lemma ZeroOneMore(view: Image, view0: Image, range: Range, done: nat)
    requires Zeroing(view, view0, range, done) && done < range.count && range.first + done < |view|
    ensures Zeroing(view[range.first + done := Zeros(BLOCK_SIZE)], view0, range, done + 1)
    ensures ZeroingPart(view[range.first + done := Zeros(BLOCK_SIZE)], view0, range)
  {
  }

  lemma FlushZeroes(d: Disk, view0: Image, range: Range)
    requires d.Valid() && Zeroing(View(d), view0, range, range.count)
    ensures AlwaysZeroed(Flushed(d), range)
  {
    hide Apply;
    FlushFacts(d);
  }

  lemma FlushHides(d: Disk, b: nat, secret: Option<Block>)
    requires NeverShows(d, b, secret)
    ensures NeverShows(Flushed(d), b, secret)
  {
    FlushFacts(d);
  }

  class DirectTransaction {
    const core: DirectCore
    const credits: nat
    var staged: map<nat, Staged>
    var ownsWriter: bool

    constructor (core: DirectCore, credits: nat)
      requires core.Valid() && credits > 0 && core.writer
      ensures this.core == core && this.credits == credits && staged == map[] && ownsWriter && Valid()
    {
      this.core := core;
      this.credits := credits;
      staged := map[];
      ownsWriter := true;
    }

    /** The originals are what the device holds: nobody else writes metadata
        while this transaction is open. */
    ghost predicate Valid()
      reads this, core, core.device
    {
      && core.Valid()
      && |staged| <= credits
      && (ownsWriter ==> core.writer)
      && forall h :: h in staged && staged[h].original.Some? ==>
           h < |core.device.disk.stable| && staged[h].original.value == View(core.device.disk)[h]
    }

    /** Snapshot a home on first access; later accesses see the private image. */
    method ReadForUpdate(home: nat) returns (r: Result<Block>)
      requires Valid()
      modifies this`staged, core.device`faults
      ensures Valid()
      ensures r.Ok? ==>
                && home in staged && r.value == staged[home].image
                && staged == if home in old(staged) then old(staged)
                   else old(staged)[home := Staged(Some(r.value), r.value)]
      ensures r.Err? ==> staged == old(staged) && home !in staged
      ensures r.Err? ==>
                && (r.code == E2BIG || r.code == EIO) && (r.code == E2BIG <==> |staged| == credits)
                && (r.code == EIO ==> home >= |core.device.disk.stable| || core.device.faults > old(core.device.faults))
    {
      if home !in staged {
        if |staged| == credits {
          return Err(E2BIG);
        }
        var block := core.device.ReadBlock(home);
        if block.Err? {
          return Err(EIO);
        }
        staged := staged[home := Staged(Some(block.value), block.value)];
      }
      return Ok(staged[home].image);
    }

    method ReleaseWriter()
      modifies this`ownsWriter, core`writer
      ensures !ownsWriter && core.writer == (old(core.writer) && !old(ownsWriter))
    {
      if ownsWriter {
        ownsWriter := false;
        core.writer := false;
      }
    }

    method Fail(code: ErrCode, kind: CommitFailure, poison: bool) returns (r: Option<Failure>)
      modifies this`ownsWriter, core`writer, core`poisoned
      ensures !ownsWriter && core.writer == (old(core.writer) && !old(ownsWriter))
      ensures core.poisoned == (old(core.poisoned) || poison)
      ensures r == Some(Failure(code, kind))
    {
      if poison {
        core.poisoned := true;
      }
      ReleaseWriter();
      return Some(Failure(code, kind));
    }

    /** What commit demands of its arguments. */
    predicate Acceptable(homes: seq<nat>, inodeHome: nat)
      reads this, core, core.device
    {
      && core.device.reliableFlush
      && inodeHome < core.targetBlocks
      && homes != []
      && inodeHome !in homes
      && |staged| == |homes| + 1
      && inodeHome in staged
      && (forall h :: h in homes ==> h < core.targetBlocks && h in staged && staged[h].original.Some?)
      && staged[inodeHome].original.Some?
    }

    /** The homes and the inode are all that was staged, all of it is in the file
        system and can be restored. */
    ghost predicate Whole(homes: seq<nat>, inodeHome: nat)
      reads this, core, core.device
    {
      && core.device.reliableFlush && homes != [] && inodeHome !in homes
      && (forall h :: h in staged <==> h == inodeHome || h in homes)
      && (forall h :: h in staged ==> h < core.targetBlocks && staged[h].original.Some?)
    }

    /** A commit accepts exactly the whole transaction, if no home is named
        twice; else it leaves out a block that was staged. */
    lemma AcceptedIsWhole(homes: seq<nat>, inodeHome: nat)
      ensures NoDuplicates(homes) ==> (Acceptable(homes, inodeHome) <==> Whole(homes, inodeHome))
      ensures Acceptable(homes, inodeHome) && !NoDuplicates(homes) ==>
                exists h :: h in staged && h != inodeHome && h !in homes
    {
      var named := Members(homes) + {inodeHome};
      MembersCount(homes);
      if Acceptable(homes, inodeHome) {
        assert named <= staged.Keys;
        if NoDuplicates(homes) {
          SameSet(named, staged.Keys);
        } else {
          var h := LeftOut(named, staged.Keys);
        }
      } else if Whole(homes, inodeHome) {
        assert named == staged.Keys;
      }
    }

    /** The snapshots of these homes are what the device held. */
    ghost predicate Snapshots(homes: seq<nat>, view0: Image)
      reads this`staged
    {
      forall h :: h in homes ==> h < |view0| && h in staged && staged[h].original == Some(view0[h])
    }

    /** Restore the originals of these homes, last one first. */
    method Rollback(completed: seq<nat>, ghost view0: Image, ghost mark: nat, ghost range: Range, ghost inodeHome: nat,
                    ghost secret: Option<Block>)
      returns (r: Result<()>)
      requires core.Valid() && Snapshots(completed, view0) && Patched(View(core.device.disk), view0, completed)
      requires Guarded(core.device.disk, range, inodeHome, secret)
      requires HiddenSince(core.device.history, mark, inodeHome, secret)
      requires inodeHome !in completed && Apart(completed, range)
      modifies core.device
      ensures core.Valid() && |core.device.disk.stable| == old(|core.device.disk.stable|)
      ensures Guarded(core.device.disk, range, inodeHome, secret)
      ensures HiddenSince(core.device.history, mark, inodeHome, secret)
      ensures r.Ok? ==> View(core.device.disk) == view0 && core.device.faults == old(core.device.faults)
      ensures r.Ok? && completed != [] && core.device.reliableFlush ==> core.device.disk.pending == []
      ensures r.Err? ==> r.code == EIO && core.device.faults > old(core.device.faults)
    {
      hide Guarded;
      hide HiddenSince;
      hide Patched;
      hide Apply;
      var i := |completed|;
      assert completed[..i] == completed;
      while i > 0
        invariant i <= |completed|
        invariant core.Valid() && |core.device.disk.stable| == old(|core.device.disk.stable|)
        invariant Guarded(core.device.disk, range, inodeHome, secret)
        invariant HiddenSince(core.device.history, mark, inodeHome, secret)
        invariant Patched(View(core.device.disk), view0, completed[..i])
        invariant core.device.faults == old(core.device.faults)
      {
        i := i - 1;
        assert completed[..i + 1] == completed[..i] + [completed[i]] && completed[i] in completed;
        var w := Write(completed[i], staged[completed[i]].original.value);
        PatchedLength(View(core.device.disk), view0, completed[..i + 1]);
        ViewLength(core.device.disk);
        PatchLess(View(core.device.disk), view0, completed[..i], completed[i]);
        StaysGuarded(core.device.disk, w, range, inodeHome, secret);
        GuardedMore(core.device.history, mark, Issue(core.device.disk, w), range, inodeHome, secret);
        var written := core.device.WriteBlock(w);
        if written.Err? {
          return Err(EIO);
        }
      }
      PatchedNowhere(View(core.device.disk), view0);
      if completed != [] && core.device.reliableFlush {
        FlushGuarded(core.device.disk, range, inodeHome, secret);
        GuardedMore(core.device.history, mark, Flushed(core.device.disk), range, inodeHome, secret);
        FlushFacts(core.device.disk);
        var flushed := core.device.Flush();
        if flushed.Err? {
          return Err(EIO);
        }
      }
      return Ok(());
    }

    /** Write the allocation homes; a failed write may have landed, so it counts
        as attempted. */
    method WriteHomes(homes: seq<nat>, ghost view0: Image, ghost mark: nat, ghost range: Range, ghost inodeHome: nat,
                      ghost secret: Option<Block>)
      returns (r: Result<()>, attempted: nat)
      requires core.Valid() && Snapshots(homes, view0) && View(core.device.disk) == view0
      requires Guarded(core.device.disk, range, inodeHome, secret)
      requires HiddenSince(core.device.history, mark, inodeHome, secret)
      requires inodeHome !in homes && Apart(homes, range)
      modifies core.device
      ensures core.Valid() && |core.device.disk.stable| == old(|core.device.disk.stable|)
      ensures Guarded(core.device.disk, range, inodeHome, secret)
      ensures HiddenSince(core.device.history, mark, inodeHome, secret)
      ensures attempted <= |homes| && (r.Ok? ==> attempted == |homes|) && (homes != [] ==> attempted > 0)
      ensures Patched(View(core.device.disk), view0, homes[..attempted])
      ensures r.Ok? ==> core.device.faults == old(core.device.faults) && OwnedIn(View(core.device.disk), homes, staged)
      ensures r.Err? ==> core.device.faults > old(core.device.faults)
    {
      hide Guarded;
      hide HiddenSince;
      hide Patched;
      hide OwnedIn;
      hide Apply;
      WrittenNone(View(core.device.disk), staged);
      for i := 0 to |homes|
        invariant core.Valid() && |core.device.disk.stable| == old(|core.device.disk.stable|)
        invariant Guarded(core.device.disk, range, inodeHome, secret)
        invariant HiddenSince(core.device.history, mark, inodeHome, secret)
        invariant Patched(View(core.device.disk), view0, homes[..i])
        invariant OwnedIn(View(core.device.disk), homes[..i], staged)
        invariant core.device.faults == old(core.device.faults)
      {
        assert homes[..i + 1] == homes[..i] + [homes[i]] && homes[i] in homes;
        var w := Write(homes[i], staged[homes[i]].image);
        PatchedLength(View(core.device.disk), view0, homes[..i]);
        ViewLength(core.device.disk);
        PatchMore(View(core.device.disk), view0, homes[..i], homes[i], w.data);
        OwnedMore(View(core.device.disk), homes[..i], staged, homes[i]);
        StaysGuarded(core.device.disk, w, range, inodeHome, secret);
        GuardedMore(core.device.history, mark, Issue(core.device.disk, w), range, inodeHome, secret);
        var written := core.device.WriteBlock(w);
        if written.Err? {
          return Err(EIO), i + 1;
        }
      }
      assert homes[..|homes|] == homes;
      return Ok(()), |homes|;
    }

    /** Undo the allocation homes after a failure in front of the inode. */
    method Undo(code: ErrCode, completed: seq<nat>, ghost view0: Image, ghost mark: nat, ghost range: Range,
                ghost inodeHome: nat, ghost secret: Option<Block>)
      returns (r: Option<Failure>)
      requires core.Valid() && completed != [] && core.device.reliableFlush
      requires Snapshots(completed, view0) && Patched(View(core.device.disk), view0, completed)
      requires Guarded(core.device.disk, range, inodeHome, secret)
      requires HiddenSince(core.device.history, mark, inodeHome, secret)
      requires inodeHome !in completed && Apart(completed, range)
      modifies core.device, this`ownsWriter, core`writer, core`poisoned
      ensures core.Valid() && |core.device.disk.stable| == old(|core.device.disk.stable|)
      ensures Guarded(core.device.disk, range, inodeHome, secret)
      ensures HiddenSince(core.device.history, mark, inodeHome, secret)
      ensures !ownsWriter && core.writer == (old(core.writer) && !old(ownsWriter))
      ensures r.Some? && core.device.faults >= old(core.device.faults) && (code == EIO ==> r.value.code == EIO)
      ensures r.value.kind.BeforeCommit? ==> core.device.disk == Disk(view0, []) && core.poisoned == old(core.poisoned)
      ensures !r.value.kind.BeforeCommit? ==> r.value.kind.CheckpointFailed? && core.poisoned
    {
      hide Guarded;
      hide HiddenSince;
      hide Patched;
      var restored := Rollback(completed, view0, mark, range, inodeHome, secret);
      if restored.Err? {
        r := Fail(restored.code, CheckpointFailed, true);
      } else {
        r := Fail(code, BeforeCommit, false);
      }
    }

    /** Allocation homes first, made durable before anything else; undone if
        that fails. */
    method Allocate(homes: seq<nat>, ghost mark: nat, ghost range: Range, ghost inodeHome: nat,
                    ghost secret: Option<Block>)
      returns (r: Option<Failure>)
      requires core.Valid() && homes != [] && core.device.reliableFlush && ownsWriter && core.writer
      requires Snapshots(homes, View(core.device.disk))
      requires Guarded(core.device.disk, range, inodeHome, secret)
      requires HiddenSince(core.device.history, mark, inodeHome, secret)
      requires inodeHome !in homes && Apart(homes, range)
      modifies core.device, this`ownsWriter, core`writer, core`poisoned
      ensures core.Valid() && |core.device.disk.stable| == old(|core.device.disk.stable|)
      ensures Guarded(core.device.disk, range, inodeHome, secret)
      ensures HiddenSince(core.device.history, mark, inodeHome, secret)
      ensures r.None? ==>
                && core.device.disk.pending == [] && OwnedIn(core.device.disk.stable, homes, staged)
                && Patched(core.device.disk.stable, old(View(core.device.disk)), homes)
                && ownsWriter && core.writer && core.poisoned == old(core.poisoned)
      ensures r.Some? ==>
                !ownsWriter && !core.writer && r.value.code == EIO && core.device.faults > old(core.device.faults)
      ensures r.None? ==> core.device.faults == old(core.device.faults)
      ensures r.Some? && r.value.kind.BeforeCommit? ==>
                core.device.disk == Disk(old(View(core.device.disk)), []) && core.poisoned == old(core.poisoned)
      ensures r.Some? && !r.value.kind.BeforeCommit? ==> r.value.kind.CheckpointFailed? && core.poisoned
    {
      hide Guarded;
      hide HiddenSince;
      hide Patched;
      hide OwnedIn;
      hide Apply;
      ghost var view0 := View(core.device.disk);
      var written, attempted := WriteHomes(homes, view0, mark, range, inodeHome, secret);
      if written.Err? {
        assert forall h :: h in homes[..attempted] ==> h in homes;
        r := Undo(EIO, homes[..attempted], view0, mark, range, inodeHome, secret);
        return;
      }
      assert homes[..attempted] == homes;
      FlushGuarded(core.device.disk, range, inodeHome, secret);
      GuardedMore(core.device.history, mark, Flushed(core.device.disk), range, inodeHome, secret);
      var flushed := core.device.Flush();
      if flushed.Err? {
        r := Undo(EIO, homes, view0, mark, range, inodeHome, secret);
        return;
      }
      return None;
    }

    /** Commit in semantic order: allocation homes, flush, inode. */
    method CommitDirectRange(homes: seq<nat>, inodeHome: nat, ghost mark: nat, ghost range: Range,
                             ghost secret: Option<Block>)
      returns (r: Option<Failure>)
      requires Valid() && ownsWriter && inodeHome in staged
      requires Guarded(core.device.disk, range, inodeHome, secret) && Guards(secret, inodeHome, staged)
      requires HiddenSince(core.device.history, mark, inodeHome, secret)
      requires !range.Contains(inodeHome) && Apart(homes, range)
      modifies core.device, this`ownsWriter, core`writer, core`poisoned, core`cache
      ensures core.Valid() && !ownsWriter && !core.writer
      ensures secret.Some? ==> OrderedSince(core.device.history, mark, range, homes, inodeHome, staged)
      ensures r.None? ==>
                && old(Acceptable(homes, inodeHome)) && core.poisoned == old(core.poisoned)
                && Patched(View(core.device.disk), old(View(core.device.disk)), homes + [inodeHome])
                && OwnedIn(View(core.device.disk), homes + [inodeHome], staged)
                && OwnedIn(core.device.disk.stable, homes, staged)
                && core.cache == old(core.cache) + Images(staged)
      ensures r.Some? && r.value.kind.BeforeCommit? ==>
                && (core.device.disk == old(core.device.disk)
                    || core.device.disk == Disk(old(View(core.device.disk)), []))
                && core.poisoned == old(core.poisoned)
      ensures r.Some? && !r.value.kind.BeforeCommit? ==> core.poisoned
      ensures r.Some? && r.value.kind.CheckpointFailed? ==>
                NeverShows(core.device.disk, inodeHome, secret)
      ensures r.Some? && r.value.kind.CommitUncertain? ==> OwnedIn(core.device.disk.stable, homes, staged)
      ensures r.Some? ==> !r.value.kind.TailUpdateFailed? && core.cache == old(core.cache)
      ensures r.Some? && old(Acceptable(homes, inodeHome)) ==> core.device.faults > old(core.device.faults)
      ensures !old(Acceptable(homes, inodeHome)) ==>
                r == Some(Failure(EINVAL, BeforeCommit)) && core.device.disk == old(core.device.disk)
      ensures NoDuplicates(homes) ==>
                (r == Some(Failure(EINVAL, BeforeCommit)) <==> !old(Whole(homes, inodeHome)))
      ensures r.Some? && r.value.code != EINVAL ==> r.value.code == EIO
    {
      hide Whole;
      hide NoDuplicates;
      AcceptedIsWhole(homes, inodeHome);
      hide HiddenSince;
      hide OrderedSince;
      hide Ordered;
      hide Patched;
      hide OwnedIn;
      hide NeverShows;
      hide AlwaysZeroed;
      hide CrashImage;
      hide Apply;
      HiddenOrdered(core.device.history, mark, range, homes, inodeHome, staged, secret);
      if !Acceptable(homes, inodeHome) {
        r := Fail(EINVAL, BeforeCommit, false);
        return;
      }
      r := Allocate(homes, mark, range, inodeHome, secret);
      HiddenOrdered(core.device.history, mark, range, homes, inodeHome, staged, secret);
      if r.Some? {
        return;
      }
      var w := Write(inodeHome, staged[inodeHome].image);
      ViewNothingPending(core.device.disk);
      PatchMore(core.device.disk.stable, old(View(core.device.disk)), homes, inodeHome, w.data);
      OwnedMore(core.device.disk.stable, homes, staged, inodeHome);
      FlushedZeroes(core.device.disk, range, inodeHome, secret);
      InodeIsOrdered(core.device.disk, range, homes, inodeHome, staged);
      if secret.Some? {
        OrderedMore(core.device.history, mark, Issue(core.device.disk, w), range, homes, inodeHome, staged);
      }
      ViewOfIssue(core.device.disk, w);
      var reached := core.device.WriteBlock(w);
      if reached.Err? {
        r := Fail(EIO, CommitUncertain, true);
        return;
      }
      core.cache := core.cache + Images(staged);
      ReleaseWriter();
    }

    method Abort()
      requires Valid() && ownsWriter
      modifies this`ownsWriter, core`writer
      ensures Valid() && !ownsWriter && !core.writer
    {
      ReleaseWriter();
    }

    /** The whole preparation of a range: zero it durably, then commit. */
    method PrepareRange(range: Range, homes: seq<nat>, inodeHome: nat) returns (r: Option<Failure>)
      requires Valid() && ownsWriter && inodeHome in staged
      requires !range.Contains(inodeHome) && Apart(homes, range)
      requires forall h :: h in staged ==> !range.Contains(h)
      modifies core.device, this`ownsWriter, core`writer, core`poisoned, core`cache
      ensures core.Valid() && !ownsWriter && !core.writer
      ensures NeverShows(old(core.device.disk), inodeHome, Some(staged[inodeHome].image)) ==>
                OrderedSince(core.device.history, |old(core.device.history)|, range, homes, inodeHome, staged)
      ensures r.None? ==> OwnedIn(View(core.device.disk), homes + [inodeHome], staged)
      ensures r.Some? && r.value.kind.BeforeCommit? ==>
                core.poisoned == old(core.poisoned)
                && ZeroingPart(View(core.device.disk), old(View(core.device.disk)), range)
      ensures r.Some? && !r.value.kind.BeforeCommit? ==> core.poisoned
      ensures r.Some? && old(Acceptable(homes, inodeHome))
              && range.first + range.count <= old(|core.device.disk.stable|) ==>
                core.device.faults > old(core.device.faults)
    {
      hide NeverShows;
      hide AlwaysZeroed;
      hide OrderedSince;
      hide Patched;
      hide OwnedIn;
      hide CrashImage;
      hide Apply;
      ghost var mark := |core.device.history|;
      ghost var image := Some(staged[inodeHome].image);
      ghost var secret := if NeverShows(core.device.disk, inodeHome, image) then image else None;
      NothingHidden(core.device.disk, inodeHome);
      var zeroed := core.InitializeRange(range, mark, inodeHome, secret);
      if zeroed.Err? {
        HiddenOrdered(core.device.history, mark, range, homes, inodeHome, staged, secret);
        ReleaseWriter();
        return Some(Failure(zeroed.code, BeforeCommit));
      }
      ViewNothingPending(core.device.disk);
      r := CommitDirectRange(homes, inodeHome, mark, range, secret);
    }
  }

  function Members(s: seq<nat>): set<nat> {
    set h | h in s
  }

  lemma NoDuplicatesSnoc(s: seq<nat>)
    requires s != []
    ensures NoDuplicates(s) <==> NoDuplicates(s[..|s| - 1]) && s[|s| - 1] !in s[..|s| - 1]
  {
    var n := |s| - 1;
    forall i | 0 <= i < n
      ensures s[..n][i] == s[i]
    {
    }
  }

  lemma {:induction false} MembersCount(s: seq<nat>)
    ensures |Members(s)| <= |s| && (|Members(s)| == |s| <==> NoDuplicates(s))
    decreases |s|
  {
    if s == [] {
      assert Members(s) == {};
    } else {
      hide NoDuplicates;
      var n := |s| - 1;
      MembersCount(s[..n]);
      NoDuplicatesSnoc(s);
      assert s == s[..n] + [s[n]];
      assert Members(s) == Members(s[..n]) + {s[n]};
      if s[n] in s[..n] {
        assert Members(s) == Members(s[..n]);
      }
    }
  }

  lemma SameSet(a: set<nat>, b: set<nat>)
    requires a <= b && |a| == |b|
    ensures a == b
  {
    if x :| x in b && x !in a {
      Subset(a, b - {x});
    }
  }

  lemma LeftOut(a: set<nat>, b: set<nat>) returns (x: nat)
    requires |a| < |b|
    ensures x in b && x !in a
  {
    if b <= a {
      Subset(b, a);
    }
    x :| x in b && x !in a;
  }

  lemma {:induction false} Subset(a: set<nat>, b: set<nat>)
    requires a <= b
    ensures |a| <= |b|
    decreases |a|
  {
    if x :| x in a {
      Subset(a - {x}, b - {x});
    }
  }

  function Images(staged: map<nat, Staged>): map<nat, Block> {
    map h | h in staged :: staged[h].image
  }

  lemma ViewLength(d: Disk)
    requires d.Valid()
    ensures |View(d)| == |d.stable|
  {
  }

  ghost predicate Apart(homes: seq<nat>, range: Range) {
    forall h :: h in homes ==> !range.Contains(h)
  }

  lemma PatchedLength(view: Image, view0: Image, touched: seq<nat>)
    requires Patched(view, view0, touched)
    ensures |view| == |view0|
  {
  }

  lemma PatchedNowhere(view: Image, view0: Image)
    requires Patched(view, view0, [])
    ensures view == view0
  {
  }

  lemma WrittenNone(view: Image, staged: map<nat, Staged>)
    ensures Patched(view, view, []) && OwnedIn(view, [], staged)
  {
  }

  lemma ViewNothingPending(d: Disk)
    requires d.Valid() && d.pending == []
    ensures View(d) == d.stable
  {
  }

  lemma StaysGuarded(d: Disk, w: Write, range: Range, inodeHome: nat, secret: Option<Block>)
    requires Guarded(d, range, inodeHome, secret) && w.block < |d.stable|
    requires w.block != inodeHome && !range.Contains(w.block)
    ensures Guarded(Issue(d, w), range, inodeHome, secret)
    ensures Issue(d, w).Valid() && View(Issue(d, w)) == View(d)[w.block := w.data]
  {
    hide NeverShows;
    hide AlwaysZeroed;
    hide CrashImage;
    GuardedValid(d, range, inodeHome, secret);
    StaysHidden(d, w, inodeHome, secret);
    StaysZeroed(d, w, range);
    ViewOfIssue(d, w);
  }

  lemma GuardedMore(history: seq<Disk>, mark: nat, d: Disk, range: Range, inodeHome: nat, secret: Option<Block>)
    requires HiddenSince(history, mark, inodeHome, secret) && Guarded(d, range, inodeHome, secret)
    ensures HiddenSince(history + [d], mark, inodeHome, secret)
  {
    hide NeverShows;
    HiddenMore(history, mark, d, inodeHome, secret);
  }

  lemma GuardedValid(d: Disk, range: Range, inodeHome: nat, secret: Option<Block>)
    requires Guarded(d, range, inodeHome, secret)
    ensures d.Valid()
  {
  }

  lemma FlushGuarded(d: Disk, range: Range, inodeHome: nat, secret: Option<Block>)
    requires Guarded(d, range, inodeHome, secret)
    ensures Guarded(Flushed(d), range, inodeHome, secret)
  {
    FlushFacts(d);
  }

  lemma FlushedZeroes(d: Disk, range: Range, inodeHome: nat, secret: Option<Block>)
    requires Guarded(d, range, inodeHome, secret) && d.pending == []
    ensures ZeroedIn(d.stable, range)
  {
    FlushFacts(d);
  }

  lemma HiddenOrdered(history: seq<Disk>, mark: nat, range: Range, homes: seq<nat>, inodeHome: nat,
                      staged: map<nat, Staged>, secret: Option<Block>)
    requires inodeHome in staged && HiddenSince(history, mark, inodeHome, secret) && Guards(secret, inodeHome, staged)
    ensures secret.Some? ==> OrderedSince(history, mark, range, homes, inodeHome, staged)
  {
    if secret.Some? {
      forall k | mark <= k < |history|
        ensures Ordered(history[k], range, homes, inodeHome, staged)
      {
        HiddenIsOrdered(history[k], range, homes, inodeHome, staged);
      }
    }
  }

  /** The secret is the new inode image, unless that is known already. */
  ghost predicate Guards(secret: Option<Block>, inodeHome: nat, staged: map<nat, Staged>) {
    secret.Some? ==> inodeHome in staged && secret.value == staged[inodeHome].image
  }

  lemma OrderedMore(history: seq<Disk>, mark: nat, d: Disk, range: Range, homes: seq<nat>, inodeHome: nat,
                    staged: map<nat, Staged>)
    requires OrderedSince(history, mark, range, homes, inodeHome, staged)
    requires Ordered(d, range, homes, inodeHome, staged)
    ensures OrderedSince(history + [d], mark, range, homes, inodeHome, staged)
  {
    hide Ordered;
  }
}
