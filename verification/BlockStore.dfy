/** A block device with a volatile write cache.  A flush makes every completed
    write durable; a power loss keeps an arbitrary subset of the unflushed
    whole-block writes; a failed write may or may not have landed. */
module BlockStore {
  import opened Bytes

  type Image = seq<Block>

  datatype Write = Write(block: nat, data: Block)

  /** Durable contents, and the writes since the last flush, oldest first. */
  datatype Disk = Disk(stable: Image, pending: seq<Write>)
  {
    ghost predicate Valid() {
      forall w :: w in pending ==> w.block < |stable|
    }
  }

  function Apply(image: Image, writes: seq<Write>): (r: Image)
    requires forall w :: w in writes ==> w.block < |image|
    ensures |r| == |image|
    decreases |writes|
  {
    if writes == [] then image
    else
      var last := writes[|writes| - 1];
      Apply(image, writes[..|writes| - 1])[last.block := last.data]
  }

  /** What reads return. */
  function View(d: Disk): Image
    requires d.Valid()
  {
    Apply(d.stable, d.pending)
  }

  function Issue(d: Disk, w: Write): Disk {
    d.(pending := d.pending + [w])
  }

  function Flushed(d: Disk): Disk
    requires d.Valid()
  {
    Disk(View(d), [])
  }

  lemma ApplyAppend(image: Image, writes: seq<Write>, w: Write)
    requires forall v :: v in writes ==> v.block < |image|
    requires w.block < |image|
    ensures forall v :: v in writes + [w] ==> v.block < |image|
    ensures Apply(image, writes + [w]) == Apply(image, writes)[w.block := w.data]
  {
    assert (writes + [w])[..|writes|] == writes;
  }

  /** A read after a write sees it. */
  lemma ViewOfIssue(d: Disk, w: Write)
    requires d.Valid() && w.block < |d.stable|
    ensures Issue(d, w).Valid()
    ensures View(Issue(d, w)) == View(d)[w.block := w.data]
  {
    ApplyAppend(d.stable, d.pending, w);
  }

  // ---- Power loss ----------------------------------------------------------

  /** The pending writes that survive a power loss. */
  function Kept(pending: seq<Write>, keep: seq<bool>): (r: seq<Write>)
    requires |keep| == |pending|
    ensures forall w :: w in r ==> w in pending
    decreases |pending|
  {
    if pending == [] then []
    else
      var n := |pending| - 1;
      Kept(pending[..n], keep[..n]) + (if keep[n] then [pending[n]] else [])
  }

  /** `image` is what a power loss may leave: some subset of the unflushed
      writes reached the medium, in order. */
  ghost predicate CrashImage(d: Disk, image: Image)
    requires d.Valid()
  {
    exists keep: seq<bool> :: |keep| == |d.pending| && image == Apply(d.stable, Kept(d.pending, keep))
  }

  lemma {:induction false} KeepAll(pending: seq<Write>, keep: seq<bool>)
    requires |keep| == |pending| && forall i :: 0 <= i < |keep| ==> keep[i]
    ensures Kept(pending, keep) == pending
  {
    if pending != [] {
      var n := |pending| - 1;
      KeepAll(pending[..n], keep[..n]);
    }
  }

  /** Losing nothing is one of the outcomes. */
  lemma ViewIsCrashImage(d: Disk)
    requires d.Valid()
    ensures CrashImage(d, View(d))
  {
    KeepAll(d.pending, seq(|d.pending|, i => true));
  }

  /** Nothing pending, nothing to lose. */
  lemma CrashOfFlushed(d: Disk, image: Image)
    requires d.Valid() && d.pending == [] && CrashImage(d, image)
    ensures image == d.stable
  {
  }

  lemma KeptAppend(pending: seq<Write>, w: Write, keep: seq<bool>)
    requires |keep| == |pending| + 1
    ensures Kept(pending + [w], keep)
            == Kept(pending, keep[..|pending|]) + (if keep[|pending|] then [w] else [])
  {
    assert (pending + [w])[..|pending|] == pending;
  }

  /** A new write either survives on top of an old outcome, or is lost. */
  lemma CrashOfIssue(d: Disk, w: Write, image: Image) returns (before: Image)
    requires d.Valid() && w.block < |d.stable|
    requires Issue(d, w).Valid() && CrashImage(Issue(d, w), image)
    ensures CrashImage(d, before) && |before| == |d.stable|
    ensures image == before || image == before[w.block := w.data]
  {
    var keep :| |keep| == |d.pending| + 1 && image == Apply(d.stable, Kept(d.pending + [w], keep));
    KeptAppend(d.pending, w, keep);
    var kept := Kept(d.pending, keep[..|d.pending|]);
    before := Apply(d.stable, kept);
    if keep[|d.pending|] {
      ApplyAppend(d.stable, kept, w);
    } else {
      assert kept + [] == kept;
    }
  }

  /** Without writes to `b`, its contents are safe. */
  lemma CrashElsewhere(d: Disk, image: Image, b: nat)
    requires d.Valid() && CrashImage(d, image) && b < |d.stable|
    requires forall w :: w in d.pending ==> w.block != b
    ensures |image| == |d.stable| && image[b] == d.stable[b]
  {
    var keep :| |keep| == |d.pending| && image == Apply(d.stable, Kept(d.pending, keep));
    ApplyElsewhere(d.stable, Kept(d.pending, keep), b);
  }

  lemma ApplyElsewhere(image: Image, writes: seq<Write>, b: nat)
    requires forall w :: w in writes ==> w.block < |image| && w.block != b
    requires b < |image|
    ensures Apply(image, writes)[b] == image[b]
    decreases |writes|
  {
    if writes != [] {
      ApplyElsewhere(image, writes[..|writes| - 1], b);
    }
  }

  lemma {:induction false} ApplyAtBlock(image: Image, writes: seq<Write>, b: nat)
    requires (forall w :: w in writes ==> w.block < |image|) && b < |image|
    ensures var now := Apply(image, writes)[b];
            if exists w :: w in writes && w.block == b then exists w :: w in writes && w.block == b && w.data == now
            else now == image[b]
    decreases |writes|
  {
    if writes != [] {
      var n := |writes| - 1;
      ApplyAtBlock(image, writes[..n], b);
      assert writes == writes[..n] + [writes[n]];
    }
  }

  lemma {:induction false} KeptMembers(pending: seq<Write>, keep: seq<bool>, w: Write)
    requires |keep| == |pending|
    ensures w in Kept(pending, keep) <==> exists i :: 0 <= i < |pending| && pending[i] == w && keep[i]
    decreases |pending|
  {
    if pending != [] {
      var n := |pending| - 1;
      KeptMembers(pending[..n], keep[..n], w);
      if w in Kept(pending[..n], keep[..n]) {
        var i :| 0 <= i < n && pending[..n][i] == w && keep[..n][i];
        assert pending[i] == w && keep[i];
      }
      if i :| 0 <= i < |pending| && pending[i] == w && keep[i] {
        if i < n {
          assert pending[..n][i] == w && keep[..n][i];
        }
      }
    }
  }

  /** Block by block, a power loss may leave what was durable or the data of any
      one of the unflushed writes, whatever it leaves in other blocks. */
  lemma CrashImageIff(d: Disk, image: Image)
    requires d.Valid()
    ensures CrashImage(d, image) <==>
              && |image| == |d.stable|
              && forall b :: 0 <= b < |image| ==> image[b] == d.stable[b] || Write(b, image[b]) in d.pending
  {
    if CrashImage(d, image) {
      var keep :| |keep| == |d.pending| && image == Apply(d.stable, Kept(d.pending, keep));
      forall b | 0 <= b < |image|
        ensures image[b] == d.stable[b] || Write(b, image[b]) in d.pending
      {
        ApplyAtBlock(d.stable, Kept(d.pending, keep), b);
      }
    }
    if && |image| == |d.stable|
       && forall b :: 0 <= b < |image| ==> image[b] == d.stable[b] || Write(b, image[b]) in d.pending
    {
      KeepFitting(d, image);
    }
  }

  lemma KeepFitting(d: Disk, image: Image)
    requires d.Valid() && |image| == |d.stable|
    requires forall b :: 0 <= b < |image| ==> image[b] == d.stable[b] || Write(b, image[b]) in d.pending
    ensures CrashImage(d, image)
  {
    hide Apply;
    hide Kept;
    var keep := seq(|d.pending|, i requires 0 <= i < |d.pending| => Fitting(d.pending[i], image));
    var kept := Kept(d.pending, keep);
    forall w
      ensures w in kept <==> w in d.pending && Fitting(w, image)
    {
      KeptMembers(d.pending, keep, w);
      if w in d.pending && Fitting(w, image) {
        var i :| 0 <= i < |d.pending| && d.pending[i] == w;
        assert keep[i];
      }
    }
    var result := Apply(d.stable, kept);
    forall b | 0 <= b < |image|
      ensures result[b] == image[b]
    {
      ApplyAtBlock(d.stable, kept, b);
      if Write(b, image[b]) in d.pending {
        assert Write(b, image[b]) in kept;
      }
    }
    assert result == image;
  }

  /** The write would leave what the image has. */
  predicate Fitting(w: Write, image: Image) {
    w.block < |image| && image[w.block] == w.data
  }

  /** A single write over a quiet disk: it survives or it does not. */
  lemma CrashOfFirstIssue(d: Disk, w: Write, image: Image)
    requires d.Valid() && d.pending == [] && w.block < |d.stable|
    requires Issue(d, w).Valid() && CrashImage(Issue(d, w), image)
    ensures image == View(d) || image == View(d)[w.block := w.data]
  {
    var before := CrashOfIssue(d, w, image);
    CrashOfFlushed(d, before);
  }

  /** Many writes, oldest first. */
  function IssueAll(d: Disk, writes: seq<Write>): Disk {
    d.(pending := d.pending + writes)
  }

  /** The device as the file system drives it.  Any operation may fail. */
  class BlockDevice {
    var disk: Disk
    const reliableFlush: bool
    ghost var history: seq<Disk>   // every state the medium has been in
    ghost var faults: nat          // operations that failed so far

    ghost predicate Valid()
      reads this
    {
      && disk.Valid()
      && history != [] && history[|history| - 1] == disk
    }

    constructor (disk: Disk, reliableFlush: bool)
      requires disk.Valid()
      ensures Valid() && this.disk == disk && this.reliableFlush == reliableFlush && history == [disk]
    {
      this.disk := disk;
      this.reliableFlush := reliableFlush;
      history := [disk];
      faults := 0;
    }

    method ReadBlock(block: nat) returns (r: Result<Block>)
      requires Valid()
      modifies this`faults
      ensures r.Ok? ==> block < |disk.stable| && r.value == View(disk)[block] && faults == old(faults)
      ensures r.Err? ==> r.code == EIO
      ensures r.Err? && block < |disk.stable| ==> faults > old(faults)
    {
      if block >= |disk.stable| {
        return Err(EIO);
      }
      var broken: bool := *;
      if broken {
        faults := faults + 1;
        return Err(EIO);
      }
      return Ok(View(disk)[block]);
    }

    /** A failed write may nevertheless have landed in the cache. */
    method WriteBlock(w: Write) returns (r: Result<()>)
      requires Valid()
      modifies this
      ensures Valid() && |disk.stable| == old(|disk.stable|)
      ensures r.Ok? ==> disk != old(disk) && faults == old(faults)
      ensures disk == old(disk) ==> history == old(history)
      ensures disk != old(disk) ==>
                w.block < |disk.stable| && disk == Issue(old(disk), w) && history == old(history) + [disk]
      ensures r.Err? ==> r.code == EIO
      ensures r.Err? && w.block < |disk.stable| ==> faults > old(faults)
    {
      if w.block >= |disk.stable| {
        return Err(EIO);
      }
      var lost: bool := *;
      if lost {
        faults := faults + 1;
        return Err(EIO);
      }
      assert disk.pending != disk.pending + [w];
      disk := Issue(disk, w);
      history := history + [disk];
      var broken: bool := *;
      if broken {
        faults := faults + 1;
        return Err(EIO);
      }
      return Ok(());
    }

    /** A failed flush leaves every write pending, which admits all the
        outcomes of a partial flush. */
    method Flush() returns (r: Result<()>)
      requires Valid()
      modifies this
      ensures Valid() && |disk.stable| == old(|disk.stable|)
      ensures r.Ok? ==> disk == Flushed(old(disk)) && faults == old(faults) && history == old(history) + [disk]
      ensures r.Err? ==> r.code == EIO && disk == old(disk) && faults > old(faults) && history == old(history)
    {
      var broken: bool := *;
      if broken {
        faults := faults + 1;
        return Err(EIO);
      }
      disk := Flushed(disk);
      history := history + [disk];
      return Ok(());
    }
  }
}
