/** Crash atomicity of the journal: the invariant of every run, and what it
    says about power loss, failure labels and recovery. */
module JournalSafety {
  import opened Bytes
  import opened BlockStore
  import opened Jbd2
  import opened LogTags
  import opened JournalLog
  import opened JournalRoundTrip
  import opened JournalImage
  import opened JournalRun

  lemma ViewExplained(j: Journal, base: Image, s: State)
    requires Inv(j, base, s)
    ensures Explained(j, base, s, View(s.disk))
  {
    hide *;
    InvParts(j, base, s);
    ViewIsCrashImage(s.disk);
    ApplyCrashSafe(j, base, s, View(s.disk));
  }

  lemma InvParts(j: Journal, base: Image, s: State)
    requires Inv(j, base, s)
    ensures OnDevice(j, s) && |base| == j.deviceBlocks && s.disk.Valid() && |s.disk.stable| == j.deviceBlocks
            && j.Valid()
    ensures forall o :: o in Outcomes(s) ==> Sound(j, o.kind)
    ensures CrashSafe(j, base, s) && Progress(j, base, s)
  {
  }

  lemma ApplyCrashSafe(j: Journal, base: Image, s: State, image: Image)
    requires OnDevice(j, s) && |base| == j.deviceBlocks
    requires forall o :: o in Outcomes(s) ==> Sound(j, o.kind)
    requires CrashSafe(j, base, s) && CrashImage(s.disk, image)
    ensures Explained(j, base, s, image)
  {
  }

  /** With a single possible outcome, that outcome holds. */
  lemma OnlyOutcome(j: Journal, base: Image, s: State, image: Image, o: Outcome)
    requires |base| == j.deviceBlocks
    requires forall p :: p in Outcomes(s) ==> Sound(j, p.kind)
    requires Outcomes(s) == {o} && Explained(j, base, s, image)
    ensures Shows(j, image, o.kind, Homes(base, o.done))
  {
  }

  // ---- One lemma per step ----------------------------------------------------

  lemma IssueTailKeeps(j: Journal, base: Image, s: State, tx: LogTxn, block: Block, s': State)
    requires Inv(j, base, s) && Commits(j, s, IssueTail(tx, block), s')
    ensures Inv(j, base, s')
  {
    hide LogBlocks;
    hide StaleRing;
    hide ParseSuperblock;
    var w := Write(j.SuperblockId(), block);
    var homes := Homes(base, s.done);
    ViewOfIssue(s.disk, w);
    ViewExplained(j, base, s);
    TailWrite(j, View(s.disk), tx, homes, block);
    forall image | CrashImage(s'.disk, image)
      ensures Explained(j, base, s', image)
    {
      var before := CrashOfIssue(s.disk, w, image);
      ApplyCrashSafe(j, base, s, before);
      if image == before {
        assert Shows(j, image, IdleLog(s.sequence), homes);
        assert Outcome(IdleLog(s.sequence), s.done) in Outcomes(s');
      } else {
        TailWrite(j, before, tx, homes, block);
        assert Outcome(TornTxn(tx), s.done) in Outcomes(s');
      }
    }
  }

  /** After a flush there is only one image left. */
  lemma FlushedImage(s: State, s': State, image: Image)
    requires s.disk.Valid() && s'.disk == Flushed(s.disk) && CrashImage(s'.disk, image)
    ensures image == View(s.disk) && View(s'.disk) == View(s.disk)
  {
    hide Apply;
    CrashOfFlushed(s'.disk, image);
    ViewNothing(s'.disk);
  }

  lemma ViewNothing(d: Disk)
    requires d.Valid() && d.pending == []
    ensures View(d) == d.stable && CrashImage(d, d.stable)
  {
    ViewIsCrashImage(d);
  }

  lemma FlushTailKeeps(j: Journal, base: Image, s: State, s': State)
    requires Inv(j, base, s) && Commits(j, s, FlushTail, s')
    ensures Inv(j, base, s')
  {
    hide LogBlocks;
    hide StaleRing;
    hide TornLog;
    hide ParseSuperblock;
    ViewNothing(s'.disk);
    assert Outcome(TornTxn(s.phase.tx), s.done) in Outcomes(s');
    forall image | CrashImage(s'.disk, image)
      ensures Explained(j, base, s', image)
    {
      FlushedImage(s, s', image);
      assert Shows(j, image, TornTxn(s.phase.tx), Homes(base, s.done));
    }
  }

  lemma WritePayloadKeeps(j: Journal, base: Image, s: State, s': State)
    requires Inv(j, base, s) && Commits(j, s, WritePayload, s')
    ensures Inv(j, base, s')
  {
    hide LogBlocks;
    hide Journal.Idle;
    hide Journal.Torn;
    hide Journal.Full;
    hide Journal.SameHomes;
    hide Apply;
    hide Homes;
    hide RingAt;
    hide StaleRing;
    hide TornLog;
    hide ParseSuperblock;
    var tx, n := s.phase.tx, s.phase.n;
    var homes := Homes(base, s.done);
    var o := Outcome(TornTxn(tx), s.done);
    SlotInRing(j.geo, tx, n);
    var w := Write(j.mapping[tx.Slot(j.geo, n)], tx.Blocks(j.geo.fmt)[n]);
    ViewOfIssue(s.disk, w);
    ViewExplained(j, base, s);
    OnlyOutcome(j, base, s, View(s.disk), o);
    PayloadWrite(j, View(s.disk), tx, homes, n);
    HoldsMore(j.geo, j.RingOf(View(s.disk)), tx, n);
    forall image | CrashImage(s'.disk, image)
      ensures Explained(j, base, s', image)
    {
      var before := CrashOfIssue(s.disk, w, image);
      ApplyCrashSafe(j, base, s, before);
      OnlyOutcome(j, base, s, before, o);
      PayloadWrite(j, before, tx, homes, n);
      assert o in Outcomes(s');
    }
  }

  lemma FlushPayloadKeeps(j: Journal, base: Image, s: State, s': State)
    requires Inv(j, base, s) && Commits(j, s, FlushPayload, s')
    ensures Inv(j, base, s')
  {
    hide LogBlocks;
    hide TornLog;
    hide ParseSuperblock;
    var tx := s.phase.tx;
    var o := Outcome(TornTxn(tx), s.done);
    ViewNothing(s'.disk);
    ViewExplained(j, base, s);
    OnlyOutcome(j, base, s, View(s.disk), o);
    assert tx.Blocks(j.geo.fmt)[..s.phase.n] == tx.Blocks(j.geo.fmt);
    forall image | CrashImage(s'.disk, image)
      ensures Explained(j, base, s', image)
    {
      FlushedImage(s, s', image);
      assert o in Outcomes(s');
    }
  }

  lemma IssueCommitFacts(j: Journal, base: Image, s: State, s': State) returns (w: Write)
    requires Inv(j, base, s) && Commits(j, s, IssueCommit, s')
    ensures OnDevice(j, s) && OnDevice(j, s') && |base| == j.deviceBlocks && s.disk.pending == []
    ensures w.block < j.deviceBlocks && s'.disk == Issue(s.disk, w) && View(s'.disk) == View(s.disk)[w.block := w.data]
    ensures s'.phase.CommitIssued? && s'.done == s.done && InFlight(j, s', s'.phase.tx)
    ensures j.Torn(View(s.disk), s'.phase.tx, Homes(base, s.done))
    ensures j.Full(View(s'.disk), s'.phase.tx, Homes(base, s.done))
  {
    hide LogBlocks;
    hide TornLog;
    hide FullLog;
    hide CommitBlock;
    hide ParseSuperblock;
    hide CommitEntries;
    hide RingAt;
    hide Apply;
    hide Homes;
    var tx := s.phase.tx;
    var n := |tx.Blocks(j.geo.fmt)|;
    SlotInRing(j.geo, tx, n);
    w := Write(j.mapping[tx.Slot(j.geo, n)], CommitBlock(j.geo.fmt, tx.sequence));
    ViewOfIssue(s.disk, w);
    ViewExplained(j, base, s);
    OnlyOutcome(j, base, s, View(s.disk), Outcome(TornTxn(tx), s.done));
    CommitWrite(j, View(s.disk), tx, Homes(base, s.done));
  }

  lemma IssueCommitKeeps(j: Journal, base: Image, s: State, s': State)
    requires Inv(j, base, s) && Commits(j, s, IssueCommit, s')
    ensures Inv(j, base, s')
  {
    hide Inv;
    hide Commits;
    hide Journal.Torn;
    hide Journal.Full;
    hide Homes;
    hide Apply;
    hide LogBlocks;
    hide View;
    var w := IssueCommitFacts(j, base, s, s');
    var torn, full := Outcome(TornTxn(s'.phase.tx), s'.done), Outcome(FullTxn(s'.phase.tx), s'.done);
    FirstIssueSafe(j, base, s, s', w, torn, full);
    MakeInv(j, base, s');
  }

  lemma MakeInv(j: Journal, base: Image, s: State)
    requires OnDevice(j, s) && |base| == j.deviceBlocks
    requires forall o :: o in Outcomes(s) ==> Sound(j, o.kind)
    requires CrashSafe(j, base, s) && Progress(j, base, s)
    ensures Inv(j, base, s)
  {
  }

  /** A single write over a quiet disk, with the two images it may leave. */
  lemma FirstIssueSafe(j: Journal, base: Image, s: State, s': State, w: Write, lost: Outcome, kept: Outcome)
    requires OnDevice(j, s) && OnDevice(j, s') && |base| == j.deviceBlocks && s.disk.pending == []
    requires w.block < j.deviceBlocks && s'.disk == Issue(s.disk, w) && View(s'.disk) == View(s.disk)[w.block := w.data]
    requires forall o :: o in Outcomes(s') ==> Sound(j, o.kind)
    requires lost in Outcomes(s') && Shows(j, View(s.disk), lost.kind, Homes(base, lost.done))
    requires kept in Outcomes(s') && Shows(j, View(s'.disk), kept.kind, Homes(base, kept.done))
    ensures CrashSafe(j, base, s')
  {
    hide Shows;
    hide Outcomes;
    hide Homes;
    hide Apply;
    forall image | CrashImage(s'.disk, image)
      ensures Explained(j, base, s', image)
    {
      CrashOfFirstIssue(s.disk, w, image);
    }
  }

  lemma FlushCommitKeeps(j: Journal, base: Image, s: State, s': State)
    requires Inv(j, base, s) && Commits(j, s, FlushCommit, s')
    ensures Inv(j, base, s')
  {
    hide LogBlocks;
    hide FullLog;
    hide ParseSuperblock;
    hide CommitEntries;
    var o := Outcome(FullTxn(s.phase.tx), s.done);
    ViewNothing(s'.disk);
    forall image | CrashImage(s'.disk, image)
      ensures Explained(j, base, s', image)
    {
      FlushedImage(s, s', image);
      assert o in Outcomes(s');
      assert Shows(j, image, FullTxn(s.phase.tx), Homes(base, s.done));
    }
  }

  /** Writing one home, by checkpoint or by replay. */
  lemma HomeStepKeeps(j: Journal, base: Image, s: State, s': State, tx: LogTxn, n: nat)
    requires Inv(j, base, s) && j.Logs(tx) && n < |tx.entries|
    requires Outcomes(s) == {Outcome(FullTxn(tx), s.done)} && HomesWritten(View(s.disk), tx, n)
    requires s'.disk == Issue(s.disk, Write(tx.entries[n].home, tx.entries[n].image))
    requires Outcomes(s') == Outcomes(s) && s'.done == s.done
    ensures OnDevice(j, s') && CrashSafe(j, base, s') && HomesWritten(View(s'.disk), tx, n + 1)
  {
    hide LogBlocks;
    hide FullLog;
    hide ParseSuperblock;
    hide CommitEntries;
    hide Outcomes;
    hide Homes;
    hide Journal.Idle;
    hide Journal.Torn;
    hide Journal.Full;
    hide Progress;
    hide Apply;
    var homes := Homes(base, s.done);
    var o := Outcome(FullTxn(tx), s.done);
    AfterAt(j, homes, tx, n);
    var w := Write(tx.entries[n].home, tx.entries[n].image);
    ViewOfIssue(s.disk, w);
    forall image | CrashImage(s'.disk, image)
      ensures Explained(j, base, s', image)
    {
      var before := CrashOfIssue(s.disk, w, image);
      ApplyCrashSafe(j, base, s, before);
      OnlyOutcome(j, base, s, before, o);
      HomeWrite(j, before, tx, homes, n);
      assert o in Outcomes(s') && Shows(j, image, FullTxn(tx), homes);
    }
  }

  lemma WriteHomeKeeps(j: Journal, base: Image, s: State, s': State)
    requires Inv(j, base, s) && Commits(j, s, WriteHome, s')
    ensures Inv(j, base, s')
  {
    hide LogBlocks;
    hide CrashSafe;
    HomeStepKeeps(j, base, s, s', s.phase.tx, s.phase.n);
  }

  lemma ReplayHomeKeeps(j: Journal, base: Image, s: State, s': State)
    requires Inv(j, base, s) && Recovers(j, base, s, ReplayHome, s')
    ensures Inv(j, base, s')
  {
    hide LogBlocks;
    hide CrashSafe;
    HomeStepKeeps(j, base, s, s', s.phase.tx, s.phase.n);
  }

  /** Making all homes durable, by checkpoint or by replay. */
  lemma HomesDurable(j: Journal, base: Image, s: State, s': State, tx: LogTxn)
    requires Inv(j, base, s) && j.Logs(tx)
    requires Outcomes(s) == {Outcome(FullTxn(tx), s.done)} && HomesWritten(View(s.disk), tx, |tx.entries|)
    requires s'.disk == Flushed(s.disk)
    requires Outcomes(s') == Outcomes(s) && s'.done == s.done
    ensures OnDevice(j, s') && CrashSafe(j, base, s')
    ensures j.SameHomes(View(s'.disk), j.After(Homes(base, s.done), tx))
  {
    hide LogBlocks;
    hide FullLog;
    hide ParseSuperblock;
    hide CommitEntries;
    var homes := Homes(base, s.done);
    var o := Outcome(FullTxn(tx), s.done);
    ViewNothing(s'.disk);
    ViewExplained(j, base, s);
    OnlyOutcome(j, base, s, View(s.disk), o);
    AllHomesWritten(j, View(s.disk), tx, homes);
    forall image | CrashImage(s'.disk, image)
      ensures Explained(j, base, s', image)
    {
      FlushedImage(s, s', image);
      assert o in Outcomes(s');
    }
  }

  lemma FlushHomesKeeps(j: Journal, base: Image, s: State, s': State)
    requires Inv(j, base, s) && Commits(j, s, FlushHomes, s')
    ensures Inv(j, base, s')
  {
    hide LogBlocks;
    hide CrashSafe;
    HomesDurable(j, base, s, s', s.phase.tx);
  }

  lemma FlushReplayKeeps(j: Journal, base: Image, s: State, s': State)
    requires Inv(j, base, s) && Recovers(j, base, s, FlushReplay, s')
    ensures Inv(j, base, s')
  {
    hide LogBlocks;
    hide CrashSafe;
    HomesDurable(j, base, s, s', s.phase.tx);
  }

  /** Closing the journal: the clean superblock may or may not survive. */
  lemma CloseKeeps(j: Journal, base: Image, s: State, s': State, kind: Kind, block: Block, sequence: nat)
    requires Inv(j, base, s) && !kind.IdleLog? && Sound(j, kind) && s.disk.pending == []
    requires Outcomes(s) == {Outcome(kind, s.done)}
    requires kind.FullTxn? ==> j.SameHomes(View(s.disk), j.After(Homes(base, s.done), kind.tx))
    requires j.PointsTo(block, sequence, 0) && sequence >= kind.tx.sequence + 1
    requires s'.disk == Issue(s.disk, Write(j.SuperblockId(), block)) && s'.done == s.done
    requires Outcomes(s') == {Outcome(kind, s.done), Outcome(IdleLog(sequence), Settled(kind, s.done))}
    ensures OnDevice(j, s') && CrashSafe(j, base, s')
    ensures j.Idle(View(s'.disk), sequence, Homes(base, Settled(kind, s.done)))
    ensures HomesSafe(j, s', Homes(base, Settled(kind, s.done)))
  {
    hide LogBlocks;
    hide FullLog;
    hide TornLog;
    hide ParseSuperblock;
    hide CommitEntries;
    var v := View(s.disk);
    var w := Write(j.SuperblockId(), block);
    var settled := Homes(base, Settled(kind, s.done));
    ViewOfIssue(s.disk, w);
    ViewNothing(s.disk);
    ViewExplained(j, base, s);
    OnlyOutcome(j, base, s, v, Outcome(kind, s.done));
    HomesAppend(base, s.done, kind.tx.entries);
    CleanWrite(j, v, kind.tx, settled, block, sequence);
    SuperblockWriteFrame(j, v, block);
    forall image | CrashImage(s'.disk, image)
      ensures Explained(j, base, s', image) && j.SameHomes(image, settled)
    {
      CrashOfFirstIssue(s.disk, w, image);
      assert Outcome(kind, s.done) in Outcomes(s');
      assert Outcome(IdleLog(sequence), Settled(kind, s.done)) in Outcomes(s');
    }
  }

  lemma IssueCleanKeeps(j: Journal, base: Image, s: State, block: Block, s': State)
    requires Inv(j, base, s) && Commits(j, s, IssueClean(block), s')
    ensures Inv(j, base, s')
  {
    hide LogBlocks;
    hide Explained;
    hide Journal.Idle;
    hide Journal.Torn;
    hide Journal.Full;
    hide Journal.SameHomes;
    hide Shows;
    hide Apply;
    hide Homes;
    hide CrashSafe;
    hide CommitEntries;
    HomesAppend(base, s.done, s.phase.tx.entries);
    CloseKeeps(j, base, s, s', FullTxn(s.phase.tx), block, s.sequence + 1);
  }

  lemma IssueSealKeeps(j: Journal, base: Image, s: State, block: Block, s': State)
    requires Inv(j, base, s) && Recovers(j, base, s, IssueSeal(block), s')
    ensures Inv(j, base, s')
  {
    hide LogBlocks;
    hide Explained;
    hide Journal.Idle;
    hide Journal.Torn;
    hide Journal.Full;
    hide Journal.SameHomes;
    hide Shows;
    hide Apply;
    hide Homes;
    hide CrashSafe;
    CloseKeeps(j, base, s, s', s.phase.kind, block, NextOf(s.phase.kind));
  }

  lemma FlushCleanFacts(j: Journal, base: Image, s: State, s': State)
    requires Inv(j, base, s) && Commits(j, s, FlushClean, s')
    ensures OnDevice(j, s) && OnDevice(j, s') && |base| == j.deviceBlocks
    ensures s'.disk == Flushed(s.disk) && s'.phase.Ready? && j.geo.InRing(s'.head)
    ensures j.Idle(View(s.disk), s'.sequence, Homes(base, s'.done))
  {
    hide LogBlocks;
    hide Inv;
    hide Commits;
    hide Homes;
    hide Journal.Idle;
    hide Apply;
    InvOnDevice(j, base, s);
    FlushCleanStep(j, s, s');
    CleanIssuedFacts(j, base, s);
    var tx := s.phase.tx;
    HomesAppend(base, s.done, tx.entries);
    SlotInRing(j.geo, tx, |tx.Blocks(j.geo.fmt)|);
  }

  lemma FlushCleanStep(j: Journal, s: State, s': State)
    requires OnDevice(j, s) && Commits(j, s, FlushClean, s')
    ensures s.phase.CleanIssued? && j.Logs(s.phase.tx)
    ensures var tx := s.phase.tx;
            s' == s.(disk := Flushed(s.disk), phase := Ready, sequence := s.sequence + 1,
                     head := j.geo.Next(tx.Slot(j.geo, |tx.Blocks(j.geo.fmt)|)),
                     done := s.done + [tx.entries])
  {
    hide LogBlocks;
    hide Apply;
  }

  lemma CleanIssuedFacts(j: Journal, base: Image, s: State)
    requires Inv(j, base, s) && s.phase.CleanIssued?
    ensures OnDevice(j, s) && |base| == j.deviceBlocks && InFlight(j, s, s.phase.tx)
    ensures j.Idle(View(s.disk), s.sequence + 1, j.After(Homes(base, s.done), s.phase.tx))
  {
    hide Homes;
    hide Journal.Idle;
    hide Journal.Torn;
    hide Journal.Full;
    hide Journal.SameHomes;
    hide Journal.After;
    hide Journal.Logs;
    hide Holds;
    hide HomesWritten;
    hide Sound;
    hide Outcomes;
    hide CrashSafe;
    hide HomesSafe;
    hide Apply;
    hide InFlight;
    hide LogBlocks;
  }

  lemma InvOnDevice(j: Journal, base: Image, s: State)
    requires Inv(j, base, s)
    ensures OnDevice(j, s) && |base| == j.deviceBlocks
  {
    hide OnDevice;
    hide Progress;
    hide Outcomes;
    hide CrashSafe;
    hide Sound;
  }

  lemma FlushCleanKeeps(j: Journal, base: Image, s: State, s': State)
    requires Inv(j, base, s) && Commits(j, s, FlushClean, s')
    ensures Inv(j, base, s')
  {
    hide Commits;
    hide CrashSafe;
    hide Journal.Idle;
    hide Homes;
    hide Apply;
    hide LogBlocks;
    FlushCleanFacts(j, base, s, s');
    FlushedSafe(j, base, s, s', Outcome(IdleLog(s'.sequence), s'.done));
  }

  /** A flush that leaves one possible outcome. */
  lemma FlushedSafe(j: Journal, base: Image, s: State, s': State, o: Outcome)
    requires OnDevice(j, s) && OnDevice(j, s') && |base| == j.deviceBlocks && s'.disk == Flushed(s.disk)
    requires forall p :: p in Outcomes(s') ==> Sound(j, p.kind)
    requires o in Outcomes(s') && Shows(j, View(s.disk), o.kind, Homes(base, o.done))
    ensures CrashSafe(j, base, s')
  {
    hide Shows;
    hide Outcomes;
    forall image | CrashImage(s'.disk, image)
      ensures Explained(j, base, s', image)
    {
      FlushedImage(s, s', image);
    }
  }

  lemma FlushSealKeeps(j: Journal, base: Image, s: State, s': State)
    requires Inv(j, base, s) && Recovers(j, base, s, FlushSeal, s')
    ensures Inv(j, base, s')
  {
    hide LogBlocks;
    hide StaleRing;
    hide ParseSuperblock;
    hide CommitEntries;
    var o := Outcome(IdleLog(NextOf(s.phase.kind)), Settled(s.phase.kind, s.done));
    ViewNothing(s'.disk);
    forall image | CrashImage(s'.disk, image)
      ensures Explained(j, base, s', image)
    {
      FlushedImage(s, s', image);
      assert o in Outcomes(s') && Shows(j, image, o.kind, Homes(base, o.done));
    }
  }

  lemma PowerLossKeeps(j: Journal, base: Image, s: State, image: Image, o: Outcome, s': State)
    requires Inv(j, base, s) && Recovers(j, base, s, PowerLoss(image, o), s')
    ensures Inv(j, base, s')
  {
    hide LogBlocks;
    hide StaleRing;
    hide TornLog;
    hide FullLog;
    hide ParseSuperblock;
    hide CommitEntries;
    forall after | CrashImage(s'.disk, after)
      ensures Explained(j, base, s', after)
    {
      CrashOfFlushed(s'.disk, after);
      assert o in Outcomes(s');
    }
  }

  /** Steps that issue no device operation. */
  lemma QuietKeeps(j: Journal, base: Image, s: State, step: Step, s': State)
    requires Inv(j, base, s)
    requires (step.Fail? && Commits(j, s, step, s'))
             || ((step.StartReplay? || step.Mount?) && Recovers(j, base, s, step, s'))
    ensures Inv(j, base, s')
  {
    hide LogBlocks;
    hide StaleRing;
    hide TornLog;
    hide FullLog;
    hide ParseSuperblock;
    hide CommitEntries;
    assert Outcomes(s') == Outcomes(s);
    forall image | CrashImage(s'.disk, image)
      ensures Explained(j, base, s', image)
    {
      ApplyCrashSafe(j, base, s, image);
    }
  }

  lemma StepKeeps(j: Journal, base: Image, s: State, step: Step, s': State)
    requires Inv(j, base, s) && Next(j, base, s, step, s')
    ensures Inv(j, base, s')
  {
    hide Inv;
    hide Commits;
    hide Recovers;
    InvParts(j, base, s);
    CommitterOf(j, base, s, step, s');
    match step
    case IssueTail(tx, block) => IssueTailKeeps(j, base, s, tx, block, s');
    case FlushTail => FlushTailKeeps(j, base, s, s');
    case WritePayload => WritePayloadKeeps(j, base, s, s');
    case FlushPayload => FlushPayloadKeeps(j, base, s, s');
    case IssueCommit => IssueCommitKeeps(j, base, s, s');
    case FlushCommit => FlushCommitKeeps(j, base, s, s');
    case WriteHome => WriteHomeKeeps(j, base, s, s');
    case FlushHomes => FlushHomesKeeps(j, base, s, s');
    case IssueClean(block) => IssueCleanKeeps(j, base, s, block, s');
    case FlushClean => FlushCleanKeeps(j, base, s, s');
    case Fail(_) => QuietKeeps(j, base, s, step, s');
    case PowerLoss(image, o) => PowerLossKeeps(j, base, s, image, o, s');
    case StartReplay => QuietKeeps(j, base, s, step, s');
    case ReplayHome => ReplayHomeKeeps(j, base, s, s');
    case FlushReplay => FlushReplayKeeps(j, base, s, s');
    case IssueSeal(block) => IssueSealKeeps(j, base, s, block, s');
    case FlushSeal => FlushSealKeeps(j, base, s, s');
    case Mount => QuietKeeps(j, base, s, step, s');
  }

  predicate IsRecovery(step: Step) {
    || step.PowerLoss? || step.StartReplay? || step.ReplayHome? || step.FlushReplay?
    || step.IssueSeal? || step.FlushSeal? || step.Mount?
  }

  /** Each step belongs to commit or to recovery, never to both. */
  lemma CommitterOf(j: Journal, base: Image, s: State, step: Step, s': State)
    requires OnDevice(j, s) && |base| == j.deviceBlocks
    ensures Commits(j, s, step, s') ==> !IsRecovery(step)
    ensures Recovers(j, base, s, step, s') ==> IsRecovery(step)
  {
  }

  // ---- Whole runs --------------------------------------------------------------

  lemma StartSafe(j: Journal, base: Image, s: State)
    requires Start(j, base, s)
    ensures Inv(j, base, s)
  {
    hide StaleRing;
    hide ParseSuperblock;
    var o := Outcome(IdleLog(s.sequence), s.done);
    forall image | CrashImage(s.disk, image)
      ensures Explained(j, base, s, image)
    {
      CrashOfFlushed(s.disk, image);
      assert o in Outcomes(s) && Shows(j, image, o.kind, Homes(base, o.done));
    }
  }

  function Last(run: seq<State>): State
    requires run != []
  {
    run[|run| - 1]
  }

  /** Every state of every run satisfies the invariant. */
  lemma {:induction false} RunSafe(j: Journal, base: Image, run: seq<State>)
    requires IsRun(j, base, run)
    ensures run != [] && Inv(j, base, Last(run))
    decreases |run|
  {
    hide Inv;
    hide Start;
    hide Next;
    if |run| == 1 {
      StartSafe(j, base, run[0]);
    } else {
      var before, s, s' := run[..|run| - 1], run[|run| - 2], run[|run| - 1];
      RunSafe(j, base, before);
      assert Last(before) == s;
      var step :| Next(j, base, s, step, s');
      StepKeeps(j, base, s, step, s');
    }
  }

  /** Recovery settles an image of a known kind. */
  lemma KindRecovers(j: Journal, base: Image, image: Image, kind: Kind, done: seq<seq<Entry>>)
    requires Sound(j, kind) && |base| == j.deviceBlocks && Shows(j, image, kind, Homes(base, done))
    ensures |image| == j.deviceBlocks && j.Recover(image).Ok?
    ensures j.Idle(j.Recover(image).value, NextOf(kind), Homes(base, Settled(kind, done)))
  {
    hide Journal.Recover;
    hide LogBlocks;
    hide StaleRing;
    hide TornLog;
    hide FullLog;
    hide ParseSuperblock;
    hide CommitEntries;
    match kind
    case IdleLog(sequence) => RecoverIdle(j, image, sequence, Homes(base, done));
    case TornTxn(tx) => RecoverTorn(j, image, tx, Homes(base, done));
    case FullTxn(tx) =>
      RecoverFull(j, image, tx, Homes(base, done));
      HomesAppend(base, done, tx.entries);
  }

  lemma SettledSurvives(s: State, o: Outcome)
    requires o in Outcomes(s)
    ensures Settled(o.kind, o.done) in Survivors(s)
  {
  }

  /** Crash atomicity.  Whatever transactions ran, whatever failed, and
      whatever subset of the unflushed writes a power loss keeps: recovery
      succeeds, and the homes are those of the history so far or of that
      history and the one transaction in flight, wholly applied. */
  lemma CrashAtomicity(j: Journal, base: Image, run: seq<State>, image: Image)
    requires IsRun(j, base, run) && run != []
    requires OnDevice(j, Last(run)) && CrashImage(Last(run).disk, image)
    ensures |image| == j.deviceBlocks && j.Recover(image).Ok?
    ensures exists history :: history in Survivors(Last(run))
                              && j.SameHomes(j.Recover(image).value, Homes(base, history))
  {
    hide Inv;
    hide Journal.Recover;
    hide Survivors;
    hide Outcomes;
    hide Homes;
    hide Shows;
    hide Start;
    var s := Last(run);
    RunSafe(j, base, run);
    InvParts(j, base, s);
    ApplyCrashSafe(j, base, s, image);
    var o :| o in Outcomes(s) && Shows(j, image, o.kind, Homes(base, o.done));
    KindRecovers(j, base, image, o.kind, o.done);
    SettledSurvives(s, o);
  }

  lemma StepExtends(j: Journal, base: Image, s: State, step: Step, s': State)
    requires OnDevice(j, s) && |base| == j.deviceBlocks && Next(j, base, s, step, s')
    ensures s.done <= s'.done && |s'.done| <= |s.done| + 1
  {
    hide LogBlocks;
    hide Shows;
    hide Apply;
    hide ParseSuperblock;
  }

  /** A transaction that took effect is never lost again: the history of every
      state is a prefix of the history of every later state. */
  lemma {:induction false} HistoryGrows(j: Journal, base: Image, run: seq<State>, i: nat)
    requires IsRun(j, base, run) && i < |run|
    ensures run[i].done <= Last(run).done
    decreases |run|
  {
    hide Next;
    hide Start;
    if i < |run| - 1 {
      var before, s, s' := run[..|run| - 1], run[|run| - 2], run[|run| - 1];
      HistoryGrows(j, base, before, i);
      var step :| Next(j, base, s, step, s');
      StepExtends(j, base, s, step, s');
    }
  }

  /** A power loss is possible in every state and leaves one of the listed
      outcomes, so the theorem above is not about runs that cannot happen. */
  lemma PowerLossPossible(j: Journal, base: Image, run: seq<State>, image: Image) returns (s': State)
    requires IsRun(j, base, run) && run != []
    requires OnDevice(j, Last(run)) && CrashImage(Last(run).disk, image)
    ensures IsRun(j, base, run + [s']) && s'.disk == Disk(image, []) && s'.phase.Down?
  {
    hide Inv;
    hide Outcomes;
    hide Homes;
    hide Shows;
    hide Start;
    hide Commits;
    hide CrashSafe;
    hide Progress;
    hide CrashImage;
    hide Sound;
    var s := Last(run);
    RunSafe(j, base, run);
    InvParts(j, base, s);
    ApplyCrashSafe(j, base, s, image);
    var o :| o in Outcomes(s) && Shows(j, image, o.kind, Homes(base, o.done));
    s' := State(Disk(image, []), Down(o.kind), 0, 0, None, o.done);
    assert Next(j, base, s, PowerLoss(image, o), s');
    assert (run + [s'])[..|run|] == run;
  }

  // ---- Failure labels ------------------------------------------------------------

  lemma {:induction false} FailureKept(j: Journal, base: Image, run: seq<State>)
    requires IsRun(j, base, run)
    ensures Last(run).failure.Some? ==> FailsAs(Last(run).phase, Last(run).failure.value)
    decreases |run|
  {
    hide Shows;
    hide LogBlocks;
    if |run| > 1 {
      var before, s, s' := run[..|run| - 1], run[|run| - 2], run[|run| - 1];
      FailureKept(j, base, before);
      assert Last(before) == s;
      var step :| Next(j, base, s, step, s');
      FailureStep(j, base, s, step, s');
    }
  }

  lemma FailureStep(j: Journal, base: Image, s: State, step: Step, s': State)
    requires OnDevice(j, s) && |base| == j.deviceBlocks && Next(j, base, s, step, s')
    requires s.failure.Some? ==> FailsAs(s.phase, s.failure.value)
    ensures s'.failure.Some? ==> FailsAs(s'.phase, s'.failure.value)
  {
    hide Shows;
    hide LogBlocks;
    hide Apply;
    hide ParseSuperblock;
  }

  /** What each failure label promises about every power loss that follows:
      never applied, possibly applied, always applied, and for the last label
      already durable in the homes. */
  lemma FailureLabels(j: Journal, base: Image, run: seq<State>, image: Image)
    requires IsRun(j, base, run) && run != [] && Last(run).failure.Some?
    requires OnDevice(j, Last(run)) && CrashImage(Last(run).disk, image)
    ensures |image| == j.deviceBlocks && j.Recover(image).Ok?
    ensures var s, after := Last(run), j.Recover(image).value;
            match s.failure.value
            case BeforeCommit => j.SameHomes(after, Homes(base, s.done))
            case CommitUncertain =>
              && (s.phase.Loaded? || s.phase.CommitIssued?)
              && (j.SameHomes(after, Homes(base, s.done))
                  || j.SameHomes(after, Homes(base, s.done + [s.phase.tx.entries])))
            case CheckpointFailed =>
              s.phase.Checkpointing? && j.SameHomes(after, Homes(base, s.done + [s.phase.tx.entries]))
            case TailUpdateFailed =>
              && (s.phase.Durable? || s.phase.CleanIssued?)
              && j.SameHomes(after, Homes(base, s.done + [s.phase.tx.entries]))
              && j.SameHomes(image, Homes(base, s.done + [s.phase.tx.entries]))
  {
    hide Journal.Recover;
    hide IsRun;
    hide Homes;
    var s := Last(run);
    CrashAtomicity(j, base, run, image);
    FailureKept(j, base, run);
    if s.failure.value.TailUpdateFailed? {
      RunSafe(j, base, run);
      DurableHomes(j, base, s, image);
    }
  }

  lemma DurableHomes(j: Journal, base: Image, s: State, image: Image)
    requires Inv(j, base, s) && (s.phase.Durable? || s.phase.CleanIssued?) && CrashImage(s.disk, image)
    ensures j.SameHomes(image, Homes(base, s.done + [s.phase.tx.entries]))
  {
    hide CrashSafe;
    hide LogBlocks;
    hide StaleRing;
    hide ParseSuperblock;
    HomesAppend(base, s.done, s.phase.tx.entries);
    if s.phase.Durable? {
      CrashOfFlushed(s.disk, image);
      ViewNothing(s.disk);
    }
  }

  // ---- Recovery --------------------------------------------------------------------

  /** While recovery runs, and across power losses inside it, the history it
      is going to settle on is fixed. */
  lemma TargetFixed(j: Journal, base: Image, s: State, step: Step, s': State)
    requires OnDevice(j, s) && |base| == j.deviceBlocks && Next(j, base, s, step, s')
    requires !s.phase.Mounted() && !s'.phase.Mounted()
    requires s.phase.Replayed? || s.phase.Sealing? ==> !s.phase.kind.IdleLog?
    ensures Survivors(s') == Survivors(s)
  {
    hide Shows;
    hide LogBlocks;
    hide Apply;
    hide ParseSuperblock;
    hide Commits;
    if Commits(j, s, step, s') {
      CommitsWhileMounted(j, s, step, s');
    }
  }

  lemma CommitsWhileMounted(j: Journal, s: State, step: Step, s': State)
    requires OnDevice(j, s) && Commits(j, s, step, s')
    ensures s.phase.Mounted() && s'.phase.Mounted()
  {
    hide LogBlocks;
    hide Apply;
    hide ParseSuperblock;
  }

  lemma {:induction false} TargetKept(j: Journal, base: Image, run: seq<State>, k: nat)
    requires IsRun(j, base, run) && k < |run|
    requires forall i :: k <= i < |run| ==> !run[i].phase.Mounted()
    ensures Survivors(Last(run)) == Survivors(run[k])
    decreases |run|
  {
    hide Next;
    hide Start;
    hide Survivors;
    if k < |run| - 1 {
      var before, s, s' := run[..|run| - 1], run[|run| - 2], run[|run| - 1];
      TargetKept(j, base, before, k);
      assert Last(before) == s;
      RunSafe(j, base, before);
      SealingKind(j, base, s);
      var step :| Next(j, base, s, step, s');
      TargetFixed(j, base, s, step, s');
    }
  }

  lemma SealingKind(j: Journal, base: Image, s: State)
    requires Inv(j, base, s)
    ensures s.phase.Replayed? || s.phase.Sealing? ==> !s.phase.kind.IdleLog?
  {
    hide CrashSafe;
    hide LogBlocks;
  }

  /** Recovery is crash-idempotent.  Take the device at some point `k` of a
      recovery and let recovery run on, with any number of power losses: a
      power loss now, followed by a complete recovery, yields the same homes as
      recovering what was there at point `k`; and the sequence handed out
      afterwards exceeds that of every block left in the ring. */
  lemma InterruptedRecovery(j: Journal, base: Image, run: seq<State>, k: nat, first: Image, image: Image)
    requires IsRun(j, base, run) && k < |run|
    requires forall i :: k <= i < |run| ==> !run[i].phase.Mounted()
    requires OnDevice(j, run[k]) && CrashImage(run[k].disk, first)
    requires OnDevice(j, Last(run)) && CrashImage(Last(run).disk, image)
    ensures |first| == |image| == j.deviceBlocks && j.Recover(first).Ok? && j.Recover(image).Ok?
    ensures j.SameHomes(j.Recover(image).value, j.Recover(first).value)
    ensures exists sequence :: j.PointsTo(j.Recover(image).value[j.SuperblockId()], sequence, 0)
                               && StaleRing(j.geo, j.RingOf(j.Recover(image).value), sequence)
  {
    hide Inv;
    hide Journal.Recover;
    hide Survivors;
    hide Outcomes;
    hide Homes;
    hide Shows;
    hide Start;
    hide Next;
    TargetKept(j, base, run, k);
    var s, t := Last(run), run[k];
    PrefixIsRun(j, base, run, k);
    assert Last(run[..k + 1]) == t;
    OneSurvivor(t);
    CrashAtomicity(j, base, run, image);
    CrashAtomicity(j, base, run[..k + 1], first);
    RunSafe(j, base, run);
    InvParts(j, base, s);
    ApplyCrashSafe(j, base, s, image);
    var o :| o in Outcomes(s) && Shows(j, image, o.kind, Homes(base, o.done));
    KindRecovers(j, base, image, o.kind, o.done);
  }

  lemma OneSurvivor(s: State)
    requires !s.phase.Mounted()
    ensures forall a, b :: a in Survivors(s) && b in Survivors(s) ==> a == b
  {
  }

  lemma {:induction false} PrefixIsRun(j: Journal, base: Image, run: seq<State>, k: nat)
    requires IsRun(j, base, run) && k < |run|
    ensures IsRun(j, base, run[..k + 1])
    decreases |run|
  {
    hide Next;
    hide Start;
    if k < |run| - 1 {
      PrefixIsRun(j, base, run[..|run| - 1], k);
      assert run[..|run| - 1][..k + 1] == run[..k + 1];
    } else {
      assert run[..k + 1] == run;
    }
  }
}
