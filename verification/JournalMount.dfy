/** The imperative recovery is a run: what it does to the device after a power
    loss are recovery steps of the state machine, and wherever it is cut off, the
    next recovery ends with the same homes. */
module JournalMount {
  import opened Bytes
  import opened BlockStore
  import opened JournalReplay
  import opened JournalRoundTrip
  import opened JournalImage
  import opened JournalRun
  import opened JournalSafety
  import opened JournalRecovery

  /** One more step of a run. */
  lemma Extends(j: Journal, base: Image, run: seq<State>, step: Step, s: State)
    requires IsRun(j, base, run) && OnDevice(j, Last(run)) && |base| == j.deviceBlocks
    requires Next(j, base, Last(run), step, s)
    ensures IsRun(j, base, run + [s]) && Last(run + [s]) == s && run <= run + [s]
    ensures OnDevice(j, s)
  {
    hide Next;
    hide Inv;
    var more := run + [s];
    assert more[..|more| - 1] == run;
    assert Moves(j, base, Last(run), s);
    assert IsRun(j, base, more);
    RunSafe(j, base, more);
    InvParts(j, base, s);
  }

  /** Between two runs nothing but recovery happens. */
  ghost predicate Continues(run: seq<State>, more: seq<State>) {
    run != [] && run <= more && forall i :: |run| - 1 <= i < |more| ==> !more[i].phase.Mounted()
  }

  lemma ContinuesMore(run: seq<State>, more: seq<State>, s: State)
    requires Continues(run, more) && !s.phase.Mounted()
    ensures Continues(run, more + [s])
  {
  }

  lemma {:induction false} HomesReplayed(j: Journal, base: Image, run: seq<State>, tx: LogTxn, image: Image, n: nat)
    returns (more: seq<State>)
    requires IsRun(j, base, run) && run != [] && OnDevice(j, Last(run)) && |base| == j.deviceBlocks
    requires Last(run).phase == Replaying(tx, 0) && Last(run).disk == Disk(image, []) && n <= |tx.entries|
    ensures IsRun(j, base, more) && Continues(run, more) && OnDevice(j, Last(more))
    ensures Last(more) == Last(run).(disk := Disk(image, WritesOf(tx.entries)[..n]), phase := Replaying(tx, n))
    decreases n
  {
    hide IsRun;
    hide OnDevice;
    if n == 0 {
      more := run;
    } else {
      var before := HomesReplayed(j, base, run, tx, image, n - 1);
      var s := Last(before);
      var w := Write(tx.entries[n - 1].home, tx.entries[n - 1].image);
      assert WritesOf(tx.entries)[..n] == WritesOf(tx.entries)[..n - 1] + [w];
      var s' := s.(disk := Issue(s.disk, w), phase := Replaying(tx, n));
      OneReplay(j, base, s, s');
      Extends(j, base, before, ReplayHome, s');
      ContinuesMore(run, before, s');
      more := before + [s'];
    }
  }

  lemma OneReplay(j: Journal, base: Image, s: State, s': State)
    requires OnDevice(j, s) && |base| == j.deviceBlocks && s.phase.Replaying? && s.phase.n < |s.phase.tx.entries|
    requires var tx, n := s.phase.tx, s.phase.n;
             s' == s.(disk := Issue(s.disk, Write(tx.entries[n].home, tx.entries[n].image)),
                      phase := Replaying(tx, n + 1))
    ensures Next(j, base, s, ReplayHome, s')
  {
    hide Commits;
  }

  /** What recovery makes of an image that is not idle. */
  lemma RecoveredImage(j: Journal, image: Image, kind: Kind, homes: Image)
    requires Sound(j, kind) && |homes| == j.deviceBlocks && Shows(j, image, kind, homes) && !kind.IdleLog?
    ensures |image| == j.deviceBlocks && j.Recover(image).Ok?
    ensures var ws := if kind.FullTxn? then WritesOf(kind.tx.entries) else [];
            && (forall w :: w in ws ==> w.block < |image|)
            && j.Recover(image).value == Apply(image, ws)[j.SuperblockId() := j.Recover(image).value[j.SuperblockId()]]
  {
    hide Journal.Recover;
    hide Journal.Torn;
    hide Journal.Full;
    hide Journal.Logs;
    hide Journal.PointsTo;
    hide FullLog;
    hide TornLog;
    hide Apply;
    hide Plan;
    var tx := kind.tx;
    if kind.FullTxn? {
      FullFacts(j, image, tx, homes);
      PlanFull(j.geo, j.RingOf(image), tx);
      RecoverUnfolds(j, image, tx.sequence, tx.head, 1, WritesOf(tx.entries));
    } else {
      TornFacts(j, image, tx, homes);
      PlanTorn(j.geo, j.RingOf(image), tx);
      RecoverUnfolds(j, image, tx.sequence, tx.head, 0, []);
    }
  }

  lemma SealSteps(j: Journal, base: Image, s: State, kind: Kind, block: Block, s': State, s'': State)
    requires OnDevice(j, s) && |base| == j.deviceBlocks && s.phase == Replayed(kind)
             && j.PointsTo(block, NextOf(kind), 0)
    requires s' == s.(disk := Issue(s.disk, Write(j.SuperblockId(), block)), phase := Sealing(kind))
    requires OnDevice(j, s')
    requires s'' == s'.(disk := Flushed(s'.disk), phase := Down(IdleLog(NextOf(kind))), done := Settled(kind, s'.done))
    ensures Next(j, base, s, IssueSeal(block), s') && Next(j, base, s', FlushSeal, s'')
  {
    hide Commits;
    hide Journal.PointsTo;
    hide Apply;
  }

  lemma SealOnDevice(j: Journal, s: State, w: Write, s': State)
    requires OnDevice(j, s) && w.block < j.deviceBlocks && s'.disk == Issue(s.disk, w) && s.disk.pending == []
    ensures OnDevice(j, s') && Flushed(s'.disk) == Disk(s.disk.stable[w.block := w.data], [])
  {
    ViewOfIssue(s.disk, w);
    QuietView(s.disk);
  }

  /** Sealing what was replayed. */
  lemma Seals(j: Journal, base: Image, run: seq<State>, kind: Kind, block: Block) returns (more: seq<State>)
    requires IsRun(j, base, run) && run != [] && OnDevice(j, Last(run)) && |base| == j.deviceBlocks
    requires Last(run).phase == Replayed(kind) && Last(run).disk.pending == [] && j.PointsTo(block, NextOf(kind), 0)
    ensures IsRun(j, base, more) && Continues(run, more)
    ensures Last(more) == Last(run).(disk := Disk(Last(run).disk.stable[j.SuperblockId() := block], []),
                                     phase := Down(IdleLog(NextOf(kind))), done := Settled(kind, Last(run).done))
  {
    hide IsRun;
    hide Next;
    hide OnDevice;
    hide NextOf;
    hide Settled;
    hide Journal.PointsTo;
    hide Flushed;
    OnItsDevice(j, Last(run));
    var s := Last(run);
    var w := Write(j.SuperblockId(), block);
    var s' := s.(disk := Issue(s.disk, w), phase := Sealing(kind));
    SealOnDevice(j, s, w, s');
    OnItsDevice(j, s');
    var s'' := s'.(disk := Flushed(s'.disk), phase := Down(IdleLog(NextOf(kind))), done := Settled(kind, s'.done));
    SealSteps(j, base, s, kind, block, s', s'');
    Extends(j, base, run, IssueSeal(block), s');
    Extends(j, base, run + [s'], FlushSeal, s'');
    more := run + [s'] + [s''];
  }

  lemma OnItsDevice(j: Journal, s: State)
    requires OnDevice(j, s)
    ensures j.Valid() && s.disk.Valid() && |s.disk.stable| == j.deviceBlocks
  {
  }

  /** A run that ended in a power loss goes on to where recovery leads. */
  lemma RecoveryIsRun(j: Journal, base: Image, run: seq<State>) returns (more: seq<State>)
    requires IsRun(j, base, run) && run != [] && Last(run).phase.Down?
    ensures j.Valid() && |base| == j.deviceBlocks && |Last(run).disk.stable| == j.deviceBlocks
    ensures j.Recover(Last(run).disk.stable).Ok?
    ensures IsRun(j, base, more) && Continues(run, more)
    ensures Last(more).disk == Disk(j.Recover(Last(run).disk.stable).value, [])
    ensures Last(more).phase.Down? && Last(more).phase.kind.IdleLog?
    ensures Survivors(Last(run)) == {Last(more).done}
    ensures j.SameHomes(Last(more).disk.stable, Homes(base, Last(more).done))
  {
    hide IsRun;
    hide Inv;
    hide Journal.Recover;
    hide Journal.Idle;
    hide Homes;
    hide Shows;
    hide Apply;
    hide Sound;
    var s := Last(run);
    var image, kind := s.disk.stable, s.phase.kind;
    RunSafe(j, base, run);
    InvParts(j, base, s);
    assert s.disk.pending == [] && View(s.disk) == image by { QuietView(s.disk); }
    ViewIsCrashImage(s.disk);
    ApplyCrashSafe(j, base, s, image);
    KindRecovers(j, base, image, kind, s.done);
    var end := j.Recover(image).value;
    IdlePoints(j, end, NextOf(kind), Homes(base, Settled(kind, s.done)));
    if kind.IdleLog? {
      IdleStays(j, image, kind, Homes(base, s.done));
      more := run;
    } else {
      RecoveredImage(j, image, kind, Homes(base, s.done));
      var ws := if kind.FullTxn? then WritesOf(kind.tx.entries) else [];
      var replayed := ReplaysAll(j, base, run, kind, ws);
      var sealed := Seals(j, base, replayed, kind, end[j.SuperblockId()]);
      more := sealed;
    }
  }

  lemma QuietView(d: Disk)
    requires d.Valid()
    ensures d.pending == [] ==> View(d) == d.stable
  {
  }

  lemma IdlePoints(j: Journal, image: Image, sequence: nat, homes: Image)
    requires j.Valid() && j.Idle(image, sequence, homes)
    ensures |image| == j.deviceBlocks && j.PointsTo(image[j.SuperblockId()], sequence, 0) && j.SameHomes(image, homes)
  {
  }

  lemma IdleStays(j: Journal, image: Image, kind: Kind, homes: Image)
    requires Sound(j, kind) && |homes| == j.deviceBlocks && Shows(j, image, kind, homes) && kind.IdleLog?
    ensures |image| == j.deviceBlocks && j.Recover(image) == Ok(image)
  {
    RecoverIdle(j, image, kind.sequence, homes);
  }

  /** The homes are replayed and durable. */
  lemma ReplaysAll(j: Journal, base: Image, run: seq<State>, kind: Kind, ws: seq<Write>) returns (more: seq<State>)
    requires IsRun(j, base, run) && run != [] && OnDevice(j, Last(run)) && |base| == j.deviceBlocks
    requires Last(run).phase == Down(kind) && !kind.IdleLog? && Last(run).disk.pending == []
    requires ws == if kind.FullTxn? then WritesOf(kind.tx.entries) else []
    requires forall w :: w in ws ==> w.block < |Last(run).disk.stable|
    ensures IsRun(j, base, more) && Continues(run, more) && OnDevice(j, Last(more))
    ensures Last(more) == Last(run).(disk := Disk(Apply(Last(run).disk.stable, ws), []), phase := Replayed(kind))
  {
    hide IsRun;
    hide Commits;
    var s := Last(run);
    var image := s.disk.stable;
    if kind.FullTxn? {
      var s' := s.(phase := Replaying(kind.tx, 0));
      Extends(j, base, run, StartReplay, s');
      var homes := HomesReplayed(j, base, run + [s'], kind.tx, image, |kind.tx.entries|);
      assert ws[..|kind.tx.entries|] == ws;
      var t := Last(homes);
      assert t.disk == Disk(image, ws);
      var t' := t.(disk := Flushed(t.disk), phase := Replayed(kind));
      Extends(j, base, homes, FlushReplay, t');
      more := homes + [t'];
    } else {
      var s' := s.(phase := Replayed(kind));
      Extends(j, base, run, StartReplay, s');
      more := run + [s'];
    }
  }

  /** Recover the device on which a run ended in a power loss. On success the
      run goes on to a clean journal; and whatever is left on the device at any
      time in between recovers to the same homes. */
  method RecoverRun(recovery: Recovery, ghost base: Image, ghost run: seq<State>)
    returns (r: Result<u32>, ghost more: seq<State>)
    requires recovery.Valid() && recovery.sent == [] && recovery.device.disk.pending == [] && recovery.revokes == map[]
    requires recovery.mark == |recovery.device.history|
    requires IsRun(recovery.j, base, run) && run != []
    requires Last(run).phase.Down? && Last(run).disk == recovery.device.disk
    modifies recovery`sent, recovery`revokes, recovery.device
    ensures IsRun(recovery.j, base, more) && Continues(run, more)
    ensures Last(more).phase.Down? && Last(more).phase.kind.IdleLog?
    ensures Survivors(Last(run)) == {Last(more).done}
    ensures r.Ok? ==> recovery.device.disk == Last(more).disk
    ensures r.Err? ==> recovery.device.faults != old(recovery.device.faults)
    ensures |base| == recovery.j.deviceBlocks
    ensures forall k :: old(|recovery.device.history|) <= k < |recovery.device.history| ==>
              LeadsTo(recovery.j, recovery.device.history[k], Homes(base, Last(more).done))
  {
    hide IsRun;
    hide Journal.Recover;
    hide Homes;
    hide Survivors;
    hide Restartable;
    hide LeadsTo;
    ghost var image := recovery.device.disk.stable;
    more := RecoveryIsRun(recovery.j, base, run);
    ghost var faults := recovery.device.faults;
    ghost var was := |recovery.device.history|;
    r := recovery.Recover();
    forall k | was <= k < |recovery.device.history|
      ensures LeadsTo(recovery.j, recovery.device.history[k], Homes(base, Last(more).done))
    {
      RestartLeads(recovery.j, image, recovery.device.history[k], Homes(base, Last(more).done));
    }
  }

  /** Every crash image of this device state recovers to these homes. */
  ghost predicate LeadsTo(j: Journal, d: Disk, homes: Image)
    requires j.Valid()
  {
    && d.Valid() && |d.stable| == j.deviceBlocks
    && forall left :: CrashImage(d, left) ==>
         |left| == j.deviceBlocks && j.Recover(left).Ok? && j.SameHomes(j.Recover(left).value, homes)
  }

  lemma RestartLeads(j: Journal, image: Image, d: Disk, homes: Image)
    requires j.Valid() && |image| == j.deviceBlocks && j.Recover(image).Ok?
    requires Restartable(j, image, d) && j.SameHomes(j.Recover(image).value, homes)
    ensures LeadsTo(j, d, homes)
  {
    hide Journal.Recover;
    hide CrashImage;
    forall left | CrashImage(d, left)
      ensures |left| == j.deviceBlocks && j.Recover(left).Ok? && j.SameHomes(j.Recover(left).value, homes)
    {
      assert RecoversAlike(j, image, left);
    }
  }
}
