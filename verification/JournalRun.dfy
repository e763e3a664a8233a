/** Whole runs of a journalled device as a state machine whose steps are the
    individual device operations of commit and of recovery, with I/O failures
    and power losses in between. */
module JournalRun {
  import opened Bytes
  import opened BlockStore
  import opened Jbd2
  import opened LogTags
  import opened JournalRoundTrip
  import opened JournalImage

  /** What the durable journal of a mounted-off device looks like. */
  datatype Kind =
    | IdleLog(sequence: nat)
    | TornTxn(tx: LogTxn)
    | FullTxn(tx: LogTxn)

  datatype Phase =
    // a mounted journal
    | Ready
    | TailIssued(tx: LogTxn)               // active superblock written, not flushed
    | Payload(tx: LogTxn, n: nat)          // n payload blocks written
    | Loaded(tx: LogTxn)                   // payload durable
    | CommitIssued(tx: LogTxn)             // commit record written, not flushed
    | Checkpointing(tx: LogTxn, n: nat)    // commit durable, n homes written
    | Durable(tx: LogTxn)                  // homes durable
    | CleanIssued(tx: LogTxn)              // clean superblock written, not flushed
    // after a power loss
    | Down(kind: Kind)
    | Replaying(tx: LogTxn, n: nat)        // recovery has written n homes
    | Replayed(kind: Kind)                 // recovered homes durable
    | Sealing(kind: Kind)                  // recovery's superblock written, not flushed
  {
    predicate Mounted() {
      !Down? && !Replaying? && !Replayed? && !Sealing?
    }
  }

  datatype State = State(
    disk: Disk,
    phase: Phase,
    sequence: nat,
    head: nat,
    failure: Option<CommitFailure>,   // set once: the core is poisoned
    done: seq<seq<Entry>>)            // the transactions that took effect, in order

  // ---- Meaning of a history --------------------------------------------------

  /** The homes after the transactions `done`, in order. */
  ghost function Homes(base: Image, done: seq<seq<Entry>>): (r: Image)
    ensures |r| == |base|
    decreases |done|
  {
    if done == [] then base
    else CommitEntries(Homes(base, done[..|done| - 1]), done[|done| - 1])
  }

  lemma HomesAppend(base: Image, done: seq<seq<Entry>>, entries: seq<Entry>)
    ensures Homes(base, done + [entries]) == CommitEntries(Homes(base, done), entries)
  {
    assert (done + [entries])[..|done|] == done;
  }

  ghost predicate Sound(j: Journal, kind: Kind) {
    j.Valid() && (!kind.IdleLog? ==> j.Logs(kind.tx))
  }

  /** The image is of this kind, on top of these homes. */
  ghost predicate Shows(j: Journal, image: Image, kind: Kind, homes: Image)
    requires Sound(j, kind) && |homes| == j.deviceBlocks
  {
    match kind
    case IdleLog(sequence) => j.Idle(image, sequence, homes)
    case TornTxn(tx) => j.Torn(image, tx, homes)
    case FullTxn(tx) => j.Full(image, tx, homes)
  }

  /** The history once recovery has dealt with an image of this kind. */
  function Settled(kind: Kind, done: seq<seq<Entry>>): seq<seq<Entry>> {
    if kind.FullTxn? then done + [kind.tx.entries] else done
  }

  /** The next sequence that recovery hands out. */
  function NextOf(kind: Kind): nat {
    match kind
    case IdleLog(sequence) => sequence
    case TornTxn(tx) => tx.sequence + 1
    case FullTxn(tx) => tx.sequence + 2
  }

  datatype Outcome = Outcome(kind: Kind, done: seq<seq<Entry>>)

  /** What a power loss in this state may leave behind. */
  function Outcomes(st: State): set<Outcome> {
    match st.phase
    case Ready => {Outcome(IdleLog(st.sequence), st.done)}
    case TailIssued(tx) => {Outcome(IdleLog(st.sequence), st.done), Outcome(TornTxn(tx), st.done)}
    case Payload(tx, _) => {Outcome(TornTxn(tx), st.done)}
    case Loaded(tx) => {Outcome(TornTxn(tx), st.done)}
    case CommitIssued(tx) => {Outcome(TornTxn(tx), st.done), Outcome(FullTxn(tx), st.done)}
    case Checkpointing(tx, _) => {Outcome(FullTxn(tx), st.done)}
    case Durable(tx) => {Outcome(FullTxn(tx), st.done)}
    case CleanIssued(tx) =>
      {Outcome(FullTxn(tx), st.done), Outcome(IdleLog(st.sequence + 1), st.done + [tx.entries])}
    case Down(kind) => {Outcome(kind, st.done)}
    case Replaying(tx, _) => {Outcome(FullTxn(tx), st.done)}
    case Replayed(kind) => {Outcome(kind, st.done)}
    case Sealing(kind) => {Outcome(kind, st.done), Outcome(IdleLog(NextOf(kind)), Settled(kind, st.done))}
  }

  ghost predicate OnDevice(j: Journal, s: State) {
    j.Valid() && s.disk.Valid() && |s.disk.stable| == j.deviceBlocks
  }

  /** The histories that recovery may settle on after a power loss in this
      state: what took effect, and at most the transaction in flight. */
  function Survivors(s: State): set<seq<seq<Entry>>> {
    match s.phase
    case Ready => {s.done}
    case TailIssued(tx) => {s.done}
    case Payload(tx, _) => {s.done}
    case Loaded(tx) => {s.done}
    case CommitIssued(tx) => {s.done, s.done + [tx.entries]}
    case Checkpointing(tx, _) => {s.done + [tx.entries]}
    case Durable(tx) => {s.done + [tx.entries]}
    case CleanIssued(tx) => {s.done + [tx.entries]}
    case Down(kind) => {Settled(kind, s.done)}
    case Replaying(tx, _) => {s.done + [tx.entries]}
    case Replayed(kind) => {Settled(kind, s.done)}
    case Sealing(kind) => {Settled(kind, s.done)}
  }

  // ---- Steps -------------------------------------------------------------------

  datatype Step =
    | IssueTail(tx: LogTxn, block: Block)
    | FlushTail
    | WritePayload
    | FlushPayload
    | IssueCommit
    | FlushCommit
    | WriteHome
    | FlushHomes
    | IssueClean(block: Block)
    | FlushClean
    | Fail(failure: CommitFailure)
    | PowerLoss(image: Image, outcome: Outcome)
    | StartReplay
    | ReplayHome
    | FlushReplay
    | IssueSeal(block: Block)
    | FlushSeal
    | Mount

  /** The failure an operation reports in each phase. */
  predicate FailsAs(phase: Phase, failure: CommitFailure) {
    match failure
    case BeforeCommit => phase.Ready? || phase.TailIssued? || phase.Payload?
    case CommitUncertain => phase.Loaded? || phase.CommitIssued?
    case CheckpointFailed => phase.Checkpointing?
    case TailUpdateFailed => phase.Durable? || phase.CleanIssued?
  }

  /** The commit protocol, one device operation at a time. */
  ghost predicate Commits(j: Journal, s: State, step: Step, s': State)
    requires OnDevice(j, s)
  {
    && s.failure.None?
    && match step
       case IssueTail(tx, block) =>
         && s.phase.Ready? && j.Logs(tx) && tx.sequence == s.sequence && tx.head == s.head
         && j.PointsTo(block, tx.sequence, tx.head)
         && s' == s.(disk := Issue(s.disk, Write(j.SuperblockId(), block)), phase := TailIssued(tx))
       case FlushTail =>
         s.phase.TailIssued? && s' == s.(disk := Flushed(s.disk), phase := Payload(s.phase.tx, 0))
       case WritePayload =>
         && s.phase.Payload? && j.Logs(s.phase.tx) && s.phase.n < |s.phase.tx.Blocks(j.geo.fmt)|
         && var tx, n := s.phase.tx, s.phase.n;
            s' == s.(disk := Issue(s.disk, Write(j.mapping[tx.Slot(j.geo, n)], tx.Blocks(j.geo.fmt)[n])),
                     phase := Payload(tx, n + 1))
       case FlushPayload =>
         && s.phase.Payload? && s.phase.n == |s.phase.tx.Blocks(j.geo.fmt)|
         && s' == s.(disk := Flushed(s.disk), phase := Loaded(s.phase.tx))
       case IssueCommit =>
         && s.phase.Loaded? && j.Logs(s.phase.tx)
         && var tx := s.phase.tx;
            s' == s.(disk := Issue(s.disk, Write(j.mapping[tx.Slot(j.geo, |tx.Blocks(j.geo.fmt)|)],
                                                 CommitBlock(j.geo.fmt, tx.sequence))),
                     phase := CommitIssued(tx))
       case FlushCommit =>
         s.phase.CommitIssued? && s' == s.(disk := Flushed(s.disk), phase := Checkpointing(s.phase.tx, 0))
       case WriteHome =>
         && s.phase.Checkpointing? && s.phase.n < |s.phase.tx.entries|
         && var tx, n := s.phase.tx, s.phase.n;
            s' == s.(disk := Issue(s.disk, Write(tx.entries[n].home, tx.entries[n].image)),
                     phase := Checkpointing(tx, n + 1))
       case FlushHomes =>
         && s.phase.Checkpointing? && s.phase.n == |s.phase.tx.entries|
         && s' == s.(disk := Flushed(s.disk), phase := Durable(s.phase.tx))
       case IssueClean(block) =>
         && s.phase.Durable? && j.PointsTo(block, s.sequence + 1, 0)
         && s' == s.(disk := Issue(s.disk, Write(j.SuperblockId(), block)), phase := CleanIssued(s.phase.tx))
       case FlushClean =>
         && s.phase.CleanIssued? && j.Logs(s.phase.tx)
         && var tx := s.phase.tx;
            s' == s.(disk := Flushed(s.disk), phase := Ready, sequence := s.sequence + 1,
                     head := j.geo.Next(tx.Slot(j.geo, |tx.Blocks(j.geo.fmt)|)),
                     done := s.done + [tx.entries])
       case Fail(failure) =>
         FailsAs(s.phase, failure) && s' == s.(failure := Some(failure))
       case _ => false
  }

  /** Power loss, and recovery one device operation at a time. */
  ghost predicate Recovers(j: Journal, base: Image, s: State, step: Step, s': State)
    requires OnDevice(j, s) && |base| == j.deviceBlocks
  {
    match step
    case PowerLoss(image, outcome) =>
      && CrashImage(s.disk, image)
      && outcome in Outcomes(s) && Sound(j, outcome.kind)
      && Shows(j, image, outcome.kind, Homes(base, outcome.done))
      && s' == State(Disk(image, []), Down(outcome.kind), 0, 0, None, outcome.done)
    case StartReplay =>
      && s.phase.Down?
      && (s.phase.kind.TornTxn? || s.phase.kind.FullTxn?)
      && s' == s.(phase := if s.phase.kind.FullTxn? then Replaying(s.phase.kind.tx, 0) else Replayed(s.phase.kind))
    case ReplayHome =>
      && s.phase.Replaying? && s.phase.n < |s.phase.tx.entries|
      && var tx, n := s.phase.tx, s.phase.n;
         s' == s.(disk := Issue(s.disk, Write(tx.entries[n].home, tx.entries[n].image)), phase := Replaying(tx, n + 1))
    case FlushReplay =>
      && s.phase.Replaying? && s.phase.n == |s.phase.tx.entries|
      && s' == s.(disk := Flushed(s.disk), phase := Replayed(FullTxn(s.phase.tx)))
    case IssueSeal(block) =>
      && s.phase.Replayed? && j.PointsTo(block, NextOf(s.phase.kind), 0)
      && s' == s.(disk := Issue(s.disk, Write(j.SuperblockId(), block)), phase := Sealing(s.phase.kind))
    case FlushSeal =>
      && s.phase.Sealing?
      && s' == s.(disk := Flushed(s.disk), phase := Down(IdleLog(NextOf(s.phase.kind))),
                  done := Settled(s.phase.kind, s.done))
    case Mount =>
      && s.phase.Down? && s.phase.kind.IdleLog?
      && s' == s.(phase := Ready, sequence := s.phase.kind.sequence, head := j.geo.first)
    case _ => false
  }

  ghost predicate Next(j: Journal, base: Image, s: State, step: Step, s': State)
    requires OnDevice(j, s) && |base| == j.deviceBlocks
  {
    Commits(j, s, step, s') || Recovers(j, base, s, step, s')
  }

  /** A freshly mounted clean journal.  No block of the initial ring may look
      like a header of this or a later sequence. */
  ghost predicate Start(j: Journal, base: Image, s: State) {
    && OnDevice(j, s) && |base| == j.deviceBlocks
    && s.phase.Ready? && s.failure.None? && s.done == []
    && s.disk.pending == [] && j.geo.InRing(s.head)
    && j.Idle(s.disk.stable, s.sequence, base)
  }

  /** A run can begin on every device whose journal superblock is clean and
      whose ring is zeroed. */
  lemma CleanDeviceStarts(j: Journal, image: Image, sequence: nat)
    requires j.Valid() && |image| == j.deviceBlocks && j.PointsTo(image[j.SuperblockId()], sequence, 0)
    requires forall pos :: j.geo.InRing(pos) ==> image[j.mapping[pos]] == Zeros(BLOCK_SIZE)
    ensures Start(j, image, State(Disk(image, []), Ready, sequence, j.geo.first, None, []))
  {
    hide ParseSuperblock;
    var ring := j.RingOf(image);
    forall pos | j.geo.InRing(pos)
      ensures StaleBlock(ring[pos], sequence)
    {
      assert Be32(Zeros(BLOCK_SIZE), 0) == 0;
    }
  }

  ghost predicate Moves(j: Journal, base: Image, s: State, s': State) {
    && OnDevice(j, s) && |base| == j.deviceBlocks
    && exists step :: Next(j, base, s, step, s')
  }

  /** A run: a mounted clean journal, then one step after another. */
  ghost predicate IsRun(j: Journal, base: Image, run: seq<State>) {
    if |run| <= 1 then |run| == 1 && Start(j, base, run[0])
    else IsRun(j, base, run[..|run| - 1]) && Moves(j, base, run[|run| - 2], run[|run| - 1])
  }

  // ---- The invariant -------------------------------------------------------------

  /** One of the possible outcomes describes the image. */
  ghost predicate Explained(j: Journal, base: Image, s: State, image: Image)
    requires |base| == j.deviceBlocks
    requires forall o :: o in Outcomes(s) ==> Sound(j, o.kind)
  {
    exists o :: o in Outcomes(s) && Shows(j, image, o.kind, Homes(base, o.done))
  }

  ghost predicate CrashSafe(j: Journal, base: Image, s: State)
    requires OnDevice(j, s) && |base| == j.deviceBlocks
    requires forall o :: o in Outcomes(s) ==> Sound(j, o.kind)
  {
    forall image :: CrashImage(s.disk, image) ==> Explained(j, base, s, image)
  }

  ghost predicate InFlight(j: Journal, s: State, tx: LogTxn) {
    j.Logs(tx) && tx.sequence == s.sequence && tx.head == s.head
  }

  ghost predicate HomesWritten(image: Image, tx: LogTxn, n: nat) {
    && n <= |tx.entries|
    && forall i :: 0 <= i < n ==> tx.entries[i].home < |image| && image[tx.entries[i].home] == tx.entries[i].image
  }

  /** No power loss can undo these homes. */
  ghost predicate HomesSafe(j: Journal, s: State, homes: Image)
    requires OnDevice(j, s)
  {
    forall image :: CrashImage(s.disk, image) ==> j.SameHomes(image, homes)
  }

  /** What reads see in each phase. */
  ghost predicate Progress(j: Journal, base: Image, s: State)
    requires OnDevice(j, s) && |base| == j.deviceBlocks
  {
    var v := View(s.disk);
    var homes := Homes(base, s.done);
    match s.phase
    case Ready => s.disk.pending == [] && j.geo.InRing(s.head)
    case TailIssued(tx) => InFlight(j, s, tx) && j.Torn(v, tx, homes)
    case Payload(tx, n) =>
      InFlight(j, s, tx) && n <= |tx.Blocks(j.geo.fmt)| && Holds(j.geo, j.RingOf(v), tx, 0, tx.Blocks(j.geo.fmt)[..n])
    case Loaded(tx) =>
      InFlight(j, s, tx) && s.disk.pending == [] && Holds(j.geo, j.RingOf(v), tx, 0, tx.Blocks(j.geo.fmt))
    case CommitIssued(tx) => InFlight(j, s, tx) && j.Full(v, tx, homes)
    case Checkpointing(tx, n) => InFlight(j, s, tx) && HomesWritten(v, tx, n)
    case Durable(tx) => InFlight(j, s, tx) && s.disk.pending == [] && j.SameHomes(v, j.After(homes, tx))
    case CleanIssued(tx) =>
      InFlight(j, s, tx) && j.Idle(v, s.sequence + 1, j.After(homes, tx)) && HomesSafe(j, s, j.After(homes, tx))
    case Down(kind) => s.disk.pending == []
    case Replaying(tx, n) => j.Logs(tx) && HomesWritten(v, tx, n)
    case Replayed(kind) =>
      && s.disk.pending == [] && !kind.IdleLog? && Sound(j, kind)
      && (kind.FullTxn? ==> j.SameHomes(v, j.After(homes, kind.tx)))
    case Sealing(kind) =>
      !kind.IdleLog? && j.Idle(v, NextOf(kind), Homes(base, Settled(kind, s.done)))
  }

  ghost predicate Inv(j: Journal, base: Image, s: State) {
    && OnDevice(j, s) && |base| == j.deviceBlocks
    && (forall o :: o in Outcomes(s) ==> Sound(j, o.kind))
    && CrashSafe(j, base, s)
    && Progress(j, base, s)
  }
}
