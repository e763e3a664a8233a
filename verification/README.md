# Verified model of an ext4 implementation

This project models the stateful core of a Rust ext4 implementation in Dafny and
proves what its design promises: what survives a power loss, which map a tree or a
block stands for, and what every operation keeps. `dafny verify dfyconfig.toml`
checks all of it.

**Journal.** `Jbd2`, `LogTags` and `JournalLog` are the on-disk format and the
encoder, compared in `JournalFormat` with the format spelled out in bytes. `BlockStore` is the device: durable blocks, a list of unflushed writes, and a
fault counter. A power loss keeps an arbitrary subset of the unflushed writes; a
failed write may or may not have landed. `JournalReplay` is recovery as a function,
`ReplayMeaning` says what that function does to each block, and `JournalRecovery` is
the imperative recovery, proved to compute it and to be restartable at any moment.
`LogMeaning` and `ScanAccepts` say what recovery makes of any log, whoever wrote it:
which transactions it finds, and what revoke blocks keep from being replayed.
`JournalRun` is the commit and recovery protocol as a state machine over single
device operations, `JournalSafety` its invariant and the crash theorems, and
`JournalCore` the transaction core and its transactions, each of whose device
operations is a step of that machine; `JournalMount` shows the same of the imperative
recovery. `DirectRange` is the journal-free preparation
of a block range, whose only protection is the order of its writes.

**Extent tree.** `ExtentNode` is one node, `ExtentForest` the list of extents and the
map a tree stands for, `ExtentPath` and `ExtentTail` what happens along a path during
insertion and along the right edge during removal, `ExtentAppend` when a new block
continues the extent in front of it, `ExtentOutcome` how the creation of
a block ends, with blocks lost when the allocator runs dry or a write fails in the
middle of a split, and `ExtentTree` the operations.

**Blocks edited in place.** `XattrLayout` and `XattrBlock` are the extended-attribute
block, `DirBlock` the directory block; both are byte arrays proved to stand for a map
and a list. `XattrRelease` is the check that an attribute block must pass before its
inode lets go of it, and which of the edited blocks do.

**Space and names.** `RangeIndex`, `Bitmap` and `Allocator` are allocation,
`Reclaim` the restartable release and trimming of an inode's blocks, `FileBlocks` the
blocks of all files together with shared attribute blocks, and `Orphans` the on-disk
orphan list and its cleanup. `DirTree` is the directory tree with its link counts,
`DirWalk` the walk over ".." entries, `NameWrites` the direct writes behind an
operation and what a failure among them leaves, `TornCommit` what a commit without a
journal leaves when it fails, and `Namespace` the operations on names.

**Where the code falls short.** Some promises do not hold on all inputs. Each has a
lemma or method with an input that shows it, or a statement that it always fails under
a condition, and the exact condition under which the code does keep it:
an insertion that runs out of blocks half way unmaps blocks (`DryRootSplit`,
`QueryOrCreate`), and so does one of whose writes one fails (`LeftMeans`, `Insert`); logical block 2^32-1 cannot be mapped (`Created` in `QueryOrCreate`);
a rename takes a name that cannot be read for a free one, and a removed directory for
one that can take names (`MissedNameExample`, `RenameResultIsTree`); a ".." that cannot
be read ends the check for circles (`CheckAncestorCycle`, `RenameNeedsCheck`); direct
writes that failed and landed are not undone (`FileLinkLeft`, `MadeLeftIsTree`,
`DropLeavesNoTree`), nor is a bitmap write (`FaultKeepsBalance`), nor a commit without
a journal that failed half way (`TornExample`, `TornRemoval`, `TornReplace`,
`TornRelink`); an attribute whose name is only a prefix hides others, and the next
insertion can bring them back damaged (`Insert`, `HiddenComeBack`); an inode with an
attribute value whose length is not a multiple of four is never released, and blocks
the orphan list for good (`OneByteValue`, `PassesIff`, `SetAttr`, `ReclaimInode`,
`Cleanup`), as is one whose block count includes its attribute block (`ReclaimInode`); a direct
commit that names a home twice leaves out a staged block (`AcceptedIsWhole`).

The checksum is a parameter: every theorem holds for any function of seed and bytes,
and none relies on checksums detecting damage. I/O outcomes are arbitrary choices;
the counters `faults` and `failures` record failed operations so that contracts can
say when an operation fails for no other reason.

Assumptions stated as preconditions, beside those the code itself makes: the ring of
a freshly mounted journal holds no block that reads as a header of the mount sequence
or a later one, and the 32-bit sequence does not wrap within a run; the snapshots of
a direct-range transaction are what the device holds; fresh tree blocks come from the
allocator and are not in the tree; and operations on names start from a directory tree
unless the mount has stopped.

## Model

| member | source | states |
|---|---|---|
| `JournalSafety.CrashAtomicity` | src/ext4/journal_transaction.rs:500-639 | After any run of commits, I/O failures, power losses and recoveries, and whatever subset of the unflushed writes survives, recovery succeeds and the homes equal the initial image with a sequence of whole transactions applied: those that took effect and at most the one in flight. |
| `JournalSafety.HistoryGrows` | src/ext4/journal_transaction.rs:500-639 | A transaction that took effect at some point of a run is in the history of every later state: committed transactions are never lost or reordered. |
| `JournalSafety.RunSafe` | src/ext4/journal_transaction.rs:500-639 | The invariant (every crash image is one of the listed outcomes, and reads see the progress of the protocol) holds in every state of every run. |
| `JournalSafety.StepKeeps` | src/ext4/journal_transaction.rs:500-639 | Each single step of commit, recovery, failure or power loss keeps the invariant. |
| `JournalSafety.PowerLossPossible` | src/ext4/journal_transaction.rs:500-639 | Every crash image of every reachable state is the start of a continuation of the run, so the crash theorem ranges over all power losses. |
| `BlockStore.CrashImageIff` | src/ext4_defs/block.rs:78-118 | A power loss may leave, in each block on its own, what was durable or the data of any unflushed write; nothing else. |
| `JournalRun.CleanDeviceStarts` | src/ext4/journal_transaction.rs:190-197 | Every device with a clean journal superblock and a zeroed ring is the start of a run, so the run theorems have runs to speak of. |
| `JournalSafety.FailureLabels` | src/ext4/journal_transaction.rs:93-103 | After BeforeCommit recovery never applies the transaction; after CheckpointFailed always; after CommitUncertain one of the two; after TailUpdateFailed the homes are already durable before any recovery. |
| `JournalSafety.FailureKept` | src/ext4/journal_transaction.rs:641-655 | Once a failure is recorded, the run only continues through power loss: label and phase stay, so the promise of the label keeps holding. |
| `JournalSafety.InterruptedRecovery` | src/ext4/journal_recovery.rs:50-109 | A power loss at any point inside recovery, any number of times, followed by recovery gives the same homes as one uninterrupted recovery, and the new sequence exceeds every leftover log fragment. |
| `JournalSafety.TargetFixed` | src/ext4/journal_recovery.rs:50-109 | While recovery runs, the history it will settle on does not change from step to step. |
| `JournalSafety.OneSurvivor` | src/ext4/journal_recovery.rs:50-109 | After a power loss only one history is still possible, so two recoveries cannot disagree. |
| `JournalSafety.DurableHomes` | src/ext4/journal_transaction.rs:615-639 | Behind the home flush every crash image already shows the homes of the transaction. |
| `JournalCore.CommittedSurvives` | src/ext4/journal_transaction.rs:218-257 | While the core accepts transactions, every power loss followed by recovery yields exactly the homes after all commits that returned success. |
| `JournalCore.Core.Start` | src/ext4/journal_transaction.rs:218-257 | A writer token is handed out exactly if credits are non-zero, the core is not poisoned, nobody else holds it and the reservation fits the ring; the error codes in their order. |
| `JournalCore.Transaction.Stage` | src/ext4/journal_transaction.rs:294-312 | Staging replaces the image of a home already staged for free, otherwise uses a credit, and refuses exactly when the credits are used up. |
| `JournalCore.Transaction.ReadForUpdate` | src/ext4/journal_transaction.rs:314-340 | The latest staged image of a home, or the device block, which then is staged; an error only without credit, beyond the device or after a read fault. |
| `JournalCore.Transaction.Commit` | src/ext4/journal_transaction.rs:354-375 | Success adds exactly the staged transaction to the history; refusal leaves device and run untouched; any other failure follows a device fault, poisons the core with its label; the cache is published only behind the home flush; a reserved transaction never runs out of ring. It is refused before any write exactly if flushes are unreliable, a home is off limits, or some home could not be found again by recovery from the tag written for it, each with its code; that takes a home of 2^32 or more and a journal that is not both checksummed and 64-bit. |
| `JournalCore.Transaction.CommitJournal` | src/ext4/journal_transaction.rs:500-639 | The journal commit drives the device through the protocol steps of the run model in order and ends in the state the model prescribes, or in a poisoned core whose label matches the phase reached. |
| `JournalCore.Transaction.Prepare` | src/ext4/journal_transaction.rs:500-587 | Encoding and ring placement are refused only for the stated inputs, never for lack of ring, and yield the blocks and slots the log format prescribes. |
| `JournalCore.Transaction.Fail` | src/ext4/journal_transaction.rs:641-655 | A failure poisons the core, records its label in the run and returns the token. |
| `JournalCore.Transaction.Abort` | src/ext4/journal_transaction.rs:350-352 | Dropping a transaction returns the token and reaches no device. |
| `JournalCore.Core.DriveLog` | src/ext4/journal_transaction.rs:589-613 | Device operations up to the commit point, one run step each; on failure the label describes the phase in which the run stopped. |
| `JournalCore.Core.DriveHomes` | src/ext4/journal_transaction.rs:615-639 | Checkpoint, flush, publication and clean superblock; the cache changes exactly if the homes are durable. |
| `JournalCore.Core.WriteLog` | src/ext4/journal_transaction.rs:597-605 | Each payload block goes to its own slot in order and is durable before the commit record. |
| `JournalCore.Core.Checkpoint` | src/ext4/journal_transaction.rs:615-622 | Every home block is written and made durable behind the commit record. |
| `JournalCore.ContentsOfInsert` | src/ext4/journal_transaction.rs:294-312 | The sorted list of staged blocks acts as a map: inserting changes exactly one binding. |
| `JournalCore.OverlayPoints` | src/ext4/journal_transaction.rs:830-854 | The rewritten superblock laid over any old block still parses to this journal with the new tail. |
| `JournalLog.LogLength` | src/ext4/journal_transaction.rs:714-723 | Payload plus commit record is exactly as many blocks as were reserved. |
| `JournalLog.DescriptorCountRoundsUp` | src/ext4/journal_transaction.rs:714-723 | The number of descriptors is the number of blocks over the tags per descriptor, rounded up. |
| `JournalLog.RequiredMonotone` | src/ext4/journal_transaction.rs:714-723 | Fewer staged blocks never need more ring, so a reservation for the credits covers every commit. |
| `JournalLog.RingAtInside` | src/ext4/journal_transaction.rs:725-744 | Positions stay inside the ring and are pairwise distinct within one turn. |
| `JournalLog.RingPositions` | src/ext4/journal_transaction.rs:733-744 | The computed positions are the consecutive ring slots from the head, in order. |
| `JournalLog.EncodeLog` | src/ext4/journal_transaction.rs:746-814 | The encoder with its moving offset produces exactly the specified chunks of descriptor and images, or refuses exactly when some home cannot be named. A home cannot be named exactly if its tag does not parse back to it. |
| `JournalLog.EncodeGroup` | src/ext4/journal_transaction.rs:760-812 | One descriptor with its tags and the escaped images behind it equal the specified blocks. |
| `LogTags.TagsPerDescriptorExact` | src/ext4/journal_transaction.rs:696-712 | The tag count per descriptor is the largest that fits in front of the checksum tail. |
| `LogTags.PrefixFits` | src/ext4/journal_transaction.rs:746-814 | No descriptor overflows its block. |
| `LogTags.EscapeRoundTrip` | src/ext4/journal_transaction.rs:746-814 | Escaping an image that starts with the magic is undone by replay. |
| `LogTags.EscapedIsNoHeader` | src/ext4/journal_transaction.rs:746-814 | No logged image can be taken for a block header. |
| `LogTags.TagRoundTrip` | src/ext4/journal_transaction.rs:770-806 | A written tag parses back to the same block, flags and checksum, in both layouts. |
| `LogTags.TagNamesHome` | src/ext4/journal_transaction.rs:770-806 | A written tag leads recovery to the home of its entry exactly if the encoder takes the entry; otherwise recovery refuses it or goes to another block. |
| `LogTags.EncodableIffReadsBack` | src/ext4/journal_transaction.rs:780-798 | The guard of the encoder admits exactly the entries whose tags parse back to their homes. |
| `LogTags.DescriptorRoundTrip` | src/ext4/journal_recovery.rs:258-314 | A sealed descriptor parses back to the same tags in the same order with a valid checksum. |
| `Jbd2.HeaderRoundTrip` | src/jbd2.rs:59-84 | An encoded header parses back. |
| `Jbd2.CommitRoundTrip` | src/jbd2.rs:302-329 | An encoded commit record is recognised as the commit of its sequence. |
| `Jbd2.RevokeParsesTo` | src/jbd2.rs:330-372 | A revoke block is accepted exactly if the feature, the header, the byte count and the range of its records are right, and yields the big-endian numbers of eight or four bytes that follow the byte count. |
| `JournalFormat.HeaderOnDisk` | src/jbd2.rs:29-84 | Accepted headers are exactly those with the magic number and one of the five type numbers, in these bytes. |
| `JournalFormat.FlagBits` | src/jbd2.rs:22-25 | The bits of the four tag flags. |
| `JournalFormat.FeatureBits` | src/jbd2.rs:92-119 | Of all feature words exactly revoke, 64-bit and checksum version 3 are supported, at these bits. |
| `JournalFormat.TagOnDisk` | src/ext4/journal_transaction.rs:780-798 | Length and fields of a tag in each of the formats, byte by byte. |
| `JournalFormat.ChecksumsCover` | src/jbd2.rs:381-414 | For a checksum that can be computed piecewise: what each of them covers, as one string of bytes with the checksum field blanked. |
| `JournalFormat.SuperblockChecksumCovers` | src/jbd2.rs:374-379 | The same for the superblock. |
| `JournalFormat.ChecksumsKept` | src/jbd2.rs:302-319 | Where the checksums of log blocks are kept and compared. |
| `JournalFormat.SuperblockReads` | src/jbd2.rs:146-190 | Superblock round trip: an image with these fields in these bytes parses to exactly them. |
| `JournalFormat.OnlySuperblocksRead` | src/jbd2.rs:146-190 | Nothing but such an image is accepted. |
| `Jbd2.SuperblockRoundTrip` | src/jbd2.rs:147-190 | A superblock with a new tail parses to the same fields except the tail. |
| `Jbd2.UpdateSuperblockFrame` | src/ext4/journal_transaction.rs:830-844 | Rewriting the tail changes only the tail-pointer bytes and the checksum. |
| `JournalRoundTrip.PlanFull` | src/ext4/journal_recovery.rs:111-256 | Log round trip: a committed log anywhere in the ring yields exactly one transaction and replays exactly the staged images. |
| `JournalRoundTrip.ScanFull` | src/ext4/journal_recovery.rs:111-256 | The scan of a complete log finds the one transaction with its tags and images, then stops. |
| `JournalRoundTrip.ScanTorn` | src/ext4/journal_recovery.rs:111-256 | A log without its commit record is not seen, whatever part of its payload is in place. |
| `JournalImage.RecoverFull` | src/ext4/journal_recovery.rs:50-109 | Recovering a committed transaction completes all its homes and leaves a clean journal two sequences on. |
| `JournalImage.RecoverTorn` | src/ext4/journal_recovery.rs:50-109 | Recovering a torn transaction drops it and leaves a clean journal whose sequence is past it. |
| `JournalImage.LogIsStale` | src/ext4/journal_recovery.rs:50-109 | Leftovers of a transaction are never mistaken for a later one. |
| `JournalRecovery.Recovery.Recover` | src/ext4/journal_recovery.rs:50-109 | The three passes leave the device equal to the recovery function of the initial image; they fail only after a device fault or when that function fails; every state on the way recovers to the same homes. The number returned is that of the transactions replayed. |
| `JournalRecovery.Recovery.Walk` | src/ext4/journal_recovery.rs:111-256 | Each pass walks the same prefix of complete transactions and has exactly the effect of the scan, revoke or replay function. |
| `JournalRecovery.Recovery.WalkTxn` | src/ext4/journal_recovery.rs:111-256 | One transaction: stops, fails or completes exactly as the scan function says, with the effects of its tags and revokes. |
| `JournalRecovery.Recovery.WalkTags` | src/ext4/journal_recovery.rs:153-195 | The blocks behind a descriptor are read, checked and, in the last pass, written home in order. |
| `JournalRecovery.Recovery.WalkRevoke` | src/ext4/journal_recovery.rs:196-225 | A revoke block enters exactly its records. These are the numbers that its bytes list, see RevokeParsesTo. |
| `JournalRecovery.ReadTags` | src/ext4/journal_recovery.rs:258-314 | The tag loop with its advancing offset computes the tag parser. |
| `JournalRecovery.DoneIsDone` | src/ext4/journal_recovery.rs:50-109 | Recovering a recovered image changes nothing. |
| `JournalMount.RecoverRun` | src/ext4/journal_recovery.rs:50-109 | Recovery run on the device of any run that ended in a power loss: on success the run goes on to a clean journal on exactly that device, with the one history that was still possible; it fails only after a device fault; every state the device passes through, under every further power loss, recovers to the homes of that history. |
| `JournalMount.RecoveryIsRun` | src/ext4/journal_recovery.rs:50-109 | The image that recovery computes is reached by recovery steps of the state machine: replayed homes, flush, sealed superblock, flush. |
| `ReplayMeaning.ReplayGivesLastCommitted` | src/ext4/journal_recovery.rs:111-256 | For a log of fewer than 2^31 transactions each home ends with the data of its last live tag unless a revoke of equal or later sequence covers it; every other block is unchanged. |
| `ReplayMeaning.StopOnlyAtEnd` | src/ext4/journal_recovery.rs:111-256 | The stop test of the later passes cannot fire before the end of the scan, even if the sequence wraps. |
| `ReplayMeaning.TidOrder` | src/ext4/journal_recovery.rs:324-326 | The serial-number comparison orders transactions less than half the sequence space apart. |
| `ReplayMeaning.RevokedMeansCovered` | src/ext4/journal_recovery.rs:111-256 | A tag is skipped exactly when a revoke of its transaction or a later one names its block. |
| `LogMeaning.RevokeRoundTrip` | src/jbd2.rs:330-372 | In both record widths a revoke block that lists any blocks that fit reads back to exactly that list. |
| `LogMeaning.ScanHistory` | src/ext4/journal_recovery.rs:111-256 | A log of any number of transactions, each with any number of descriptors and revoke blocks, anywhere in the ring and across the wrap of the sequence, is scanned to exactly these transactions. |
| `LogMeaning.RecoverHistory` | src/ext4/journal_recovery.rs:50-109 | Recovery of such a log leaves each home with the last image the log holds of it, unless that transaction or a later one revokes the block: then no image of it is written. The journal is clean, two sequence numbers past the last transaction. |
| `ScanAccepts.ScanFinds` | src/ext4/journal_recovery.rs:111-256 | Only intact transactions are found: all blocks have the sequence number, every checksum there is was right, and a commit block closes them. |
| `ScanAccepts.ScanPieces` | src/ext4/journal_recovery.rs:111-256 | A transaction that can be read up to its commit block is found if it is intact; if a checksum is wrong, recovery fails instead of replaying it or passing over it. |
| `ScanAccepts.PlanAccepts` | src/ext4/journal_recovery.rs:175-225 | Replay goes ahead exactly if no live tag names a journal block and every revoke block is well formed, expected and lists only blocks of the file system outside the journal. |
| `JournalRecovery.CountReported` | src/ext4/journal_recovery.rs:106-108 | The difference of the sequence numbers is the number of transactions, even across their wrap. |
| `DirectRange.DirectTransaction.PrepareRange` | src/ext4/low_level.rs:126-208 | In every crash state since the start, an inode that reaches the new extent implies zeroed and durably allocated blocks, provided the new inode image was not there before; BeforeCommit leaves everything outside the range as it was and the backend usable; failure only after a device fault or bad arguments. |
| `DirectRange.DirectTransaction.CommitDirectRange` | src/ext4/journal_transaction.rs:377-449 | Allocation homes, flush, inode, in this order; BeforeCommit restores every home, later failures poison; the cache is published only on success. If no home is named twice it accepts exactly a transaction whose homes and inode are all that was staged. |
| `DirectRange.DirectTransaction.Rollback` | src/ext4/journal_transaction.rs:451-467 | Restoring the originals last to first makes the view what it was, including the home whose write failed. |
| `DirectRange.DirectTransaction.WriteHomes` | src/ext4/journal_transaction.rs:411-424 | Allocation homes are written in order and a failed write counts as attempted. |
| `DirectRange.DirectCore.InitializeRange` | src/ext4/low_level.rs:65-78 | The range is zeroed chunk by chunk and durable on success; nothing else changes. |
| `DirectRange.DirectCore.Start` | src/ext4/journal_transaction.rs:154-182 | The direct backend hands out one writer at a time and none when poisoned. |
| `DirectRange.DirectTransaction.ReadForUpdate` | src/ext4/journal_transaction.rs:314-340 | First access snapshots the original; later accesses see the private image. |
| `DirectRange.InodeIsOrdered` | src/ext4/journal_transaction.rs:427-447 | Writing the inode over durable allocation metadata keeps the crash order. |
| `DirectRange.DirectTransaction.AcceptedIsWhole` | src/ext4/journal_transaction.rs:391-409 | The arguments accepted are exactly the whole transaction if no home is named twice; otherwise a staged block is left out. |
| `ExtentTree.ExtentTree.QueryOrCreate` | src/ext4/extent.rs:516-601 | A mapped block is found without change. A hole is filled exactly if no write fails and the allocator has enough blocks: the data block and, unless the block merges, one per full node on the way up from the leaf, one more if that includes the root; then the map gains exactly that entry and the tree exactly those blocks, and it is well formed unless it grew beyond the greatest depth. Block 2^32-1 gets no mapping: a merge changes nothing, an extent of its own spoils the leaf. If the allocator runs dry in between, the upper part of the node split last is lost, and at least one block that was mapped before is no longer; all other mappings stay. If a write fails, the tree is as before, or the map has gained the block but for exactly the extents that are then lost, once at most one node is written that is linked but not there. If some extent of fewer than 32768 blocks ends right in front of the hole and of the first free block, one free block is enough, no tree block is taken, and only that extent changes, by one block; any other hole gets an extent of one block of its own. |
| `ExtentTree.ExtentTree.Create` | src/ext4/extent.rs:536-600 | The same for the hole at the end of a given path: data first, then the extent. |
| `ExtentTree.ExtentTree.Query` | src/ext4/extent.rs:469-505 | The tree lookup returns what the map says, ENOENT for a hole and EIO below the first key of a deep tree. |
| `ExtentTree.ExtentTree.FindExtent` | src/ext4/extent.rs:738-774 | The walk ends in the leaf for the block with the answer the leaf gives. |
| `ExtentTree.ExtentTree.Insert` | src/ext4/extent.rs:776-840 | Succeeds exactly if no write fails and the allocator covers the run of full nodes above the leaf; then the extent list gains exactly the new extent and the tree exactly the blocks taken. With too few blocks it stops at the level the supply allows and exactly the extents below the unlinked upper part of that node are missing. After a failed write it is as before, complete, or torn in the same way, with at most one linked node that was not written. |
| `ExtentTree.DryRootSplit` | src/ext4/extent.rs:776-793 | A concrete loss: a full root of four separate extents and one free block; creating a fifth reports ENOSPC, and a block that was mapped before the call is not mapped after it. |
| `ExtentOutcome.TearsMaps` | src/ext4/extent.rs:776-840 | After a split that stopped half way exactly the lost extents are unmapped; every other block maps to what it did, and the new block to its place unless it is among the lost. |
| `ExtentOutcome.BlockLost` | src/ext4/extent.rs:776-840 | Two lost extents always include a block that was mapped before and is not the new one. |
| `ExtentOutcome.TornTree` | src/ext4/extent.rs:776-840 | What is left after such a stop is a well-linked tree of the old depth that lacks exactly the upper part of one node, however many levels lie above it. |
| `ExtentOutcome.CreatedMeans` | src/ext4/extent.rs:516-601 | Gaining an extent of one block adds one mapping; gaining the empty extent made for block 2^32-1 adds none and spoils the order. |
| `ExtentAppend.MergesIff` | src/ext4/extent.rs:566-595 | The merge test at the leaf succeeds exactly if some extent of the whole file of fewer than 32768 blocks ends right in front of the hole and of the new block. |
| `ExtentAppend.GainIsAppend` | src/ext4/extent.rs:566-599 | A gain that keeps the number of extents where it can lengthens exactly that extent by one block, and otherwise adds an extent of one block. |
| `ExtentAppend.SameExtentCount` | src/ext4/extent.rs:575-595 | Changing an entry of one leaf in place keeps the number of extents of the file. |
| `ExtentNode.NodesFillSpace` | src/ext4_defs/extent.rs:489-493 | Root and tree blocks hold as many entries as fit into their bytes. |
| `ExtentNode.StoredCount` | src/ext4_defs/extent.rs:189-243 | What the stored count of an extent means in numbers. |
| `ExtentTree.ExtentTree.Split` | src/ext4/extent.rs:842-893 | Parent plus what it could not keep are the old entries with the link to the new block right behind the child; the parent is written first, so a failed write leaves nothing, all, or the parent without the new node. |
| `ExtentTree.ExtentTree.SplitRoot` | src/ext4/extent.rs:895-935 | Both halves of the root move into new blocks and the tree grows by one level; the root is written last, so a failed write leaves the cut root or the whole new tree. |
| `ExtentOutcome.LeftMeans` | src/ext4/extent.rs:776-935 | What a failed write leaves of the map: it has gained the block, but exactly the lost extents are unmapped, and if there are any, one of their blocks was mapped before. |
| `ExtentOutcome.StepLeaves` | src/ext4/extent.rs:776-935 | A step of the insertion after which nothing is pending is the whole insertion; after any other the pending part is lost. |
| `ExtentTree.ExtentTree.LastExtent` | src/ext4/extent.rs:186-251 | The described tail is the last extent of the map, none exactly for an empty tree. |
| `ExtentTree.ExtentTree.RemoveTail` | src/ext4/extent.rs:253-403 | The map loses exactly the returned logical range, the old tree blocks are the disjoint union of the new ones and the returned ones, the tree stays well formed and an emptied one is the depth-0 root. |
| `ExtentTree.ExtentTree.GiveUpNodes` | src/ext4/extent.rs:253-403 | Every node that became empty on the right edge is given up once, none that is still needed. |
| `ExtentTail.DropsMaps` | src/ext4/extent.rs:253-403 | Exactly the returned range is unmapped and it was mapped to the returned physical range. |
| `ExtentForest.GainsMaps` | src/ext4/extent.rs:516-601 | One mapping is added and every other one stays. |
| `ExtentForest.FirstKey` | src/ext4/extent.rs:738-774 | Every index key equals the first logical block of its child subtree. |
| `ExtentForest.KeysAscend` | src/ext4/extent.rs:937-1032 | Index entries of a well-formed tree ascend. |
| `ExtentPath.OneUp` | src/ext4/extent.rs:842-893 | A split moves one level up without changing what the subtree maps. |
| `ExtentPath.RootSplit` | src/ext4/extent.rs:895-935 | Splitting the root keeps the extent list and links the tree one level deeper. |
| `ExtentPath.BelowFirst` | src/ext4/extent.rs:738-774 | Below the first key of a deep tree nothing is mapped, so its EIO hides no block. |
| `ExtentPath.SoundIsWellKept` | src/ext4/extent.rs:937-1032 | Every node of a well-formed tree passes the checks made on each read. |
| `ExtentNode.Validate` | src/ext4/extent.rs:937-1032 | Exactly the sound nodes are accepted. |
| `ExtentNode.NodeBuf.SearchExtent` | src/ext4_defs/extent.rs:331-356 | The linear search finds the covering extent or the place for one; an unwritten cover counts as not found. |
| `ExtentNode.NodeBuf.SearchIndex` | src/ext4_defs/extent.rs:358-377 | The last index entry at or below the block. |
| `ExtentNode.NodeBuf.Insert` | src/ext4_defs/extent.rs:502-627 | In a node with room the entry is inserted by shifting; a full one keeps two thirds, with the new entry if it belongs there, and the two halves in order are the entries with the new one. |
| `ExtentNode.NodeBuf.TrimTail` | src/ext4/extent.rs:405-421 | The last extent is shortened or dropped, an unwritten one stays unwritten. |
| `ExtentNode.NodeBuf.RemoveLast` | src/ext4_defs/extent.rs:479-487 | Exactly the last entry goes. |
| `ExtentNode.LastBlockSpoilsLeaf` | src/ext4/extent.rs:516-601 | An extent made for logical block 2^32-1 has length zero, exactly for that block, and makes its leaf fail the read checks; what a creation there does is part of QueryOrCreate. |
| `XattrBlock.XattrBlock.Init` | src/ext4_defs/xattr.rs:352-357 | A fresh block holds no attribute. |
| `XattrBlock.XattrBlock.Get` | src/ext4_defs/xattr.rs:379-398 | Lookup in the bytes is lookup in the map of the attributes; of two entries with one name the first counts. |
| `XattrBlock.XattrBlock.List` | src/ext4_defs/xattr.rs:400-415 | All names, in table order. |
| `XattrBlock.XattrBlock.Insert` | src/ext4_defs/xattr.rs:417-496 | On any block, whatever its blank area holds: false and unchanged exactly when entry plus value do not leave a byte of that area; otherwise every byte of the block is stated. A new name gets its binding, a name that is there keeps the old one, and all values survive the moves. A name that is only a prefix is not found afterwards, and it and all that comes after it become blank area; the next insertion overwrites both ends of that area, and scans still end behind the table exactly if the byte they then meet is zero, which it always is in a block without such names. |
| `XattrBlock.XattrBlock.Remove` | src/ext4_defs/xattr.rs:498-562 | Removes the first entry of the name, closes both holes, which join the blank area, and keeps every other binding; leaves none of the name if names occur once; scans always end afterwards; false and unchanged exactly when the name is absent. |
| `XattrBlock.XattrBlock.ShiftOffsets` | src/ext4_defs/xattr.rs:479-486 | The value offsets of exactly the moved values are adjusted. |
| `XattrLayout.InsertBinding` | src/ext4_defs/xattr.rs:417-496 | Inserting between its neighbours keeps the order and adds one binding, or none if the name is there already. |
| `XattrLayout.RemoveBinding` | src/ext4_defs/xattr.rs:498-562 | Dropping the first entry of a name keeps the order and every other binding. |
| `XattrBlock.HidesRest` | src/ext4_defs/xattr.rs:424-444 | For every scan, an entry without a name and the entries and values that belong to it and to later ones are blank area. |
| `XattrBlock.HiddenComeBack` | src/ext4_defs/xattr.rs:467-486 | If the next entry takes exactly the place of one without a name, a scan runs on into the hidden entries, although the end of their values has been overwritten. |
| `XattrLayout.NameRoundTrip` | src/ext4_defs/xattr.rs:267-281 | Splitting a name into prefix number and suffix loses nothing. |
| `XattrLayout.StoredNames` | src/ext4_defs/xattr.rs:311-332 | The number of each name prefix, which comes first, and what is cut off. |
| `XattrLayout.ListedNames` | src/ext4_defs/xattr.rs:267-281 | The prefix that each number stands for in a listed name. |
| `XattrLayout.EntryOnDisk` | src/ext4_defs/xattr.rs:180-265 | The bytes of a table entry, field by field. |
| `XattrLayout.LayoutOnDisk` | src/ext4_defs/xattr.rs:417-496 | Where header, table, blank area and values are. |
| `XattrBlock.HeaderOnDisk` | src/ext4_defs/xattr.rs:38-49 | The bytes of a fresh header. |
| `XattrLayout.CompareOrder` | src/ext4_defs/xattr.rs:296-309 | The comparison of names is a total order. |
| `XattrBlock.EntryRoundTrip` | src/ext4_defs/xattr.rs:221-265 | An entry written into the table reads back. |
| `XattrRelease.ValidateForRelease` | src/ext4_defs/xattr.rs:98-175 | The check before a release accepts exactly the blocks with a sound header, a table that ends, and values that overlap neither the table nor each other; sorting and comparing neighbours decides that. |
| `XattrRelease.SortDecides` | src/ext4_defs/xattr.rs:168-173 | Neighbours in order do not overlap exactly if no two ranges do. |
| `XattrRelease.PassedIsSafe` | src/ext4_defs/xattr.rs:98-175 | In any block that passes, whatever its bytes, the table ends inside it and the values lie behind the table, aligned, inside the block and apart. |
| `XattrRelease.PassesIff` | src/ext4_defs/xattr.rs:98-175 | Of the blocks that were edited in place, exactly those pass in which the length of every value is a multiple of four and no name has a zero byte behind its prefix. |
| `XattrRelease.EditPasses` | src/ext4_defs/xattr.rs:417-562 | Adding or removing an attribute keeps a block releasable exactly if that attribute meets this condition. |
| `XattrRelease.NewHeaderFine` | src/ext4_defs/xattr.rs:38-49 | A fresh header passes, with one user. |
| `XattrRelease.SetAttr` | src/ext4/low_level.rs:1672-1743 | Setting an attribute on a copy of the block: refused exactly for the stated reasons, with the old block kept; otherwise exactly the one binding changes, and scans still end behind the table if the name was there or nothing is hidden. Unless something is, whether the inode can be released later is decided by the lengths and names of all its attributes. |
| `XattrRelease.RemoveAttr` | src/ext4/low_level.rs:1756-1778 | Exactly the one binding goes; unless something is hidden, the block is releasable exactly if the others allow it. |
| `XattrRelease.OneByteRefused` | src/ext4_defs/xattr.rs:149-157 | One value of one byte, under any name, is enough for a block to be refused. |
| `XattrRelease.OneByteValue` | src/ext4_defs/xattr.rs:98-175 | A fresh block with one value of one byte, under any name, is refused. |
| `XattrRelease.CountedDownSame` | src/ext4/xattr_reclaim.rs:108-123 | Counting a block down changes nothing about the check for its other users. |
| `DirBlock.DirBlock.Init` | src/ext4_defs/dir.rs:356-369 | One unused record over the data area, checksum tail in place, room for any name. |
| `DirBlock.DirBlock.ValidateLeaf` | src/ext4_defs/dir.rs:224-278 | Exactly the blocks tiled by sound records (with a sound tail) are accepted. |
| `DirBlock.DirBlock.Get` | src/ext4_defs/dir.rs:371-387 | The first entry of that name, none exactly if absent. |
| `DirBlock.DirBlock.List` | src/ext4_defs/dir.rs:389-406 | All used entries in order. |
| `DirBlock.DirBlock.Insert` | src/ext4_defs/dir.rs:408-458 | Adds exactly one entry and succeeds exactly if some record has room; records still tile the block. |
| `DirBlock.DirBlock.Remove` | src/ext4_defs/dir.rs:460-501 | Removes exactly the first entry of that name; afterwards a record has room for it again, so inserting it again succeeds. |
| `DirBlock.DirBlock.Replace` | src/ext4_defs/dir.rs:503-529 | Points exactly the first entry of that name at the new inode. |
| `DirBlock.TilesConcat` | src/ext4_defs/dir.rs:224-278 | Tilings compose: the record list of a range is the lists of its two parts. |
| `DirBlock.RecordOnDisk` | src/ext4_defs/dir.rs:224-278 | A record is accepted exactly where the bytes of one stand, with aligned length, room for its name and a known type. |
| `DirBlock.RoomIsCut` | src/ext4_defs/dir.rs:408-458 | There is room for a name exactly if a record can be cut into two aligned parts that are long enough. |
| `DirBlock.TailOnDisk` | src/ext4_defs/dir.rs:143-171 | Where the records end and the bytes of the checksum tail. |
| `RangeIndex.Merge` | src/ext4/mod.rs:397-410 | The merged list covers the same blocks, sorted and strictly separated. |
| `RangeIndex.CandidateDecides` | src/ext4/mod.rs:715-738 | In a separated list the partition point answers for all ranges. |
| `RangeIndex.MergedAgrees` | src/ext4/mod.rs:397-410 | A query overlaps the merged list exactly when it overlaps some original range. |
| `RangeIndex.PartitionPoint` | src/ext4/mod.rs:715-738 | The binary search finds the first range not ending at or before the query. |
| `RangeIndex.DataGuard.ValidateDataBlocks` | src/ext4/mod.rs:715-738 | Exactly the non-empty in-range data ranges free of metadata and journal are accepted. |
| `Bitmap.FirstClearRunIn` | src/ext4_defs/bitmap.rs:28-57 | The lowest run of that many clear bits in range, none exactly if there is none. |
| `Bitmap.Bitmap.FirstClearBit` | src/ext4_defs/bitmap.rs:21-26 | The lowest clear bit in range. |
| `Bitmap.Bitmap.FindAndSetFirstClearBit` | src/ext4_defs/bitmap.rs:59-66 | Sets exactly the lowest clear bit. |
| `Bitmap.SetThenUnset` | src/ext4_defs/bitmap.rs:12-19 | Releasing what was just taken gives back the same bytes. |
| `Bitmap.BitOrder` | src/ext4_defs/bitmap.rs:8-18 | Which bit of which byte stands for a block. |
| `Bitmap.CountRun` | src/ext4/alloc.rs:86-205 | Releasing a run changes the number of clear bits by its length. |
| `Allocator.Allocator.AllocBlock` | src/ext4/alloc.rs:891-971 | Chooses the lowest free block of the first group with any, counted from the preferred one; ENOSPC exactly when every block is in use; on success one bit and both counters change. After a failed bitmap write that bit, and nothing else, may be set; after an undone counter write nothing changed; the books balance after such a failure exactly if nothing changed. |
| `Allocator.Allocator.DeallocBlock` | src/ext4/alloc.rs:1002-1068 | Clears exactly one used bit and raises the counters; refuses exactly free or foreign blocks; failures leave what they leave in an allocation, and the books balance exactly if nothing changed. |
| `Allocator.Allocator.AllocRange` | src/ext4/alloc.rs:86-205 | The range is the first offer among at most four groups: the free preferred position in the first one, otherwise the lowest clear run; ENOSPC exactly if none of them offers anything; counters stay balanced. A preferred run that is free and inside one group is the one returned, or EIO if it is protected; else, unless it was required, the lowest free run of the first group with one. |
| `Allocator.OfferDecides` | src/ext4/alloc.rs:129-156 | A group makes at most one offer, so the outcome of the search is determined. |
| `Allocator.OfferMeans` | src/ext4/alloc.rs:100-156 | In terms of blocks: the search ends with the preferred run if that is free inside its group, else with the lowest free run of the first of four groups that has one. |
| `Allocator.NoneOffers` | src/ext4/alloc.rs:100-156 | If no group makes an offer, the preferred run is not free and, unless it was required, none of the groups has a free run of that length. |
| `Allocator.ProbeSteps` | src/ext4/alloc.rs:110-112 | The probes go from a group to the next one and from the last to the first. |
| `Allocator.TooFew` | src/ext4/alloc.rs:120-125 | Skipping a group by its counter never skips a run. |
| `Allocator.Allocator.DeallocRange` | src/ext4/alloc.rs:216-315 | Succeeds exactly for a non-empty used data range inside one group, clears exactly it and adds its length to the counters. |
| `Allocator.TakeThenRelease` | src/ext4/alloc.rs:216-315 | Taking a free run and releasing it restores the bitmap. |
| `Allocator.AllocThenRelease` | src/ext4/alloc.rs:216-315 | Releasing what was allocated gives back the whole accounting: every bitmap, every group counter and the total. |
| `Allocator.ReleaseThenAlloc` | src/ext4/alloc.rs:86-205 | Allocating what was released gives it back, too. |
| `Allocator.FaultKeepsBalance` | src/ext4/alloc.rs:936-965 | After a failure that was not followed by a second one the counters agree with the bits exactly if nothing changed at all. |
| `Allocator.Allocator.Publish` | src/ext4/alloc.rs:891-971 | Bitmap, group counter, file system counter in this order; a failed counter write is undone, or each of the three is as before or as intended. |
| `Allocator.AllProbed` | src/ext4/alloc.rs:891-971 | Going round once visits every group. |
| `Reclaim.BatchInOneGroup` | src/ext4/alloc.rs:16-28 | A batch is non-empty and never crosses a block-group boundary. |
| `Reclaim.BatchIsLargest` | src/ext4/alloc.rs:16-28 | It takes the whole range or all that lies in the last group. |
| `Reclaim.NoBatch` | src/ext4/alloc.rs:16-28 | There is none exactly for an empty range, no group size, a range below the data or one that overflows. |
| `Reclaim.LinkedLimitKeeps` | src/ext4/alloc.rs:30-45 | A linked trim never goes below the end of file or beyond the batch, and stops exactly when nothing is beyond it. |
| `Reclaim.LinkedLimitLargest` | src/ext4/alloc.rs:30-45 | It takes as much as it may: the whole batch, or all down to the end of file. |
| `Reclaim.InBytes` | src/ext4/alloc.rs:618 | The rounded-up block count separates the blocks with a byte of the file from the others, whatever its size. |
| `Reclaim.Reclaimer.Reclaim` | src/ext4/alloc.rs:685-773 | The loop terminates; on success the tree is empty, exactly the owned blocks are cleared and added to the free counters, and the block count is what it counted beyond them; a failed commit leaves a sound state from which it can be started again. |
| `Reclaim.Reclaimer.TrimLinked` | src/ext4/alloc.rs:599-669 | Mappings below the end of file are untouched and nothing is mapped at or beyond it; restartable after every commit. In bytes: each block that holds a byte of the file keeps its mapping, and no extent reaches beyond the block of its last byte. |
| `Reclaim.Reclaimer.Step` | src/ext4/alloc.rs:700-772 | One transaction releases exactly the tail and the given-up nodes and keeps the inode and the allocation metadata consistent. |
| `Reclaim.Reclaimer.NextBatch` | src/ext4/alloc.rs:700-740 | The sanity checks on the tail pass for every sound inode and the batch can be released as one range. |
| `Reclaim.TailIsSound` | src/ext4/alloc.rs:706-740 | The EIO checks on the tail cannot fire on a sound inode. |
| `Reclaim.ReleasedComposes` | src/ext4/alloc.rs:685-773 | Steps compose. |
| `Reclaim.RestartReachesSameEnd` | src/ext4/alloc.rs:685-773 | Stopping after any committed step and starting again ends with the same bits and counters. |
| `FileBlocks.OneFileReleased` | src/ext4/alloc.rs:685-773 | What one file releases is released for the whole file system: exactly the blocks nobody owns any more, and every other file stays sane. |
| `FileBlocks.ApartMeans` | src/ext4/alloc.rs:685-773 | Files are apart exactly if no block belongs to two of them. |
| `FileBlocks.SharedAttrReleased` | src/ext4/xattr_reclaim.rs:108-123 | A shared attribute block is counted down and stays in use; the counts still equal the number of users. |
| `FileBlocks.LastAttrReleased` | src/ext4/xattr_reclaim.rs:124-128 | The last user of an attribute block releases exactly that block. |
| `Orphans.OrphanList.Validate` | src/ext4/orphan.rs:62-93 | Accepts exactly the lists that reach the end through valid inodes, and terminates on any pointers. The numbers it accepts run from the first ordinary inode to the last inode, without root and journal. |
| `Orphans.ChainOnDevice` | src/ext4/orphan.rs:54-93 | A chain is a list of allocated, known, intact inodes with admissible numbers, each naming the next and the last naming none. |
| `Orphans.ChainIsAcyclic` | src/ext4/orphan.rs:62-93 | A list that ends visits no inode twice. |
| `Orphans.NoWayOn` | src/ext4/orphan.rs:62-93 | Each reason for refusal means that no valid list exists; the length bound never refuses a valid one. |
| `Orphans.OrphanList.Add` | src/ext4/orphan.rs:112-133 | The inode becomes the head pointing at the old head, with the two error codes. |
| `Orphans.AddPrepends` | src/ext4/orphan.rs:112-133 | Adding prepends to the list exactly if the inode was not on it; otherwise the list no longer ends. |
| `Orphans.OrphanList.Delete` | src/ext4/orphan.rs:138-193 | Succeeds exactly if a walk from the head finds the target and the caller image is current, and changes exactly one link. |
| `Orphans.OrphanList.ReleaseBlocks` | src/ext4/alloc.rs:599-773 | Releasing or trimming one inode, composed of the block transactions, seen from all files. |
| `Orphans.OrphanList.ReleaseAttr` | src/ext4/xattr_reclaim.rs:75-130 | One transaction lets go of the attribute block: counted down while shared, released by the last user. Without a failure it succeeds exactly if the block passes the check, and otherwise changes nothing, with the error code of the code. |
| `Orphans.DeleteRemoves` | src/ext4/orphan.rs:138-193 | The list afterwards is the old one without the target, at the head or in the middle. |
| `Orphans.SettledInode` | src/ext4/alloc.rs:790-800 | A released inode is free and keeps only its generation; an inode with names keeps all but its place in the list. |
| `Orphans.FoundIffMember` | src/ext4/orphan.rs:138-193 | On a valid list the walk finds exactly the members. |
| `Orphans.SettlesMeans` | src/ext4/alloc.rs:599-800 | Which inodes on the list can be settled, spelled out: regular files with extents if they have names; otherwise inodes whose extents account for all they count and whose attribute block, if any, may be detached. |
| `Orphans.OrphanList.ReclaimInode` | src/ext4/alloc.rs:685-800 | Releases every block of an unnamed inode and lets go of its attribute block, then takes it off the list and releases its number in one transaction. Without a failure it succeeds exactly for members without names that have extents or no blocks, whose attribute block passes the check, and whose block count counts nothing else; any other keeps its place, has given up exactly what it could, and will fail again. Whatever fails, exactly the blocks nobody owns any more are released and no other file changes. |
| `Orphans.OrphanList.Empty` | src/ext4/alloc.rs:694-788 | What an unnamed inode owns goes in order: blocks, then attributes, then the test that nothing is counted any more; exactly when all of it goes, and what is left otherwise. |
| `Orphans.OrphanList.RecoverLinked` | src/ext4/alloc.rs:599-683 | Trims a named inode to its size, keeping what is mapped below and its attributes, then takes it off the list; succeeds exactly for regular members with extents unless a transaction fails. Every block that holds a byte of the file stays mapped, and none behind it is. |
| `Orphans.OrphanList.Cleanup` | src/ext4/orphan.rs:219-249 | Settles the validated snapshot in order and ends with an empty list, every unnamed file on it without blocks and every named one trimmed. Wherever it stops, a beginning is settled together with its files, the rest is still a valid list, exactly the blocks nobody owns any more have been released, and files that were not listed are untouched. Without a failure it succeeds exactly if every inode of a valid list can be settled; otherwise it stops at the first that cannot, which then heads the list and still cannot be. |
| `Orphans.RecheckPasses` | src/ext4/orphan.rs:226-238 | The checks against the snapshot hold as long as nobody else changes the list. |
| `DirTree.RootAlone` | src/ext4/alloc.rs:493-512 | The tree that starts a file system satisfies the invariant of the namespace. |
| `DirTree.RenameKeepsTree` | src/ext4/low_level.rs:1283-1331 | Moving a name keeps the tree, matching ".." and exact link counts. |
| `DirTree.RenameNeedsCheck` | src/ext4/low_level.rs:1047-1066 | Without the ancestor check a move below itself would destroy the tree, always. |
| `DirTree.ReplaceIsRemoveThenMove` | src/ext4/low_level.rs:1143-1282 | A replacing rename equals removing the old name and then moving, and keeps the tree. |
| `DirTree.ExchangeIsThreeMoves` | src/ext4/low_level.rs:1354-1459 | An exchange equals three plain moves over an unused name, each of them allowed. |
| `DirTree.ExchangeKeepsTree` | src/ext4/low_level.rs:1354-1459 | An exchange keeps the tree. |
| `DirTree.UnlinkKeepsTree` | src/ext4/link.rs:69-145 | Removing a file name or an empty directory keeps the tree. |
| `DirTree.AttachKeepsTree` | src/ext4/link.rs:14-73 | Publishing a name keeps the tree exactly if the directory has not itself been removed. |
| `DirTree.UnlinkedRebinds` | src/ext4/link.rs:69-145 | After a removal lookups find nothing under that name and the same as before under every other one. |
| `DirTree.RenamedRebinds` | src/ext4/low_level.rs:1283-1331 | After a move the new name means what the old one did, which is gone; no other name changes. |
| `DirTree.ReplacedRebinds` | src/ext4/low_level.rs:1143-1282 | The same after a replacing rename. |
| `DirTree.ExchangedRebinds` | src/ext4/low_level.rs:1354-1459 | After an exchange each name means what the other did. |
| `DirTree.FreshRebinds` | src/ext4/link.rs:14-73 | After a creation the new name means the new inode; no other name changes. |
| `DirTree.AcyclicAfter` | src/ext4/low_level.rs:1047-1066 | Giving directories new parents that do not lie below them makes no cycle. |
| `DirTree.NameFacts` | src/ext4/link.rs:69-145 | In a tree a directory has one name, its ".." is its parent and its parent counts it. |
| `DirWalk.MeetsIffAbove` | src/ext4/low_level.rs:1047-1066 | From a directory that has not been removed, the walk meets a directory exactly if that lies on the way to the root. |
| `DirWalk.WalkedAll` | src/ext4/low_level.rs:1047-1066 | A walk that has stopped has met everything it will ever meet. |
| `DirWalk.UnlinkSettles` | src/ext4/link.rs:69-145 | Removed directories never hang on each other in a circle, so the walk from one of them ends. |
| `NameWrites.RenameKeepsTreeIff` | src/ext4/low_level.rs:1283-1331 | A plain rename to a free name leaves a tree exactly if its directory has not been removed and does not lie below what moves. |
| `NameWrites.RenameResultIsTree` | src/ext4/low_level.rs:1092-1336 | The condition under which a rename that succeeds leaves a tree, over all its outcomes. |
| `NameWrites.MovedOverName` | src/ext4/low_level.rs:1120-1122 | A name that exists but could not be read is treated as free: afterwards an inode has more links than names that lookups find, always. |
| `NameWrites.MissedNameExample` | src/ext4/low_level.rs:1120-1122 | A concrete case: after "a" is renamed over an unreadable "b", the old file keeps its link and has no name. |
| `NameWrites.MoveWritesAll` | src/ext4/low_level.rs:1283-1331 | The writes of a plain rename, in order, amount to the rename. |
| `NameWrites.ExchangeWritesAll` | src/ext4/low_level.rs:1406-1456 | The writes of an exchange, in order, amount to the exchange. |
| `NameWrites.ExchangeResultIsTree` | src/ext4/low_level.rs:1354-1459 | An exchange leaves a tree exactly if neither directory comes to lie below itself. |
| `NameWrites.DropLeavesNoTree` | src/ext4/link.rs:131-143 | An entry that went without its link count leaves no tree. |
| `NameWrites.FileLinkLeft` | src/ext4/link.rs:58-72 | A file that could not be given another name: nothing changed, and the tree is kept, exactly if the write that failed did not land. |
| `NameWrites.MadeLeftIsTree` | src/ext4/low_level.rs:533-552 | A creation that failed leaves the tree as it was, a parent that counts a child too many, or a name of a released inode; only the first is a tree. |
| `NameWrites.ChildTooMany` | src/ext4/link.rs:51-57 | A parent whose count was raised and not put back leaves no tree. |
| `TornCommit.TornRemoval` | src/ext4/journal_transaction.rs:469-498 | A direct commit of the removal of a last name that failed leaves any part of it; that is a tree exactly if it is all or nothing. |
| `TornCommit.TornReplace` | src/ext4/journal_transaction.rs:469-498 | Of a replacing rename, too, only all or nothing can be a tree. |
| `TornCommit.TornRelink` | src/ext4/journal_transaction.rs:469-498 | Of a new name for a file without one, name and count must both be there. |
| `TornCommit.TornExample` | src/ext4/journal_transaction.rs:469-498 | A concrete case: the entry is gone and the link count is still one. |
| `TornCommit.MergeUniform` | src/ext4/journal_transaction.rs:488-497 | When every block has been written, the commit is complete. |
| `TornCommit.TornIff` | src/ext4/journal_transaction.rs:469-498 | A failed direct commit may leave any combination of old and new link counts, parents and names, and nothing else. |
| `Namespace.Namespace.Commit` | src/ext4/journal_transaction.rs:354-375 | With a journal a failed commit leaves all or nothing; without one any part of what was staged, block by block, with nothing undone. Either way the mount stops. |
| `Namespace.MountEmpty` | src/ext4/low_level.rs:1047-1066 | A root directory on its own is a mount from which all of this starts. |
| `Namespace.Namespace.CheckAncestorCycle` | src/ext4/low_level.rs:1047-1066 | The walk over the ".." entries ends, even from a removed directory, and refuses exactly when it meets the moved one; where a ".." cannot be read it ends early and refuses nothing. |
| `Namespace.Namespace.Rename` | src/ext4/low_level.rs:1092-1336 | Plain, replacing or no-op rename with its error codes. A success leaves a tree exactly if the new directory has not been removed, does not lie below what moves, and the lookup of the new name did not fail over an existing entry; the orphan list gains a target that lost its last name. A failure changes nothing or stops the mount: after a first part of the writes; or, when a name is replaced, after all or nothing with a journal and any part without one, which is a tree exactly if it is nothing, or all and the success would have been one. Without a failed operation it succeeds exactly for a file over a file, a directory over an empty one, a free name or a name of the same inode, unless the walk meets the moved directory, and each error tells its reason; lookups then find the inode under the new name and nothing under the old one. |
| `Namespace.Namespace.RenameExchange` | src/ext4/low_level.rs:1354-1459 | The two names exchange their meaning; the outcome is a tree exactly if neither directory comes to lie below itself, which only a ".." that could not be read lets happen; refused exactly for the stated reasons; a failure leaves a first part of the writes and stops the mount. Without a failed operation it succeeds exactly if both names exist and neither walk meets the directory that moves; each error tells its reason. |
| `Namespace.RenameGivesLast` | src/ext4/low_level.rs:1174-1278 | What a rename hands out for reclaiming is exactly the inode that lost its last link, if one did. |
| `Namespace.UnlinkGivesLast` | src/ext4/link.rs:79-104 | The same for a removal. |
| `Namespace.RenameRules` | src/ext4/low_level.rs:1092-1176 | The order of the checks does not matter for whether a rename is refused, and each code implies its reason. |
| `Namespace.ExchangeRules` | src/ext4/low_level.rs:1354-1404 | The same for an exchange. |
| `Namespace.RemovalRules` | src/ext4/low_level.rs:985-1011 | The same for unlink and rmdir. |
| `Namespace.Namespace.Unlink` | src/ext4/low_level.rs:985-1011 | A file loses one name; the last one puts it on the orphan list; success keeps the tree. After a failure the tree is kept exactly if nothing changed or all did; if the mount goes on, that is so exactly if the removal of the entry did not land. Without a failed operation it succeeds exactly for a name of a file, and each error tells its reason. |
| `Namespace.Namespace.Rmdir` | src/ext4/low_level.rs:1587-1619 | Only an empty directory goes; it ends on the orphan list; the tree is kept. After a failure it is kept exactly if nothing changed or all did, which with a journal is always so. Without a failed operation it succeeds exactly for a name of an empty directory, and each error tells its reason. |
| `Namespace.Namespace.UnlinkInode` | src/ext4/link.rs:69-145 | Entry, parent count, link count and orphan list change together in one transaction when the last name goes, which without a journal can fail half way; otherwise entry and count are two writes, and a failed first one may have landed. Exactly when what is left is a tree. |
| `Namespace.Namespace.LinkInode` | src/ext4/link.rs:14-73 | On success the name is published with exact counts; on failure the state is exactly the writes that were made, with the counts put back if the name was the one to fail; the name itself is never taken back. |
| `Namespace.Namespace.Mkdir` | src/ext4/low_level.rs:1496-1527 | A new empty directory under the name; success keeps the tree exactly if the parent has not been removed. After a failure whose inode was released, the tree is as before exactly if the parent count was not raised, or was put back, and the name did not land. |
| `Namespace.Namespace.Create` | src/ext4/low_level.rs:591-616 | A new file with one name; success keeps the tree exactly if the parent has not been removed. After a failure whose inode was released, the tree is as before exactly if the name did not land. |
| `Namespace.Namespace.Link` | src/ext4/low_level.rs:951-971 | One more name for a file; a file on the orphan list comes off it in the same transaction. After a failure, exactly when nothing changed and when the tree is kept. |
| `Namespace.ReplaceListed` | src/ext4/low_level.rs:1244-1270 | The orphan list still holds exactly the inodes without names after a replacing rename. |
| `Namespace.UnlinkListed` | src/ext4/link.rs:79-104 | The orphan list still holds exactly the inodes without names after a removal. |

## Left out

- ExtentTree.ExtentTree.QueryOrCreate: trees with unwritten extents are outside it, which the insertion overwrites or recycles; and so are failing reads of nodes.
- ExtentNode.NodeBuf.Insert: models insertion among written extents only; the recycling of unwritten ones, which can break the order of a full node, is not modelled.
- XattrRelease.SetAttr: says nothing about the block after a name that is only a prefix; `XattrBlock.Insert` does.
- DirectRange.DirectTransaction.PrepareRange: orders nothing if the new inode image was on the device before; the code has the mutation lock for that.
- Namespace.Namespace.Rename: reads whose failure is reported end the call with nothing changed and are not modelled one by one; so for the other operations on names.
- Orphans.OrphanList.ReleaseAttr: takes the attribute block to be an allocated data block that its users share; the code tests that it is allocated and its checksum.
- Reclaim.Reclaimer.Reclaim: covers the blocks of the extent tree; attribute block and inode number follow in later transactions, see `OrphanList.ReclaimInode`.
- JournalCore.Transaction.Commit: needs two more sequence numbers below 2^32; beyond that a log fragment left over from 2^32 transactions before could pass for a current one.
- DirBlock.DirBlock.ValidateLeaf: covers linear blocks; hashed-tree index blocks are not modelled.
- `DescriptorTags::next_tag`: a second parser of the same tags that recovery does not use.
- Checksum verification of extent nodes, attribute blocks, directory blocks and group descriptors, and the checksum function itself.
- Legacy direct writers that bypass transactions are outside the crash theorem; `Namespace` and `Allocator` model their sequential effect.
- Crash atomicity of `commit_direct`, which the code disclaims.
- The metadata mutation gate and all locking: operations are sequential here.
- Mount-time feature checks, block-group validation and the mapping of the journal inode.
- The recycling of inode numbers.
- File data, sizes after writes, times, modes, owners and statistics.
- A recovery that failed and is tried again on the same mount without a power loss in between.
