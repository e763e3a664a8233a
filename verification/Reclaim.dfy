/** Releasing the blocks of an unlinked inode, and trimming a linked one to its
    size: a loop of small transactions, each of which can be the last one before
    a crash. */
module Reclaim {
  import opened Bytes
  import opened Bitmap
  import opened RangeIndex
  import opened Allocator
  import opened ExtentNode
  import opened ExtentForest
  import opened ExtentPath
  import opened ExtentTail
  import opened ExtentTree

  // ---- Limits --------------------------------------------------------------------

  /** How much of the end of a physical range lies in its last block group. */
  function BatchLimit(firstData: nat, perGroup: nat, start: nat, count: nat): Option<nat> {
    if perGroup == 0 || count == 0 || start < firstData || start + count >= U64_LIMIT then None
    else Some(Min(count, (start + count - 1 - firstData) % perGroup + 1))
  }

  /** The batch is not empty and never crosses a group boundary. */
  lemma BatchInOneGroup(lay: Layout, start: nat, count: nat)
    requires lay.Valid() && count > 0 && lay.firstData <= start && start + count < U64_LIMIT
    ensures var limit := BatchLimit(lay.firstData, lay.perGroup, start, count);
            && limit.Some? && 0 < limit.value <= count
            && forall b: nat :: start + count - limit.value <= b < start + count ==>
                 lay.GroupOf(b) == lay.GroupOf(start + count - 1)
  {
    var x := start + count - 1 - lay.firstData;
    var d := lay.perGroup;
    RemainderBounds(x, d);
    var limit := Min(count, x % d + 1);
    forall b: nat | start + count - limit <= b < start + count
      ensures lay.GroupOf(b) == lay.GroupOf(start + count - 1)
    {
      SameQuotient(b - lay.firstData, x, d);
    }
  }

  /** And it takes all of the range, or all that lies in the last group. */
  lemma BatchIsLargest(lay: Layout, start: nat, count: nat)
    requires lay.Valid() && count > 0 && lay.firstData <= start && start + count < U64_LIMIT
    ensures var limit := BatchLimit(lay.firstData, lay.perGroup, start, count);
            limit.Some? && (limit.value < count ==>
              lay.GroupOf(start + count - limit.value - 1) != lay.GroupOf(start + count - 1))
  {
    var x := start + count - 1 - lay.firstData;
    var d := lay.perGroup;
    RemainderBounds(x, d);
    var limit := Min(count, x % d + 1);
    if limit < count {
      var y := start + count - limit - 1 - lay.firstData;
      assert y == (x / d) * d - 1;
      if y / d == x / d {
        DivBounds(y, d);
        assert false;
      }
    }
  }

  /** Without a range, a group size or a place for it in the file system there
      is no batch. */
  lemma NoBatch(firstData: nat, perGroup: nat, start: nat, count: nat)
    ensures BatchLimit(firstData, perGroup, start, count) == None <==>
              perGroup == 0 || count == 0 || start < firstData || start + count >= 0x1_0000_0000_0000_0000
  {
  }

  lemma RemainderBounds(x: nat, d: nat)
    requires d > 0
    ensures x % d == x - (x / d) * d && 0 <= x % d < d
  {
    assert x == (x / d) * d + x % d;
  }

  lemma SameQuotient(y: nat, x: nat, d: nat)
    requires d > 0 && x - x % d <= y <= x
    ensures y / d == x / d
  {
    RemainderBounds(x, d);
    DivUnique(y, d, x / d);
  }

  /** Never below the end of the file, never beyond the group. */
  function LinkedLimit(keep: nat, tailStart: nat, tailBlocks: nat, groupLimit: nat): Option<nat> {
    var tailEnd := tailStart + tailBlocks;
    if tailEnd <= keep then None
    else Some(Min(groupLimit, Min(tailEnd - (if keep < tailStart then tailStart else keep), U32_LIMIT - 1)))
  }

  lemma LinkedLimitKeeps(keep: nat, tailStart: nat, tailBlocks: nat, groupLimit: nat)
    requires 0 < groupLimit <= tailBlocks && tailStart + tailBlocks < U32_LIMIT
    ensures var limit := LinkedLimit(keep, tailStart, tailBlocks, groupLimit);
            && (limit.None? <==> tailStart + tailBlocks <= keep)
            && (limit.Some? ==> 0 < limit.value <= groupLimit && keep <= tailStart + tailBlocks - limit.value)
  {
  }

  /** It takes as much as it may: up to the end of the file, the tail or the
      group, whichever comes first. */
  lemma LinkedLimitLargest(keep: nat, tailStart: nat, tailBlocks: nat, groupLimit: nat)
    requires 0 < groupLimit <= tailBlocks && tailStart + tailBlocks < U32_LIMIT && keep < tailStart + tailBlocks
    ensures var limit := LinkedLimit(keep, tailStart, tailBlocks, groupLimit).value;
            limit == groupLimit || tailStart + tailBlocks - limit == keep
  {
  }

  // ---- What an inode owns ----------------------------------------------------------

  predicate InSpan(b: nat, start: nat, count: nat) {
    start <= b < start + count
  }

  function Span(start: nat, count: nat): set<nat> {
    set b: nat | start <= b < start + count && InSpan(b, start, count)
  }

  /** The data blocks of the extents, written or not. */
  ghost function Data(extents: seq<Slot>): set<nat> {
    if extents == [] then {}
    else
      var e := extents[|extents| - 1];
      Data(extents[..|extents| - 1]) + Span(e.target, e.Len())
  }

  ghost function Count(extents: seq<Slot>): nat {
    if extents == [] then 0 else Count(extents[..|extents| - 1]) + extents[|extents| - 1].Len()
  }

  /** No data block belongs to two extents. */
  ghost predicate DataApart(extents: seq<Slot>) {
    extents == [] ||
    (var e := extents[|extents| - 1];
     DataApart(extents[..|extents| - 1]) && Data(extents[..|extents| - 1]) !! Span(e.target, e.Len()))
  }

  lemma SpanSplit(start: nat, count: nat, k: nat)
    requires k <= count
    ensures Span(start, count) == Span(start, k) + Span(start + k, count - k)
    ensures Span(start, k) !! Span(start + k, count - k)
  {
  }

  /** A tail removal gives up exactly the returned range. */
  lemma DropsData(before: seq<Slot>, after: seq<Slot>, remove: nat)
    requires Drops(before, after, remove) && DataApart(before)
    ensures var last := before[|before| - 1];
            var gone := Span(last.target + last.Len() - remove, remove);
            && DataApart(after) && Data(before) == Data(after) + gone && Data(after) !! gone
            && Count(before) == Count(after) + remove
  {
    var n := |before| - 1;
    var last, left := before[n], before[..n];
    SpanSplit(last.target, last.Len(), last.Len() - remove);
    if remove < last.Len() {
      var short := Shortened(last, remove);
      assert after[..|after| - 1] == left && after[|after| - 1] == short;
    } else {
      assert after == left;
      assert Span(last.target, 0) == {};
    }
  }

  /** The durable state of one inode and of the allocation metadata. */
  datatype State = State(root: Node, nodes: Blocks, space: Space, count: nat, size: nat)
  {
    ghost function Extents(): seq<Slot> {
      Flat(nodes, root.depth, root.slots)
    }

    ghost function TreeBlocks(): set<nat> {
      Owned(nodes, root.depth, root.slots)
    }

    ghost function Owns(): set<nat> {
      Data(Extents()) + TreeBlocks()
    }

    /** What the block count counts beyond that, such as the attribute block. */
    ghost function Surplus(): int {
      count - Count(Extents()) - |TreeBlocks()|
    }
  }

  /** An ordinary block that is marked as used. */
  ghost predicate Releasable(lay: Layout, original: seq<RangeIndex.Range>, journal: set<nat>, sp: Space, b: nat)
    requires Fits(lay, sp)
  {
    b != 0 && lay.InRange(b) && InUse(lay, sp, b) && !Covered(original, b) && b !in journal
  }

  ghost predicate Sane(lay: Layout, original: seq<RangeIndex.Range>, journal: set<nat>, s: State) {
    && Balanced(lay, s.space)
    && Sound(s.nodes, s.root)
    && DataApart(s.Extents()) && Data(s.Extents()) !! s.TreeBlocks()
    && (forall b :: b in s.Owns() ==> Releasable(lay, original, journal, s.space, b))
    && s.Surplus() >= 0
  }

  /** From `s` to `t`, exactly the blocks that are no longer owned were
      released. */
  ghost predicate Released(lay: Layout, s: State, t: State)
    requires Fits(lay, s.space) && Fits(lay, t.space)
  {
    && t.Owns() <= s.Owns()
    && (forall b: nat :: lay.InRange(b) ==>
        InUse(lay, t.space, b) == (InUse(lay, s.space, b) && b !in s.Owns() - t.Owns()))
    && t.space.free + t.count == s.space.free + s.count && t.Surplus() == s.Surplus()
  }

  /** Steps compose, so a loop that was cut short and started again releases
      what one uninterrupted loop releases. */
  lemma ReleasedComposes(lay: Layout, s: State, t: State, u: State)
    requires Fits(lay, s.space) && Fits(lay, t.space) && Fits(lay, u.space)
    requires Released(lay, s, t) && Released(lay, t, u)
    ensures Released(lay, s, u)
  {
    hide InUse;
    forall b: nat | lay.InRange(b)
      ensures InUse(lay, u.space, b) == (InUse(lay, s.space, b) && b !in s.Owns() - u.Owns())
    {
    }
  }

  lemma ReleasedNothing(lay: Layout, s: State)
    requires Fits(lay, s.space)
    ensures Released(lay, s, s)
  {
  }

  /** Whatever was committed before a restart, finishing from there ends in the
      same bits as never having stopped. */
  lemma RestartReachesSameEnd(lay: Layout, s: State, t: State, u: State, v: State)
    requires Fits(lay, s.space) && Fits(lay, t.space) && Fits(lay, u.space) && Fits(lay, v.space)
    requires Released(lay, s, t) && Released(lay, t, u) && u.Owns() == {} && u.Extents() == []
    requires Released(lay, s, v) && v.Owns() == {} && v.Extents() == []
    ensures forall b: nat :: lay.InRange(b) ==> InUse(lay, u.space, b) == InUse(lay, v.space, b)
    ensures u.space.free == v.space.free
  {
    hide InUse;
    ReleasedComposes(lay, s, t, u);
    assert u.TreeBlocks() == {} == v.TreeBlocks();
  }

  // ---- One step ------------------------------------------------------------------

  lemma {:induction false} DataFacts(extents: seq<Slot>)
    requires extents != []
    ensures var last := extents[|extents| - 1];
            Span(last.target, last.Len()) <= Data(extents)
  {
  }

  lemma SetSize(s: seq<nat>)
    requires NoDuplicates(s)
    ensures |Set(s)| == |s|
    decreases |s|
  {
    if s != [] {
      var n := |s| - 1;
      SetSize(s[..n]);
      SetMore(s[..n], s[n]);
      assert s == s[..n] + [s[n]];
      assert s[n] !in Set(s[..n]);
    }
  }

  lemma SizeOfUnion(a: set<nat>, b: set<nat>)
    requires a !! b
    ensures |a + b| == |a| + |b|
  {
    assert (a + b) - b == a;
  }

  /** A range of releasable blocks overlaps neither metadata nor journal. */
  lemma RangeAllowed(lay: Layout, original: seq<RangeIndex.Range>, journal: set<nat>, sp: Space, first: nat, count: nat)
    requires Fits(lay, sp) && AllNonEmpty(original) && count > 0
    requires forall b: nat :: first <= b < first + count ==> Releasable(lay, original, journal, sp, b)
    ensures !AnyOverlap(original, RangeIndex.Range(first, first + count))
    ensures !exists b :: b in journal && RangeIndex.Range(first, first + count).Contains(b)
    ensures first >= lay.firstData && first + count <= lay.blockCount
  {
    hide InUse;
    hide Covered;
    hide AnyOverlap;
    var query := RangeIndex.Range(first, first + count);
    OverlapIsCover(original, query);
    forall b | query.Contains(b)
      ensures !Covered(original, b) && b !in journal
    {
      assert Releasable(lay, original, journal, sp, b);
    }
    assert Releasable(lay, original, journal, sp, first) && Releasable(lay, original, journal, sp, first + count - 1);
  }

  lemma BalancedFits(lay: Layout, sp: Space)
    requires Balanced(lay, sp)
    ensures Fits(lay, sp) && lay.Valid()
  {
  }

  /** The next block can still be released. */
  lemma EachAllowed(lay: Layout, guard: DataGuard, was: Space, now: Space, blocks: seq<nat>, i: nat)
    requires guard.Valid() && Fits(lay, was) && Fits(lay, now) && i < |blocks| && NoDuplicates(blocks)
    requires forall b :: b in blocks ==> Releasable(lay, guard.original, guard.journal, was, b)
    requires forall b: nat :: lay.InRange(b) ==> InUse(lay, now, b) == (InUse(lay, was, b) && b !in Set(blocks[..i]))
    ensures var b := blocks[i];
            && b >= lay.firstData && b + 1 <= lay.blockCount && lay.blockCount < U64_LIMIT && InUse(lay, now, b)
            && lay.GroupOf(b) == lay.GroupOf(b + 1 - 1)
            && !AnyOverlap(guard.original, RangeIndex.Range(b, b + 1)) && !guard.JournalOwns(RangeIndex.Range(b, b + 1))
  {
    hide InUse;
    hide Covered;
    hide AnyOverlap;
    var b := blocks[i];
    assert b in blocks;
    forall c: nat | b <= c < b + 1
      ensures Releasable(lay, guard.original, guard.journal, was, c)
    {
    }
    RangeAllowed(lay, guard.original, guard.journal, was, b, 1);
  }

  /** The blocks of one inode on a mount with a journal, for every transaction
      below is all-or-nothing. */
  class Reclaimer {
    const lay: Layout
    const guard: DataGuard
    var state: State
    var failures: nat            // commits that have failed

    ghost predicate Valid()
      reads this, guard
    {
      && guard.Valid() && guard.blockCount == lay.blockCount && guard.firstDataBlock == lay.firstData
      && Sane(lay, guard.original, guard.journal, state)
    }

    constructor (lay: Layout, guard: DataGuard, state: State)
      requires guard.Valid() && guard.blockCount == lay.blockCount && guard.firstDataBlock == lay.firstData
      requires Sane(lay, guard.original, guard.journal, state)
      ensures Valid() && this.lay == lay && this.guard == guard && this.state == state
    {
      this.lay := lay;
      this.guard := guard;
      this.state := state;
      failures := 0;
    }

    /** With the journal, the transaction commits as a whole or not at all; after
        an error either can be what the next mount finds. */
    method Commit(next: State) returns (ok: bool)
      modifies this`state, this`failures
      ensures ok ==> state == next
      ensures state == next || state == old(state)
      ensures failures == if ok then old(failures) else old(failures) + 1
    {
      ok := *;
      if !ok {
        failures := failures + 1;
      }
      var lasting := *;
      if ok || lasting {
        state := next;
      }
    }

    /** Release one block after the other. */
    method DeallocEach(alloc: Allocator, blocks: seq<nat>)
      requires alloc.Valid() && alloc.lay == lay && alloc.guard == guard && NoDuplicates(blocks)
      requires forall b :: b in blocks ==> Releasable(lay, guard.original, guard.journal, alloc.space, b)
      modifies alloc`space
      ensures alloc.Valid() && alloc.space.free == old(alloc.space.free) + |blocks|
      ensures forall b: nat :: lay.InRange(b) ==>
                InUse(lay, alloc.space, b) == (InUse(lay, old(alloc.space), b) && b !in Set(blocks))
    {
      hide InUse;
      hide Balanced;
      hide Fits;
      hide AnyOverlap;
      hide Covered;
      hide Releasable;
      ghost var before := alloc.space;
      BalancedFits(lay, before);
      for i := 0 to |blocks|
        invariant alloc.Valid() && Fits(lay, before) && Fits(lay, alloc.space) && alloc.space.free == before.free + i
        invariant forall b: nat :: lay.InRange(b) ==>
                    InUse(lay, alloc.space, b) == (InUse(lay, before, b) && b !in Set(blocks[..i]))
      {
        var b := blocks[i];
        assert b in blocks;
        SetMore(blocks[..i], b);
        assert blocks[..i + 1] == blocks[..i] + [b];
        EachAllowed(lay, guard, before, alloc.space, blocks, i);
        var freed := alloc.DeallocRange(b, 1);
        BalancedFits(lay, alloc.space);
      }
      assert blocks[..|blocks|] == blocks;
    }

    /** Release the removed range and the given-up nodes. */
    method ReleaseAll(alloc: Allocator, ghost was: State, ghost mid: State, gone: Removal, limit: nat)
      requires alloc.Valid() && alloc.lay == lay && alloc.guard == guard && alloc.space == was.space
      requires guard.Valid() && Fits(lay, was.space) && was.Extents() != [] && 0 < limit <= Last(was).Len()
      requires gone.startP == TailStart(was, limit) && gone.count == limit && NoDuplicates(gone.metadata)
      requires lay.firstData <= gone.startP && lay.GroupOf(gone.startP) == lay.GroupOf(gone.startP + limit - 1)
      requires was.Owns() == mid.Owns() + Span(gone.startP, gone.count) + Set(gone.metadata)
      requires Span(gone.startP, gone.count) !! Set(gone.metadata)
      requires forall b :: b in was.Owns() ==> Releasable(lay, guard.original, guard.journal, was.space, b)
      modifies alloc`space
      ensures alloc.Valid() && Balanced(lay, alloc.space) && Fits(lay, alloc.space)
      ensures alloc.space.free == was.space.free + gone.count + |gone.metadata|
      ensures forall b: nat :: lay.InRange(b) ==>
                InUse(lay, alloc.space, b)
                == (InUse(lay, was.space, b) && !(gone.startP <= b < gone.startP + gone.count)
                    && b !in Set(gone.metadata))
    {
      hide InUse;
      hide Balanced;
      hide Fits;
      hide AnyOverlap;
      hide Covered;
      hide Releasable;
      hide NoDuplicates;
      hide Set;
      hide Span;
      hide Layout.GroupOf;
      hide State.Owns;
      hide State.Extents;
      hide DataGuard.JournalOwns;
      TailAllowed(lay, guard, was, mid, gone, limit);
      var freed := alloc.DeallocRange(gone.startP, gone.count);
      BalancedFits(lay, alloc.space);
      StillReleasable(lay, guard.original, guard.journal, was.space, alloc.space, gone);
      DeallocEach(alloc, gone.metadata);
      BalancedFits(lay, alloc.space);
    }

    /** The inode after the cut, and what the cut took away. */
    method Cut(limit: nat, shrink: bool) returns (mid: State, gone: Removal)
      requires Valid() && Fits(lay, state.space) && Sound(state.nodes, state.root) && state.Extents() != []
      requires 0 < limit <= Last(state).Len()
      ensures Sound(mid.nodes, mid.root) && mid.space == state.space
      ensures Drops(state.Extents(), mid.Extents(), limit)
      ensures gone.startP == TailStart(state, limit) && gone.count == limit && NoDuplicates(gone.metadata)
      ensures state.Owns() == mid.Owns() + Span(gone.startP, gone.count) + Set(gone.metadata)
      ensures mid.Owns() !! Span(gone.startP, gone.count) + Set(gone.metadata)
      ensures Span(gone.startP, gone.count) !! Set(gone.metadata)
      ensures DataApart(mid.Extents()) && Data(mid.Extents()) !! mid.TreeBlocks()
      ensures mid.Surplus() == state.Surplus() >= 0
      ensures forall b :: b in state.Owns() ==> Releasable(lay, guard.original, guard.journal, state.space, b)
      ensures mid.count == state.count - gone.count - |gone.metadata|
      ensures mid.size == if shrink then Min(state.size, (Last(state).End() - limit) * BLOCK_SIZE) else state.size
    {
      hide Fits;
      hide Releasable;
      hide Sane;
      hide Sound;
      hide Drops;
      hide Data;
      hide Flat;
      hide Owned;
      hide NoDuplicates;
      hide Set;
      hide Span;
      hide Count;
      hide DataApart;
      hide State.Owns;
      var tree := new ExtentTree(state.root, state.nodes, [], true);
      var removed := tree.RemoveTail(limit);
      gone := removed.value.value;
      var size := if shrink then Min(state.size, gone.startL * BLOCK_SIZE) else state.size;
      ghost var cut := State(tree.root, tree.blocks, state.space, 0, size);
      OwnsSplit(lay, guard.original, guard.journal, state, cut, gone, limit);
      mid := State(tree.root, tree.blocks, state.space, state.count - gone.count - |gone.metadata|, size);
      SameTree(cut, mid);
    }

    /** What one transaction stages: `limit` blocks cut off the last extent and
        released, with the tree nodes that became empty. */
    method Prepare(limit: nat, shrink: bool) returns (next: State)
      requires Valid() && state.Extents() != []
      requires 0 < limit <= Last(state).Len()
      requires lay.firstData <= TailStart(state, limit)
      requires lay.GroupOf(TailStart(state, limit)) == lay.GroupOf(TailStart(state, limit) + limit - 1)
      ensures Sane(lay, guard.original, guard.journal, next)
      ensures Fits(lay, state.space) && Fits(lay, next.space) && Released(lay, state, next)
      ensures Drops(state.Extents(), next.Extents(), limit)
      ensures next.size == if shrink then Min(state.size, (Last(state).End() - limit) * BLOCK_SIZE) else state.size
    {
      hide InUse;
      hide Balanced;
      hide Fits;
      hide AnyOverlap;
      hide Covered;
      hide Releasable;
      hide Released;
      hide Sane;
      hide Sound;
      hide Drops;
      hide Data;
      hide Flat;
      hide Owned;
      hide NoDuplicates;
      hide Set;
      hide Span;
      hide Count;
      hide DataApart;
      hide DataGuard.JournalOwns;
      hide DataGuard.Valid;
      hide Layout.GroupOf;
      hide Layout.Valid;
      hide State.Owns;
      hide State.Extents;
      hide State.TreeBlocks;
      SaneFacts(lay, guard.original, guard.journal, state);
      var mid, gone := Cut(limit, shrink);
      var alloc := new Allocator(lay, guard, state.space);
      ReleaseAll(alloc, state, mid, gone, limit);
      next := mid.(space := alloc.space);
      SameTree(mid, next);
      SpanMembers(gone.startP, gone.count);
      StepIsSane(lay, guard.original, guard.journal, state, next, gone);
    }

    /** One transaction: cut `limit` blocks off the last extent. */
    method Step(limit: nat, shrink: bool) returns (ok: bool)
      requires Valid() && state.Extents() != []
      requires 0 < limit <= Last(state).Len()
      requires lay.firstData <= TailStart(state, limit)
      requires lay.GroupOf(TailStart(state, limit)) == lay.GroupOf(TailStart(state, limit) + limit - 1)
      modifies this`state, this`failures
      ensures Valid() && failures == if ok then old(failures) else old(failures) + 1
      ensures Fits(lay, old(state).space) && Fits(lay, state.space) && Released(lay, old(state), state)
      ensures ok || state != old(state) ==>
                && Drops(old(state).Extents(), state.Extents(), limit)
                && state.size == if shrink then Min(old(state).size, (Last(old(state)).End() - limit) * BLOCK_SIZE)
                   else old(state).size
    {
      hide Fits;
      hide Released;
      hide Sane;
      hide Drops;
      hide State.Extents;
      hide Layout.GroupOf;
      var next := Prepare(limit, shrink);
      ReleasedNothing(lay, state);
      ok := Commit(next);
    }

    /** The largest batch at the right edge that lies in one block group, with
        the tail it is taken from; nothing when the tree is empty. */
    method NextBatch() returns (r: Result<Option<(Tail, nat)>>)
      requires Valid()
      ensures r.Ok?
      ensures r.value.None? <==> state.Extents() == []
      ensures r.value.Some? ==>
                var (tail, limit) := r.value.value;
                && tail == Tail(Last(state).key, Last(state).target, Last(state).Len(), Last(state).Unwritten())
                && BatchFits(lay, state, limit)
    {
      hide Sane;
      hide Sound;
      hide Flat;
      hide BatchFits;
      hide BatchLimit;
      hide DataGuard.JournalOwns;
      SaneFacts(lay, guard.original, guard.journal, state);
      var tree := new ExtentTree(state.root, state.nodes, [], true);
      var found := tree.LastExtent();
      if found.None? {
        return Ok(None);
      }
      var tail := found.value;
      var end := tail.startP + tail.count;
      var bad := tail.startP == 0 || end > lay.blockCount || guard.JournalOwns(RangeIndex.Range(tail.startP, end));
      var limit := BatchLimit(lay.firstData, lay.perGroup, tail.startP, tail.count);
      r := if bad || limit.None? then Err(EIO) else Ok(Some((tail, limit.value)));
      TailIsSound(lay, guard, state);
    }

    /** Release everything, in as many transactions as it takes. However it
        ends, the state is sound and what is no longer owned has been released,
        so starting again carries on from here. */
    method Reclaim() returns (r: Result<()>)
      requires Valid()
      modifies this`state, this`failures
      ensures Valid() && (r.Ok? <==> failures == old(failures))
      ensures Fits(lay, old(state).space) && Fits(lay, state.space) && Released(lay, old(state), state)
      ensures r.Ok? ==> state.Owns() == {} && state.root == Node(0, ROOT_CAPACITY, [])
      ensures r.Ok? ==> state.count == old(state).Surplus()
      ensures r.Ok? ==> forall b: nat :: lay.InRange(b) ==>
                InUse(lay, state.space, b) == (InUse(lay, old(state).space, b) && b !in old(state).Owns())
      ensures r.Ok? ==> state.space.free == old(state).space.free + old(state).count - state.count
      ensures state.size <= old(state).size
    {
      hide InUse;
      hide Fits;
      hide Released;
      hide Sane;
      hide Drops;
      hide BatchFits;
      hide State.Owns;
      hide State.Extents;
      ghost var was := state;
      SaneFacts(lay, guard.original, guard.journal, was);
      ReleasedNothing(lay, was);
      var done := false;
      while !done
        invariant Valid() && Fits(lay, was.space) && Fits(lay, state.space) && Released(lay, was, state)
        invariant failures == old(failures)
        invariant state.size <= was.size
        invariant done ==> state.Extents() == []
        decreases !done, Count(state.Extents())
      {
        ghost var before := state;
        var batch := NextBatch();
        if batch.value.None? {
          done := true;
        } else {
          var (tail, limit) := batch.value.value;
          BatchFacts(lay, state, limit);
          var ok := Step(limit, true);
          ReleasedComposes(lay, was, before, state);
          if !ok {
            return Err(EIO);
          }
          CountDrops(lay, guard.original, guard.journal, before, state, limit);
        }
      }
      NothingLeft(lay, guard.original, guard.journal, was, state);
      return Ok(());
    }

    /** Trim a file that still has names to its size: exactly the blocks at or
        beyond the end of file go. */
    method TrimLinked() returns (r: Result<()>)
      requires Valid()
      modifies this`state, this`failures
      ensures Valid() && (r.Ok? <==> failures == old(failures))
      ensures state.size == old(state).size
      ensures Fits(lay, old(state).space) && Fits(lay, state.space) && Released(lay, old(state), state)
      ensures KeepsBytes(old(state).Extents(), state.Extents(), state.size)
      ensures r.Ok? ==> NothingBeyond(state.Extents(), state.size)
    {
      hide InUse;
      hide Fits;
      hide Released;
      hide Sane;
      hide Drops;
      hide BatchFits;
      hide AgreeBelow;
      hide EndsBy;
      hide KeepsBytes;
      hide NothingBeyond;
      hide Ceil;
      hide LinkedLimit;
      hide Layout.GroupOf;
      hide Layout.Valid;
      hide DataGuard.Valid;
      hide State.Owns;
      hide State.Extents;
      ghost var was := state;
      var keep := Ceil(state.size);
      SaneFacts(lay, guard.original, guard.journal, was);
      ReleasedNothing(lay, was);
      AgreeSame(was.Extents(), keep);
      var done := false;
      while !done
        invariant Valid() && Fits(lay, was.space) && Fits(lay, state.space) && Released(lay, was, state)
        invariant failures == old(failures)
        invariant state.size == was.size && AgreeBelow(was.Extents(), state.Extents(), keep)
        invariant done ==> EndsBy(state.Extents(), keep)
        decreases !done, Count(state.Extents())
      {
        ghost var before := state;
        var batch := NextBatch();
        if batch.value.None? {
          EndsNothing(keep);
          done := true;
        } else {
          var (tail, group) := batch.value.value;
          BatchFacts(lay, state, group);
          var limit := LinkedLimit(keep, tail.startL, tail.count, group);
          LimitFacts(lay, guard.original, guard.journal, state, keep, group, limit);
          if limit.None? {
            done := true;
          } else {
            BatchFacts(lay, state, limit.value);
            var ok := Step(limit.value, false);
            ReleasedComposes(lay, was, before, state);
            StepAgrees(lay, guard.original, guard.journal, was, before, state, keep, limit.value);
            if !ok {
              InBytes(was.Extents(), state.Extents(), state.size);
              return Err(EIO);
            }
            CountDrops(lay, guard.original, guard.journal, before, state, limit.value);
          }
        }
      }
      InBytes(was.Extents(), state.Extents(), state.size);
      return Ok(());
    }
  }

  ghost function Last(s: State): Slot
    requires s.Extents() != []
  {
    s.Extents()[|s.Extents()| - 1]
  }

  /** The first of the last `limit` physical blocks. */
  ghost function TailStart(s: State, limit: nat): nat
    requires s.Extents() != [] && limit <= Last(s).Len()
  {
    Last(s).target + Last(s).Len() - limit
  }

  /** A batch the allocator will take back. */
  ghost predicate BatchFits(lay: Layout, s: State, limit: nat) {
    && lay.Valid() && s.Extents() != []
    && 0 < limit <= Last(s).Len()
    && lay.firstData <= TailStart(s, limit)
    && lay.GroupOf(TailStart(s, limit)) == lay.GroupOf(TailStart(s, limit) + limit - 1)
  }

  lemma BatchFacts(lay: Layout, s: State, limit: nat)
    requires BatchFits(lay, s, limit)
    ensures lay.Valid() && s.Extents() != []
    ensures 0 < limit <= Last(s).Len()
    ensures lay.firstData <= TailStart(s, limit)
    ensures lay.GroupOf(TailStart(s, limit)) == lay.GroupOf(TailStart(s, limit) + limit - 1)
  {
  }

  /** The checks on the tail cannot fail on a sound inode. */
  lemma TailIsSound(lay: Layout, guard: DataGuard, s: State)
    requires guard.Valid() && Sane(lay, guard.original, guard.journal, s) && s.Extents() != []
    ensures var start, end := Last(s).target, Last(s).target + Last(s).Len();
            && start != 0 && end <= lay.blockCount && !guard.JournalOwns(RangeIndex.Range(start, end))
            && var limit := BatchLimit(lay.firstData, lay.perGroup, start, Last(s).Len());
               limit.Some? && BatchFits(lay, s, limit.value)
  {
    hide InUse;
    hide Balanced;
    hide AnyOverlap;
    hide Covered;
    hide Flat;
    hide Owned;
    hide Data;
    hide Span;
    hide BatchLimit;
    hide DataApart;
    var last := Last(s);
    LastIsSound(s);
    DataFacts(s.Extents());
    SpanMembers(last.target, last.Len());
    BalancedFits(lay, s.space);
    forall b: nat | last.target <= b < last.target + last.Len()
      ensures Releasable(lay, guard.original, guard.journal, s.space, b)
    {
      assert b in s.Owns();
    }
    RangeAllowed(lay, guard.original, guard.journal, s.space, last.target, last.Len());
    BatchInOneGroup(lay, last.target, last.Len());
    assert Releasable(lay, guard.original, guard.journal, s.space, last.target);
  }

  lemma LastIsSound(s: State)
    requires Sound(s.nodes, s.root) && s.Extents() != []
    ensures Last(s).Len() > 0 && Last(s).End() < U32_LIMIT
  {
    hide Flat;
  }

  lemma CountDrops(lay: Layout, original: seq<RangeIndex.Range>, journal: set<nat>, was: State, now: State, limit: nat)
    requires Sane(lay, original, journal, was) && Drops(was.Extents(), now.Extents(), limit)
    ensures Count(now.Extents()) < Count(was.Extents())
  {
    DropsData(was.Extents(), now.Extents(), limit);
  }

  /** An empty list of extents owns nothing at all. */
  lemma NothingLeft(lay: Layout, original: seq<RangeIndex.Range>, journal: set<nat>, was: State, now: State)
    requires Fits(lay, was.space) && Fits(lay, now.space)
    requires Sane(lay, original, journal, now) && now.Extents() == [] && Released(lay, was, now)
    ensures now.Owns() == {} && now.count == was.Surplus() && now.root == Node(0, ROOT_CAPACITY, [])
    ensures forall b: nat :: lay.InRange(b) ==>
              InUse(lay, now.space, b) == (InUse(lay, was.space, b) && b !in was.Owns())
    ensures now.space.free == was.space.free + was.count - now.count
  {
    hide InUse;
    hide Balanced;
    if now.root.slots != [] {
      FirstKey(now.nodes, now.root.depth, now.root.slots);
    }
    assert now.TreeBlocks() == {};
  }

  /** The number of blocks a file of this size needs. */
  function Ceil(size: nat): nat {
    (size + BLOCK_SIZE - 1) / BLOCK_SIZE
  }

  ghost predicate AgreeBelow(a: seq<Slot>, b: seq<Slot>, keep: nat) {
    forall l: int :: l < keep ==> Mapped(b, l) == Mapped(a, l)
  }

  ghost predicate EndsBy(extents: seq<Slot>, keep: nat) {
    && (forall e :: e in extents ==> e.End() <= keep)
    && (forall l: int :: l >= keep ==> Mapped(extents, l) == None)
  }

  /** Every block that holds a byte of a file of this size is mapped as before. */
  ghost predicate KeepsBytes(a: seq<Slot>, b: seq<Slot>, size: nat) {
    forall l: int :: l * BLOCK_SIZE < size ==> Mapped(b, l) == Mapped(a, l)
  }

  /** No extent, written or not, reaches a block behind the last byte, and
      nothing is mapped there. */
  ghost predicate NothingBeyond(extents: seq<Slot>, size: nat) {
    && (forall e :: e in extents ==> (e.End() - 1) * BLOCK_SIZE < size)
    && (forall l: int :: l * BLOCK_SIZE >= size ==> Mapped(extents, l) == None)
  }

  /** The rounded-up block count separates the blocks that hold bytes of the
      file from those that do not. */
  lemma InBytes(a: seq<Slot>, b: seq<Slot>, size: nat)
    ensures AgreeBelow(a, b, Ceil(size)) <==> KeepsBytes(a, b, size)
    ensures EndsBy(b, Ceil(size)) <==> NothingBeyond(b, size)
  {
    hide Mapped;
  }

  lemma AgreeSame(a: seq<Slot>, keep: nat)
    ensures AgreeBelow(a, a, keep)
  {
  }

  lemma EndsNothing(keep: nat)
    ensures EndsBy([], keep)
  {
  }

  lemma LimitFacts(lay: Layout, original: seq<RangeIndex.Range>, journal: set<nat>, s: State, keep: nat, group: nat,
                   limit: Option<nat>)
    requires Sane(lay, original, journal, s) && BatchFits(lay, s, group)
    requires limit == LinkedLimit(keep, Last(s).key, Last(s).Len(), group)
    ensures limit.None? ==> EndsBy(s.Extents(), keep)
    ensures limit.Some? ==>
              keep <= Last(s).End() - limit.value && limit.value <= group && BatchFits(lay, s, limit.value)
  {
    hide Flat;
    hide Owned;
    hide LinkedLimit;
    LastIsSound(s);
    LinkedLimitKeeps(keep, Last(s).key, Last(s).Len(), group);
    if limit.Some? {
      SmallerBatchFits(lay, s, group, limit.value);
    } else {
      SortedEnds(s.Extents(), keep);
    }
  }

  /** A smaller batch at the same right edge stays in the group. */
  lemma SmallerBatchFits(lay: Layout, s: State, group: nat, limit: nat)
    requires BatchFits(lay, s, group) && 0 < limit <= group
    ensures BatchFits(lay, s, limit)
  {
    var first := TailStart(s, group) - lay.firstData;
    var mid := TailStart(s, limit) - lay.firstData;
    var last := TailStart(s, group) + group - 1 - lay.firstData;
    DivBounds(first, lay.perGroup);
    DivBounds(last, lay.perGroup);
    DivUnique(mid, lay.perGroup, last / lay.perGroup);
  }

  lemma SortedEnds(extents: seq<Slot>, keep: nat)
    requires ExtentNode.Sorted(extents) && extents != [] && extents[|extents| - 1].End() <= keep
    ensures EndsBy(extents, keep)
  {
    forall e | e in extents
      ensures e.End() <= keep
    {
      var i :| 0 <= i < |extents| && extents[i] == e;
      if i < |extents| - 1 {
        assert extents[i].End() <= extents[|extents| - 1].key;
      }
    }
    forall l: int | l >= keep
      ensures Mapped(extents, l) == None
    {
      MappedNowhere(extents, l);
    }
  }

  lemma StepAgrees(lay: Layout, original: seq<RangeIndex.Range>, journal: set<nat>, was: State, before: State,
                   now: State, keep: nat, limit: nat)
    requires Sane(lay, original, journal, before) && before.Extents() != [] && limit <= Last(before).Len()
    requires AgreeBelow(was.Extents(), before.Extents(), keep) && keep <= Last(before).End() - limit
    requires now == before || Drops(before.Extents(), now.Extents(), limit)
    ensures AgreeBelow(was.Extents(), now.Extents(), keep)
  {
    hide Flat;
    hide Owned;
    hide Mapped;
    hide Drops;
    if now != before {
      forall l: int | l < keep
        ensures Mapped(now.Extents(), l) == Mapped(was.Extents(), l)
      {
        DropsMaps(before.Extents(), now.Extents(), limit, l);
      }
    }
  }

  lemma SameTree(s: State, t: State)
    requires s.root == t.root && s.nodes == t.nodes
    ensures s.Extents() == t.Extents() && s.TreeBlocks() == t.TreeBlocks() && s.Owns() == t.Owns()
  {
  }

  lemma SpanMembers(start: nat, count: nat)
    ensures forall b: nat :: b in Span(start, count) <==> start <= b < start + count
  {
  }

  lemma SaneFacts(lay: Layout, original: seq<RangeIndex.Range>, journal: set<nat>, s: State)
    requires Sane(lay, original, journal, s)
    ensures Balanced(lay, s.space) && Fits(lay, s.space) && lay.Valid() && Sound(s.nodes, s.root)
  {
  }

  /** What the inode owned is what it still owns, the tail and the given-up
      nodes, without overlap. */
  lemma OwnsSplit(lay: Layout, original: seq<RangeIndex.Range>, journal: set<nat>, was: State, next: State,
                  gone: Removal, limit: nat)
    requires Sane(lay, original, journal, was) && was.Extents() != [] && Fits(lay, was.space)
    requires Drops(was.Extents(), next.Extents(), limit) && limit <= Last(was).Len()
    requires gone.startP == TailStart(was, limit) && gone.count == limit
    requires NoDuplicates(gone.metadata)
    requires was.TreeBlocks() == next.TreeBlocks() + Set(gone.metadata) && next.TreeBlocks() !! Set(gone.metadata)
    ensures was.Owns() == next.Owns() + Span(gone.startP, gone.count) + Set(gone.metadata)
    ensures next.Owns() !! Span(gone.startP, gone.count) + Set(gone.metadata)
    ensures Span(gone.startP, gone.count) !! Set(gone.metadata)
    ensures DataApart(next.Extents()) && Data(next.Extents()) !! next.TreeBlocks()
    ensures was.count == was.Surplus() + Count(next.Extents()) + |next.TreeBlocks()| + gone.count + |gone.metadata|
    ensures was.Surplus() >= 0
    ensures forall b :: b in was.Owns() ==> Releasable(lay, original, journal, was.space, b)
  {
    hide InUse;
    hide Balanced;
    hide Fits;
    hide Covered;
    hide Sound;
    hide Flat;
    hide Owned;
    hide Drops;
    hide Data;
    hide Releasable;
    hide Span;
    DropsData(was.Extents(), next.Extents(), limit);
    SetSize(gone.metadata);
    SizeOfUnion(next.TreeBlocks(), Set(gone.metadata));
  }

  /** The allocator accepts the tail. */
  lemma TailAllowed(lay: Layout, guard: DataGuard, was: State, mid: State, gone: Removal, limit: nat)
    requires guard.Valid() && Fits(lay, was.space) && was.Extents() != [] && 0 < limit <= Last(was).Len()
    requires gone.startP == TailStart(was, limit) && gone.count == limit
    requires was.Owns() == mid.Owns() + Span(gone.startP, gone.count) + Set(gone.metadata)
    requires Span(gone.startP, gone.count) !! Set(gone.metadata)
    requires forall b :: b in was.Owns() ==> Releasable(lay, guard.original, guard.journal, was.space, b)
    ensures gone.count > 0 && gone.startP >= lay.firstData && gone.startP + gone.count <= lay.blockCount < U64_LIMIT
    ensures !AnyOverlap(guard.original, RangeIndex.Range(gone.startP, gone.startP + gone.count))
    ensures !guard.JournalOwns(RangeIndex.Range(gone.startP, gone.startP + gone.count))
    ensures forall b: nat :: gone.startP <= b < gone.startP + gone.count ==> lay.InRange(b) && InUse(lay, was.space, b)
    ensures forall b :: b in gone.metadata ==>
              Releasable(lay, guard.original, guard.journal, was.space, b)
              && !(gone.startP <= b < gone.startP + gone.count)
  {
    hide InUse;
    hide AnyOverlap;
    hide Covered;
    hide State.Owns;
    SpanMembers(gone.startP, gone.count);
    forall b: nat | gone.startP <= b < gone.startP + gone.count
      ensures Releasable(lay, guard.original, guard.journal, was.space, b) && lay.InRange(b) && InUse(lay, was.space, b)
    {
      assert b in Span(gone.startP, gone.count);
    }
    RangeAllowed(lay, guard.original, guard.journal, was.space, gone.startP, gone.count);
    forall b | b in gone.metadata
      ensures Releasable(lay, guard.original, guard.journal, was.space, b)
              && !(gone.startP <= b < gone.startP + gone.count)
    {
      assert b in Set(gone.metadata);
    }
  }

  lemma StillReleasable(lay: Layout, original: seq<RangeIndex.Range>, journal: set<nat>, was: Space, now: Space,
                        gone: Removal)
    requires Fits(lay, was) && Fits(lay, now)
    requires forall b :: b in gone.metadata ==>
               Releasable(lay, original, journal, was, b) && !(gone.startP <= b < gone.startP + gone.count)
    requires forall b: nat :: lay.InRange(b) ==>
               InUse(lay, now, b) == (!(gone.startP <= b < gone.startP + gone.count) && InUse(lay, was, b))
    ensures forall b :: b in gone.metadata ==> Releasable(lay, original, journal, now, b)
  {
    hide InUse;
    hide Covered;
  }

  /** The new state is sane and released exactly what it no longer owns. */
  lemma StepIsSane(lay: Layout, original: seq<RangeIndex.Range>, journal: set<nat>, was: State, next: State,
                   gone: Removal)
    requires Balanced(lay, next.space) && Sound(next.nodes, next.root)
    requires Fits(lay, was.space) && Fits(lay, next.space)
    requires was.Owns() == next.Owns() + Span(gone.startP, gone.count) + Set(gone.metadata)
    requires next.Owns() !! Span(gone.startP, gone.count) + Set(gone.metadata)
    requires DataApart(next.Extents()) && Data(next.Extents()) !! next.TreeBlocks()
    requires next.Surplus() == was.Surplus() >= 0
    requires forall b :: b in was.Owns() ==> Releasable(lay, original, journal, was.space, b)
    requires next.count == was.count - gone.count - |gone.metadata|
    requires next.space.free == was.space.free + gone.count + |gone.metadata|
    requires forall b: nat :: b in Span(gone.startP, gone.count) <==> gone.startP <= b < gone.startP + gone.count
    requires forall b: nat :: lay.InRange(b) ==>
               InUse(lay, next.space, b)
               == (InUse(lay, was.space, b) && !(gone.startP <= b < gone.startP + gone.count)
                   && b !in Set(gone.metadata))
    ensures Sane(lay, original, journal, next) && Released(lay, was, next)
  {
    hide InUse;
    hide Balanced;
    hide Fits;
    hide Covered;
    hide Sound;
    hide Flat;
    hide Owned;
    hide Data;
    hide Span;
    hide State.Owns;
    forall b | b in next.Owns()
      ensures Releasable(lay, original, journal, next.space, b)
    {
      assert b in was.Owns();
    }
    forall b: nat | lay.InRange(b)
      ensures InUse(lay, next.space, b) == (InUse(lay, was.space, b) && b !in was.Owns() - next.Owns())
    {
    }
  }
}
