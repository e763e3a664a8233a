/** Block allocation: a bitmap and a free counter for each block group and one
    counter for the file system, which must agree whatever write fails. */
module Allocator {
  import opened Bytes
  import opened Bitmap
  import opened RangeIndex

  const MAX_GROUP_PROBES: nat := 4

  /** How the device is divided into block groups. */
  datatype Layout = Layout(firstData: nat, perGroup: nat, blockCount: nat, groups: nat)
  {
    ghost predicate Valid() {
      0 < perGroup && firstData < blockCount < 0x1_0000_0000_0000 && GroupFirst(groups) >= blockCount && 0 < groups
    }

    function GroupFirst(g: nat): nat {
      firstData + g * perGroup
    }

    function GroupBlocks(g: nat): nat {
      if GroupFirst(g) >= blockCount then 0 else Min(perGroup, blockCount - GroupFirst(g))
    }

    function GroupOf(b: nat): nat
      requires 0 < perGroup && firstData <= b
    {
      (b - firstData) / perGroup
    }

    predicate InRange(b: int) {
      firstData <= b < blockCount
    }
  }

  /** The accounting on the device. */
  datatype Space = Space(bitmaps: seq<seq<bv8>>, groupFree: seq<nat>, free: nat)

  function Sum(s: seq<nat>): nat {
    if s == [] then 0 else Sum(s[..|s| - 1]) + s[|s| - 1]
  }

  lemma {:induction false} SumUpdate(s: seq<nat>, i: nat, v: nat)
    requires i < |s|
    ensures Sum(s[i := v]) == Sum(s) - s[i] + v
    decreases |s|
  {
    var n := |s| - 1;
    if i < n {
      assert s[i := v][..n] == s[..n][i := v];
      SumUpdate(s[..n], i, v);
    } else {
      assert s[i := v][..n] == s[..n];
    }
  }

  lemma {:induction false} SumZero(s: seq<nat>)
    ensures Sum(s) == 0 <==> forall i :: 0 <= i < |s| ==> s[i] == 0
    decreases |s|
  {
    if s != [] {
      SumZero(s[..|s| - 1]);
      assert forall i :: 0 <= i < |s| - 1 ==> s[..|s| - 1][i] == s[i];
    }
  }

  ghost predicate Fits(lay: Layout, sp: Space) {
    && lay.Valid()
    && |sp.bitmaps| == |sp.groupFree| == lay.groups
    && forall g :: 0 <= g < lay.groups ==> lay.GroupBlocks(g) <= 8 * |sp.bitmaps[g]|
  }

  /** Every group counter is the number of its clear bits, and the file system
      counter is their sum. */
  ghost predicate Balanced(lay: Layout, sp: Space) {
    && Fits(lay, sp)
    && (forall g :: 0 <= g < lay.groups ==> sp.groupFree[g] == FreeBits(sp.bitmaps[g], lay.GroupBlocks(g)))
    && sp.free == Sum(sp.groupFree)
  }

  // ---- Blocks and bits -----------------------------------------------------------

  lemma DivBounds(x: nat, d: nat)
    requires d > 0
    ensures (x / d) * d <= x < (x / d) * d + d
  {
    assert x == (x / d) * d + x % d;
  }

  lemma DivUnique(x: nat, d: nat, q: nat)
    requires d > 0 && q * d <= x < q * d + d
    ensures x / d == q
  {
    DivBounds(x, d);
    NextTimes(x / d, q, d);
    NextTimes(q, x / d, d);
  }

  lemma NextTimes(p: nat, q: nat, d: nat)
    ensures p < q ==> p * d + d <= q * d
  {
    if p < q {
      Times(p + 1, q, d);
      assert (p + 1) * d == p * d + d;
    }
  }

  lemma Times(a: nat, b: nat, d: nat)
    requires a <= b
    ensures a * d <= b * d
  {
    assert (b - a) * d >= 0;
    assert b * d == a * d + (b - a) * d;
  }

  /** A block in range belongs to a group and has a bit there. */
  lemma BlockInGroup(lay: Layout, b: nat)
    requires lay.Valid() && lay.InRange(b)
    ensures var g := lay.GroupOf(b);
            g < lay.groups && lay.GroupFirst(g) <= b < lay.GroupFirst(g) + lay.GroupBlocks(g)
  {
    var g := lay.GroupOf(b);
    DivBounds(b - lay.firstData, lay.perGroup);
    if g >= lay.groups {
      Times(lay.groups, g, lay.perGroup);
    }
  }

  lemma GroupUnique(lay: Layout, g: nat, b: nat)
    requires 0 < lay.perGroup && lay.GroupFirst(g) <= b < lay.GroupFirst(g) + lay.perGroup
    ensures lay.GroupOf(b) == g
  {
    DivUnique(b - lay.firstData, lay.perGroup, g);
  }

  /** Is block `b` marked as used? */
  ghost predicate InUse(lay: Layout, sp: Space, b: nat)
    requires Fits(lay, sp) && lay.InRange(b)
  {
    BlockInGroup(lay, b);
    var g := lay.GroupOf(b);
    !Clear(sp.bitmaps[g], b - lay.GroupFirst(g))
  }

  /** A run of bits of one group changes. */
  ghost predicate RunChanged(was: seq<bv8>, now: seq<bv8>, from: nat, count: nat, clear: bool)
    requires from + count <= 8 * |was|
  {
    && |was| == |now|
    && forall i :: 0 <= i < 8 * |was| ==> Clear(now, i) == (if from <= i < from + count then clear else Clear(was, i))
  }

  /** The bits of `count` blocks from `b` on, all in one group, became `used`,
      and no other bit changed. */
  ghost predicate BitsMarked(lay: Layout, was: Space, now: Space, b: nat, count: nat, used: bool)
    requires Fits(lay, was) && lay.InRange(b)
  {
    BlockInGroup(lay, b);
    var g := lay.GroupOf(b);
    var from := b - lay.GroupFirst(g);
    && |now.bitmaps| == |was.bitmaps| && now.bitmaps == was.bitmaps[g := now.bitmaps[g]]
    && from + count <= lay.GroupBlocks(g) && RunChanged(was.bitmaps[g], now.bitmaps[g], from, count, !used)
  }

  /** The same, and both counters followed. */
  ghost predicate Marks(lay: Layout, was: Space, now: Space, b: nat, count: nat, used: bool)
    requires Fits(lay, was) && lay.InRange(b)
  {
    BlockInGroup(lay, b);
    var g := lay.GroupOf(b);
    && BitsMarked(lay, was, now, b, count, used)
    && |now.groupFree| == |was.groupFree| && now.groupFree == was.groupFree[g := now.groupFree[g]]
    && (if used then now.groupFree[g] + count == was.groupFree[g] && now.free + count == was.free
        else now.groupFree[g] == was.groupFree[g] + count && now.free == was.free + count)
  }

  /** One bit became `used` without the counters. */
  ghost predicate BitAlone(lay: Layout, was: Space, now: Space, b: nat, used: bool)
    requires Fits(lay, was) && lay.InRange(b)
  {
    && BitsMarked(lay, was, now, b, 1, used) && InUse(lay, was, b) == !used
    && now.groupFree == was.groupFree && now.free == was.free
  }

  /** Each of the three parts is as before or as it was meant to be. */
  ghost predicate Between(was: Space, done: Space, now: Space) {
    && (now.bitmaps == was.bitmaps || now.bitmaps == done.bitmaps)
    && (now.groupFree == was.groupFree || now.groupFree == done.groupFree)
    && (now.free == was.free || now.free == done.free)
  }

  /** What a failed change of one block leaves. */
  ghost predicate FaultLeft(lay: Layout, was: Space, now: Space, b: nat, used: bool, fault: Fault)
    requires Fits(lay, was) && lay.InRange(b)
  {
    match fault
    case Refused => now == was
    case BitmapWrite => now == was || BitAlone(lay, was, now, b, used)
    case Undone => now == was
    case NotUndone => exists done :: Marks(lay, was, done, b, 1, used) && Between(was, done, now)
  }

  /** The lowest free block of the first group that has any. */
  ghost predicate Chosen(lay: Layout, sp: Space, preferred: nat, b: nat)
    requires Fits(lay, sp) && lay.groups > 0
  {
    && lay.InRange(b) && !InUse(lay, sp, b)
    && (forall c: nat :: lay.InRange(c) && lay.GroupOf(c) == lay.GroupOf(b) && c < b ==> InUse(lay, sp, c))
    && (exists i: nat :: i < lay.groups && lay.GroupOf(b) == Probe(preferred, i, lay.groups)
          && forall k :: 0 <= k < i ==> sp.groupFree[Probe(preferred, k, lay.groups)] == 0)
  }

  /** A bit that changed on its own unbalances the books. */
  lemma BitAloneUnbalances(lay: Layout, was: Space, now: Space, b: nat, used: bool)
    requires Balanced(lay, was) && lay.InRange(b) && BitAlone(lay, was, now, b, used)
    ensures !Balanced(lay, now)
  {
    hide Clear;
    hide Sum;
    hide FreeBits;
    BlockInGroup(lay, b);
    var g := lay.GroupOf(b);
    var from := b - lay.GroupFirst(g);
    if used {
      CountTaken(was.bitmaps[g], now.bitmaps[g], lay.GroupBlocks(g), from, 1);
    } else {
      CountReleased(was.bitmaps[g], now.bitmaps[g], lay.GroupBlocks(g), from, 1);
    }
  }

  /** So a fault that was not followed by a second one leaves balanced books
      exactly if it left everything as it was. */
  lemma FaultKeepsBalance(lay: Layout, was: Space, now: Space, b: nat, used: bool, fault: Fault)
    requires Balanced(lay, was) && lay.InRange(b) && FaultLeft(lay, was, now, b, used, fault)
    ensures fault != NotUndone ==> (Balanced(lay, now) <==> now == was)
  {
    hide Balanced;
    hide BitAlone;
    if fault == BitmapWrite && now != was {
      BitAloneUnbalances(lay, was, now, b, used);
    }
  }

  /** What changing a run means for the blocks. */
  lemma RunMeaning(lay: Layout, was: Space, now: Space, g: nat, from: nat, count: nat, clear: bool)
    requires Fits(lay, was) && g < lay.groups && from + count <= lay.GroupBlocks(g)
    requires |now.bitmaps| == |now.groupFree| == lay.groups && now.bitmaps == was.bitmaps[g := now.bitmaps[g]]
    requires RunChanged(was.bitmaps[g], now.bitmaps[g], from, count, clear)
    ensures Fits(lay, now)
    ensures forall b: nat :: lay.InRange(b) ==>
              InUse(lay, now, b)
              == (if lay.GroupFirst(g) + from <= b < lay.GroupFirst(g) + from + count then !clear
                  else InUse(lay, was, b))
  {
    hide Clear;
    forall b: nat | lay.InRange(b)
      ensures InUse(lay, now, b)
              == (if lay.GroupFirst(g) + from <= b < lay.GroupFirst(g) + from + count then !clear
                  else InUse(lay, was, b))
    {
      BlockInGroup(lay, b);
      if lay.GroupFirst(g) <= b < lay.GroupFirst(g) + lay.perGroup {
        GroupUnique(lay, g, b);
      }
    }
  }

  lemma CountTaken(was: seq<bv8>, now: seq<bv8>, n: nat, from: nat, count: nat)
    requires |was| == |now| && from + count <= n <= 8 * |was|
    requires RunChanged(was, now, from, count, false) && ClearRun(was, from, count)
    ensures FreeBits(now, n) + count == FreeBits(was, n)
  {
    CountRun(now, was, n, from, count);
  }

  lemma CountReleased(was: seq<bv8>, now: seq<bv8>, n: nat, from: nat, count: nat)
    requires |was| == |now| && from + count <= n <= 8 * |was|
    requires RunChanged(was, now, from, count, true) && UsedRun(was, from, count)
    ensures FreeBits(now, n) == FreeBits(was, n) + count
  {
    CountRun(was, now, n, from, count);
  }

  /** Counters that follow the bits keep the books balanced. */
  lemma StaysBalanced(lay: Layout, was: Space, now: Space, g: nat)
    requires Balanced(lay, was) && Fits(lay, now) && g < lay.groups
    requires now.bitmaps == was.bitmaps[g := now.bitmaps[g]]
    requires now.groupFree == was.groupFree[g := FreeBits(now.bitmaps[g], lay.GroupBlocks(g))]
    requires now.free == was.free - was.groupFree[g] + now.groupFree[g]
    ensures Balanced(lay, now)
  {
    hide FreeBits;
    SumUpdate(was.groupFree, g, now.groupFree[g]);
  }

  lemma SumAtLeast(s: seq<nat>, i: nat)
    requires i < |s|
    ensures Sum(s) >= s[i]
  {
    SumUpdate(s, i, 0);
  }

  /** Why an allocation or a release did not complete. */
  datatype Fault =
    | Refused                    // nothing was written
    | BitmapWrite                // the bitmap write failed: it may have landed
    | Undone                     // a counter write failed; everything was restored
    | NotUndone                  // and restoring failed as well

  lemma PreferredGroup(lay: Layout, preferred: Option<nat>)
    requires 0 < lay.perGroup
    ensures preferred.Some? && lay.firstData <= preferred.value ==>
              (lay.GroupOf(preferred.value) < lay.groups <==> preferred.value < lay.GroupFirst(lay.groups))
  {
    if preferred.Some? && lay.firstData <= preferred.value {
      var g := lay.GroupOf(preferred.value);
      DivBounds(preferred.value - lay.firstData, lay.perGroup);
      if g < lay.groups {
        NextTimes(g, lay.groups, lay.perGroup);
      } else {
        Times(lay.groups, g, lay.perGroup);
      }
    }
  }

  class Allocator {
    const lay: Layout
    const guard: DataGuard
    var space: Space
    var failures: nat            // device writes that have failed

    ghost predicate Valid()
      reads this, guard
    {
      Balanced(lay, space) && guard.Valid() && guard.blockCount == lay.blockCount
      && guard.firstDataBlock == lay.firstData
    }

    constructor (lay: Layout, guard: DataGuard, space: Space)
      requires Balanced(lay, space) && guard.Valid() && guard.blockCount == lay.blockCount
               && guard.firstDataBlock == lay.firstData
      ensures Valid() && this.lay == lay && this.guard == guard && this.space == space
    {
      this.lay := lay;
      this.guard := guard;
      this.space := space;
      failures := 0;
    }

    /** A device write that fails may nevertheless have landed. */
    method Write(to: Space) returns (ok: bool)
      modifies this`space, this`failures
      ensures ok ==> space == to && failures == old(failures)
      ensures !ok ==> failures == old(failures) + 1
      ensures space == to || space == old(space)
    {
      var lands: bool := *;
      ok := *;
      if !ok {
        failures := failures + 1;
      }
      if ok || lands {
        space := to;
      }
    }

    /** Write bitmap, group counter and file system counter back. */
    method Restore(g: nat, bitmap: seq<bv8>, groupFree: nat, free: nat) returns (ok: bool)
      requires g < |space.bitmaps| && g < |space.groupFree|
      modifies this`space, this`failures
      ensures failures == if ok then old(failures) else old(failures) + 1
      ensures ok ==> space == Space(old(space.bitmaps)[g := bitmap], old(space.groupFree)[g := groupFree], free)
      ensures Between(old(space), Space(old(space.bitmaps)[g := bitmap], old(space.groupFree)[g := groupFree], free),
                      space)
    {
      ok := Write(space.(bitmaps := space.bitmaps[g := bitmap]));
      if !ok {
        return;
      }
      ok := Write(space.(groupFree := space.groupFree[g := groupFree]));
      if !ok {
        return;
      }
      ok := Write(space.(free := free));
    }

    /** Write a changed bitmap and its two counters in this order; undo them if
        a counter cannot be written. */
    method Publish(g: nat, bitmap: seq<bv8>, groupFree: nat, free: nat) returns (fault: Option<Fault>)
      requires g < |space.bitmaps| && g < |space.groupFree|
      modifies this`space, this`failures
      ensures fault.None? <==> failures == old(failures)
      ensures fault.Some? ==> failures == old(failures) + (if fault.value.NotUndone? then 2 else 1)
      ensures var done := Space(old(space.bitmaps)[g := bitmap], old(space.groupFree)[g := groupFree], free);
              match fault
              case None => space == done
              case Some(BitmapWrite) => space == old(space) || space == old(space).(bitmaps := done.bitmaps)
              case Some(Undone) => space == old(space)
              case Some(NotUndone) => Between(old(space), done, space)
              case Some(Refused) => false
    {
      var was := space;
      var ok := Write(space.(bitmaps := space.bitmaps[g := bitmap]));
      if !ok {
        return Some(BitmapWrite);
      }
      ok := Write(space.(groupFree := space.groupFree[g := groupFree]));
      if ok {
        ok := Write(space.(free := free));
      }
      if !ok {
        assert was.bitmaps[g := was.bitmaps[g]] == was.bitmaps && was.groupFree[g := was.groupFree[g]] == was.groupFree;
        ok := Restore(g, was.bitmaps[g], was.groupFree[g], was.free);
        return Some(if ok then Undone else NotUndone);
      }
      return None;
    }

    /** Allocate the lowest free block of the first group, from the preferred one
        on, that has any. */
    method AllocBlock(preferred: nat) returns (r: Result<nat>, fault: Option<Fault>, ghost block: nat)
      requires Valid()
      modifies this`space, this`failures
      ensures failures > old(failures) <==> fault.Some? && !fault.value.Refused?
      ensures r == Err(ENOSPC) <==> fault == Some(Refused)
      ensures r == Err(ENOSPC) ==> space == old(space) && forall b: nat :: lay.InRange(b) ==> InUse(lay, space, b)
      ensures r != Err(ENOSPC) ==> Chosen(lay, old(space), preferred, block)
      ensures r.Ok? ==>
                && fault.None? && Valid() && r.value == block && Marks(lay, old(space), space, block, 1, true)
                && (forall b: nat :: lay.InRange(b) ==>
                    InUse(lay, space, b) == (b == block || InUse(lay, old(space), b)))
      ensures r.Err? && r.code != ENOSPC ==>
                && r.code == EIO && fault.Some? && FaultLeft(lay, old(space), space, block, true, fault.value)
                && (fault.value != NotUndone ==> (Balanced(lay, space) <==> space == old(space)))
    {
      hide FreeBits;
      hide Sum;
      hide Clear;
      hide InUse;
      hide Layout.GroupOf;
      hide Probe;
      hide BitsMarked;
      hide FaultLeft;
      LayoutFacts(lay, space);
      block := 0;
      var n := lay.groups;
      for i := 0 to n
        invariant space == old(space) && failures == old(failures) && Valid()
        invariant forall k :: 0 <= k < i ==> space.groupFree[Probe(preferred, k, n)] == 0
      {
        var g := Probe(preferred, i, n);
        var blocks := lay.GroupBlocks(g);
        if blocks == 0 || space.groupFree[g] == 0 {
          NoBlocks(lay, space, g);
          continue;
        }
        r, fault, block := TakeLowest(g);
        assert Chosen(lay, old(space), preferred, block);
        return;
      }
      AllProbed(preferred, n, space.groupFree);
      NothingFree(lay, space);
      return Err(ENOSPC), Some(Refused), block;
    }

    /** Take the lowest free block of a group that has one. */
    method TakeLowest(g: nat) returns (r: Result<nat>, fault: Option<Fault>, ghost block: nat)
      requires Valid() && g < lay.groups && space.groupFree[g] > 0
      modifies this`space, this`failures
      ensures failures > old(failures) <==> fault.Some? && !fault.value.Refused?
      ensures lay.InRange(block) && !InUse(lay, old(space), block) && lay.GroupOf(block) == g
      ensures forall b: nat :: lay.InRange(b) && lay.GroupOf(b) == g && b < block ==> InUse(lay, old(space), b)
      ensures r.Ok? ==>
                && fault.None? && Valid() && r.value == block && Marks(lay, old(space), space, block, 1, true)
                && (forall b: nat :: lay.InRange(b) ==>
                    InUse(lay, space, b) == (b == block || InUse(lay, old(space), b)))
      ensures r.Err? ==>
                && r.code == EIO && fault.Some? && !fault.value.Refused?
                && FaultLeft(lay, old(space), space, block, true, fault.value)
                && (fault.value != NotUndone ==> (Balanced(lay, space) <==> space == old(space)))
    {
      hide FreeBits;
      hide Sum;
      hide Clear;
      hide FaultLeft;
      hide Marks;
      hide Between;
      var blocks := lay.GroupBlocks(g);
      var bitmap := new Bitmap(space.bitmaps[g]);
      CountNone(space.bitmaps[g], blocks);
      var bit := bitmap.FindAndSetFirstClearBit(0, blocks);
      var after := bitmap.bits[..];
      OneTaken(space.bitmaps[g], after, blocks, bit.value);
      SumAtLeast(space.groupFree, g);
      ghost var done := Space(space.bitmaps[g := after], space.groupFree[g := space.groupFree[g] - 1], space.free - 1);
      TakenMeaning(lay, space, done, g, bit.value);
      block := lay.GroupFirst(g) + bit.value;
      fault := Publish(g, after, space.groupFree[g] - 1, space.free - 1);
      if fault.Some? {
        FaultMeaning(lay, old(space), done, space, block, true, fault.value);
        return Err(EIO), fault, block;
      }
      return Ok(lay.GroupFirst(g) + bit.value), None, block;
    }

    /** Release one block. */
    method DeallocBlock(b: nat) returns (r: Result<()>, fault: Option<Fault>)
      requires Valid()
      modifies this`space, this`failures
      ensures failures > old(failures) <==> fault.Some? && !fault.value.Refused?
      ensures r.Ok? ==>
                && fault.None? && Valid() && lay.InRange(b) && InUse(lay, old(space), b)
                && (forall c: nat :: lay.InRange(c) ==> InUse(lay, space, c) == (c != b && InUse(lay, old(space), c)))
                && Marks(lay, old(space), space, b, 1, false)
      ensures r == Err(EINVAL) <==> !lay.InRange(b) || !InUse(lay, old(space), b)
      ensures r == Err(EINVAL) ==> fault == Some(Refused) && space == old(space)
      ensures r.Err? && r.code != EINVAL ==>
                && r.code == EIO && fault.Some? && !fault.value.Refused?
                && FaultLeft(lay, old(space), space, b, false, fault.value)
                && (fault.value != NotUndone ==> (Balanced(lay, space) <==> space == old(space)))
    {
      hide FaultLeft;
      hide Marks;
      hide Between;
      hide FreeBits;
      hide Sum;
      hide Clear;
      if b >= lay.blockCount || b < lay.firstData {
        return Err(EINVAL), Some(Refused);
      }
      BlockInGroup(lay, b);
      var g := lay.GroupOf(b);
      var bit := b - lay.GroupFirst(g);
      var bitmap := new Bitmap(space.bitmaps[g]);
      assert bitmap.IsClear(bit) <==> Clear(space.bitmaps[g], bit) by {
        BitmapClear(bitmap, space.bitmaps[g], bit);
      }
      if bitmap.IsClear(bit) {
        return Err(EINVAL), Some(Refused);
      }
      bitmap.ClearBit(bit);
      var after := bitmap.bits[..];
      OneReleased(space.bitmaps[g], after, lay.GroupBlocks(g), bit);
      ghost var done := Space(space.bitmaps[g := after], space.groupFree[g := space.groupFree[g] + 1], space.free + 1);
      ReleasedMeaning(lay, space, done, g, bit, 1);
      fault := Publish(g, after, space.groupFree[g] + 1, space.free + 1);
      if fault.Some? {
        FaultMeaning(lay, old(space), done, space, b, false, fault.value);
        return Err(EIO), fault;
      }
      return Ok(()), None;
    }

    /** The group in which the search for a range begins. */
    function StartGroup(inodeGroup: nat, preferred: Option<nat>): (g: nat)
      requires 0 < lay.perGroup
      ensures lay.Valid() && preferred.Some? && lay.firstData <= preferred.value < lay.GroupFirst(lay.groups) ==>
                g == lay.GroupOf(preferred.value)
      ensures preferred.None? || preferred.value < lay.firstData || preferred.value >= lay.GroupFirst(lay.groups) ==>
                g == inodeGroup
    {
      PreferredGroup(lay, preferred);
      if preferred.Some? && preferred.value >= lay.firstData && lay.GroupOf(preferred.value) < lay.groups
      then lay.GroupOf(preferred.value) else inodeGroup
    }

    /** Stage the allocation of a contiguous range inside one group: at the
        preferred position if that is free, otherwise the lowest free run. */
    method AllocRange(inodeGroup: nat, preferred: Option<nat>, requirePreferred: bool, count: nat)
      returns (r: Result<nat>)
      requires Valid()
      modifies this`space
      ensures Valid()
      ensures r.Err? ==> space == old(space)
      ensures count == 0 ==> r == Err(EINVAL)
      ensures r.Ok? ==>
                && count > 0 && lay.InRange(r.value) && r.value + count <= lay.blockCount
                && (forall b: nat :: r.value <= b < r.value + count ==> !InUse(lay, old(space), b))
                && (forall b: nat :: lay.InRange(b) ==>
                    InUse(lay, space, b) == (r.value <= b < r.value + count || InUse(lay, old(space), b)))
                && Marks(lay, old(space), space, r.value, count, true)
                && !AnyOverlap(guard.original, RangeIndex.Range(r.value, r.value + count))
      ensures count > 0 && preferred.Some? && FreeRun(lay, old(space), preferred.value, count) ==>
                var range := RangeIndex.Range(preferred.value, preferred.value + count);
                r == if AnyOverlap(guard.original, range) || guard.JournalOwns(range) then Err(EIO)
                     else Ok(preferred.value)
      ensures count > 0 && (preferred.None? || !FreeRun(lay, old(space), preferred.value, count)) ==>
                && (requirePreferred ==> r == Err(ENOSPC))
                && (r.Ok? ==> LowestFrom(lay, old(space), StartGroup(inodeGroup, preferred), r.value, count))
                && (r == Err(ENOSPC) && !requirePreferred ==>
                      NoneFrom(lay, old(space), StartGroup(inodeGroup, preferred), count))
      ensures r == Err(ENOSPC) <==>
                && count > 0
                && forall k :: 0 <= k < Min(lay.groups, MAX_GROUP_PROBES) ==>
                     NoOffer(lay, old(space), Probe(StartGroup(inodeGroup, preferred), k, lay.groups), k == 0,
                             preferred, requirePreferred, count)
      ensures r.Ok? ==>
                exists k, bit ::
                  && FirstOffer(lay, old(space), StartGroup(inodeGroup, preferred), preferred, requirePreferred, count,
                                k, bit)
                  && r.value == lay.GroupFirst(Probe(StartGroup(inodeGroup, preferred), k, lay.groups)) + bit
      ensures r.Err? && r.code != ENOSPC && count > 0 ==>
                && r.code == EIO
                && exists k, bit ::
                     && FirstOffer(lay, old(space), StartGroup(inodeGroup, preferred), preferred, requirePreferred,
                                   count, k, bit)
                     && var range := Bits(lay, Probe(StartGroup(inodeGroup, preferred), k, lay.groups), bit, count);
                        AnyOverlap(guard.original, range) || guard.JournalOwns(range)
    {
      hide Marks;
      hide FreeBits;
      hide Sum;
      hide Clear;
      hide AnyOverlap;
      hide ClearRun;
      hide Balanced;
      hide HintFits;
      hide Layout.GroupFirst;
      hide Layout.GroupBlocks;
      hide Layout.Valid;
      hide Probe;
      hide FreeRun;
      hide LowestFrom;
      hide NoneFrom;
      hide Offer;
      hide NoOffer;
      hide FirstOffer;
      hide ClearRunAt;
      hide InUse;
      if count == 0 {
        return Err(EINVAL);
      }
      LayoutFacts(lay, space);
      var start := StartGroup(inodeGroup, preferred);
      var probes := Min(lay.groups, MAX_GROUP_PROBES);
      for offset := 0 to probes
        invariant space == old(space) && Valid()
        invariant forall k :: 0 <= k < offset ==>
                    NoOffer(lay, space, Probe(start, k, lay.groups), k == 0, preferred, requirePreferred, count)
      {
        var g := Probe(start, offset, lay.groups);
        var blocks := lay.GroupBlocks(g);
        TooFew(lay, space, g, offset == 0, preferred, requirePreferred, count);
        if blocks < count || space.groupFree[g] < count {
          continue;
        }
        var bit: Option<nat> := None;
        if offset == 0 && HintFits(lay, space, g, preferred, count) {
          HintOffers(lay, space, g, preferred, requirePreferred, count);
          bit := Some(preferred.value - lay.GroupFirst(g));
        } else if !requirePreferred {
          bit := FirstClearRunIn(space.bitmaps[g], blocks, 0, blocks, count);
          LowestOffers(lay, space, g, offset == 0, preferred, count, bit);
        } else {
          NoHint(lay, space, g, offset == 0, preferred, count);
        }
        if bit.None? {
          continue;
        }
        var first := lay.GroupFirst(g) + bit.value;
        FoundFirst(lay, space, start, preferred, requirePreferred, count, offset, bit.value);
        OfferMeans(lay, space, start, preferred, requirePreferred, count, offset, bit.value);
        OfferInRange(lay, space, g, bit.value, count);
        var allowed := guard.ValidateDataBlocks(first, count);
        if allowed.Err? {
          return Err(EIO);
        }
        TakeRun(g, bit.value, count);
        return Ok(first);
      }
      NoneOffers(lay, space, start, preferred, requirePreferred, count);
      return Err(ENOSPC);
    }

    /** Mark a free run as used. */
    method TakeRun(g: nat, bit: nat, count: nat)
      requires Valid() && g < lay.groups && count > 0 && bit + count <= lay.GroupBlocks(g)
      requires ClearRun(space.bitmaps[g], bit, count) && count <= space.groupFree[g]
      modifies this`space
      ensures Valid()
      ensures var first := lay.GroupFirst(g) + bit;
              && lay.InRange(first) && first + count <= lay.blockCount && lay.GroupOf(first) == g
              && (forall b: nat :: first <= b < first + count ==> !InUse(lay, old(space), b))
              && (forall b: nat :: lay.InRange(b) ==>
                  InUse(lay, space, b) == (first <= b < first + count || InUse(lay, old(space), b)))
      ensures Marks(lay, old(space), space, lay.GroupFirst(g) + bit, count, true)
    {
      hide Marks;
      hide FreeBits;
      hide Sum;
      hide Clear;
      var bitmap := new Bitmap(space.bitmaps[g]);
      bitmap.SetRun(bit, count);
      var after := bitmap.bits[..];
      CountTaken(space.bitmaps[g], after, lay.GroupBlocks(g), bit, count);
      SumAtLeast(space.groupFree, g);
      space := Space(space.bitmaps[g := after], space.groupFree[g := space.groupFree[g] - count], space.free - count);
      RunTakenMeaning(lay, old(space), space, g, bit, count);
    }

    /** Stage the release of a contiguous range of one group.  Everything is
        checked before the transaction's images change. */
    method DeallocRange(first: nat, count: nat) returns (r: Result<()>)
      requires Valid() && first < U64_LIMIT
      modifies this`space
      ensures Valid()
      ensures r.Ok? ==>
                && count > 0 && lay.InRange(first) && first + count <= lay.blockCount
                && (forall b: nat :: first <= b < first + count ==> InUse(lay, old(space), b))
                && (forall b: nat :: lay.InRange(b) ==>
                    InUse(lay, space, b) == (!(first <= b < first + count) && InUse(lay, old(space), b)))
                && Marks(lay, old(space), space, first, count, false)
      ensures r.Err? ==> space == old(space)
      ensures r.Ok? <==>
                && count > 0 && first >= lay.firstData && first + count <= lay.blockCount
                && lay.GroupOf(first) == lay.GroupOf(first + count - 1)
                && !AnyOverlap(guard.original, RangeIndex.Range(first, first + count))
                && !guard.JournalOwns(RangeIndex.Range(first, first + count))
                && forall b: nat :: first <= b < first + count ==> InUse(lay, old(space), b)
    {
      hide Marks;
      hide FreeBits;
      hide Sum;
      hide Clear;
      hide AnyOverlap;
      hide Covered;
      if count == 0 {
        return Err(EINVAL);
      }
      if first < lay.firstData || first >= lay.blockCount || first + count > lay.blockCount {
        return Err(EINVAL);
      }
      BlockInGroup(lay, first);
      BlockInGroup(lay, first + count - 1);
      var g := lay.GroupOf(first);
      if lay.GroupOf(first + count - 1) != g {
        return Err(EINVAL);
      }
      var bit := first - lay.GroupFirst(g);
      var allowed := guard.ValidateDataBlocks(first, count);
      if allowed.Err? {
        return Err(EIO);
      }
      RunOfBlocks(lay, space, g, bit, count);
      if exists i :: bit <= i < bit + count && Clear(space.bitmaps[g], i) {
        return Err(EINVAL);
      }
      ReleasedFits(lay, space, g, bit, count);
      if space.groupFree[g] + count > lay.GroupBlocks(g) || space.free + count > lay.blockCount {
        assert false;   // the counters of a balanced file system leave room
      }
      var bitmap := new Bitmap(space.bitmaps[g]);
      bitmap.ClearRunOf(bit, count);
      var after := bitmap.bits[..];
      CountReleased(space.bitmaps[g], after, lay.GroupBlocks(g), bit, count);
      space := Space(space.bitmaps[g := after], space.groupFree[g := space.groupFree[g] + count], space.free + count);
      ReleasedMeaning(lay, old(space), space, g, bit, count);
      return Ok(());
    }
  }

  /** Taking a free run and releasing it again restores the bitmap. */
  lemma TakeThenRelease(was: seq<bv8>, taken: seq<bv8>, released: seq<bv8>, from: nat, count: nat)
    requires from + count <= 8 * |was| && ClearRun(was, from, count)
    requires RunChanged(was, taken, from, count, false) && RunChanged(taken, released, from, count, true)
    ensures released == was
  {
    hide Clear;
    BitsDetermineBytes(was, released);
  }

  /** Releasing what was allocated gives back the whole accounting. */
  lemma AllocThenRelease(lay: Layout, was: Space, mid: Space, now: Space, b: nat, count: nat)
    requires Fits(lay, was) && Fits(lay, mid) && lay.InRange(b)
    requires Marks(lay, was, mid, b, count, true) && Marks(lay, mid, now, b, count, false)
    requires forall c: nat :: b <= c < b + count ==> lay.InRange(c) && !InUse(lay, was, c)
    ensures now == was
  {
    hide Clear;
    BlockInGroup(lay, b);
    var g := lay.GroupOf(b);
    var from := b - lay.GroupFirst(g);
    forall i | from <= i < from + count
      ensures Clear(was.bitmaps[g], i)
    {
      GroupUnique(lay, g, lay.GroupFirst(g) + i);
      assert !InUse(lay, was, lay.GroupFirst(g) + i);
    }
    TakeThenRelease(was.bitmaps[g], mid.bitmaps[g], now.bitmaps[g], from, count);
  }

  /** Allocating what was released does so, too. */
  lemma ReleaseThenAlloc(lay: Layout, was: Space, mid: Space, now: Space, b: nat, count: nat)
    requires Fits(lay, was) && Fits(lay, mid) && lay.InRange(b)
    requires Marks(lay, was, mid, b, count, false) && Marks(lay, mid, now, b, count, true)
    requires forall c: nat :: b <= c < b + count ==> lay.InRange(c) && InUse(lay, was, c)
    ensures now == was
  {
    hide Clear;
    BlockInGroup(lay, b);
    var g := lay.GroupOf(b);
    var from := b - lay.GroupFirst(g);
    RunOfBlocks(lay, was, g, from, count);
    BitsDetermineBytes(was.bitmaps[g], now.bitmaps[g]);
  }

  // ---- One step of the accounting ------------------------------------------------

  lemma NoBlocks(lay: Layout, sp: Space, g: nat)
    requires Balanced(lay, sp) && g < lay.groups
    ensures lay.GroupBlocks(g) == 0 ==> sp.groupFree[g] == 0
  {
  }

  lemma BitmapClear(bitmap: Bitmap, bytes: seq<bv8>, bit: nat)
    requires bitmap.bits[..] == bytes && bit < 8 * |bytes|
    ensures bitmap.IsClear(bit) <==> Clear(bytes, bit)
  {
    assert bitmap.bits[..][bit / 8] == bitmap.bits[bit / 8];
  }

  lemma OneTaken(was: seq<bv8>, now: seq<bv8>, n: nat, bit: nat)
    requires bit < n <= 8 * |was| && now == Marked(was, bit) && Clear(was, bit)
    ensures RunChanged(was, now, bit, 1, false) && FreeBits(now, n) + 1 == FreeBits(was, n)
  {
    forall i | 0 <= i < 8 * |was|
      ensures Clear(now, i) == (if bit <= i < bit + 1 then false else Clear(was, i))
    {
      SetAt(was, bit, i);
    }
    hide Clear;
    CountTaken(was, now, n, bit, 1);
  }

  lemma OneReleased(was: seq<bv8>, now: seq<bv8>, n: nat, bit: nat)
    requires bit < n <= 8 * |was| && now == Unmarked(was, bit) && !Clear(was, bit)
    ensures RunChanged(was, now, bit, 1, true) && FreeBits(now, n) == FreeBits(was, n) + 1
  {
    forall i | 0 <= i < 8 * |was|
      ensures Clear(now, i) == (if bit <= i < bit + 1 then true else Clear(was, i))
    {
      UnsetAt(was, bit, i);
    }
    hide Clear;
    CountReleased(was, now, n, bit, 1);
  }

  lemma MarksAt(lay: Layout, was: Space, now: Space, g: nat, bit: nat, count: nat, used: bool)
    requires Fits(lay, was) && g < lay.groups && bit + count <= lay.GroupBlocks(g) && count > 0
    requires |now.bitmaps| == |now.groupFree| == lay.groups
    requires now.bitmaps == was.bitmaps[g := now.bitmaps[g]] && now.groupFree == was.groupFree[g := now.groupFree[g]]
    requires if used then now.groupFree[g] + count == was.groupFree[g] && now.free + count == was.free
             else now.groupFree[g] == was.groupFree[g] + count && now.free == was.free + count
    requires RunChanged(was.bitmaps[g], now.bitmaps[g], bit, count, !used)
    ensures var b := lay.GroupFirst(g) + bit; lay.InRange(b) && Marks(lay, was, now, b, count, used)
  {
    hide RunChanged;
    Below(lay, g);
    GroupUnique(lay, g, lay.GroupFirst(g) + bit);
  }

  /** The books after a block was taken. */
  lemma TakenMeaning(lay: Layout, was: Space, now: Space, g: nat, bit: nat)
    requires Balanced(lay, was) && g < lay.groups && bit < lay.GroupBlocks(g) && |now.bitmaps| == lay.groups
    requires was.groupFree[g] > 0 && was.free > 0
    requires now == Space(was.bitmaps[g := now.bitmaps[g]], was.groupFree[g := was.groupFree[g] - 1], was.free - 1)
    requires RunChanged(was.bitmaps[g], now.bitmaps[g], bit, 1, false)
    requires FreeBits(now.bitmaps[g], lay.GroupBlocks(g)) + 1 == FreeBits(was.bitmaps[g], lay.GroupBlocks(g))
    requires Clear(was.bitmaps[g], bit) && forall i :: 0 <= i < bit ==> !Clear(was.bitmaps[g], i)
    ensures Balanced(lay, now)
    ensures var b := lay.GroupFirst(g) + bit; lay.InRange(b) && Marks(lay, was, now, b, 1, true)
    ensures var b := lay.GroupFirst(g) + bit;
            && lay.InRange(b) && !InUse(lay, was, b) && lay.GroupOf(b) == g
            && (forall c: nat :: lay.InRange(c) ==> InUse(lay, now, c) == (c == b || InUse(lay, was, c)))
            && (forall c: nat :: lay.InRange(c) && lay.GroupOf(c) == g && c < b ==> InUse(lay, was, c))
  {
    hide Marks;
    hide FreeBits;
    hide Clear;
    hide Sum;
    MarksAt(lay, was, now, g, bit, 1, true);
    RunMeaning(lay, was, now, g, bit, 1, false);
    StaysBalanced(lay, was, now, g);
    var b := lay.GroupFirst(g) + bit;
    Below(lay, g);
    GroupUnique(lay, g, b);
    forall c: nat | lay.InRange(c) && lay.GroupOf(c) == g && c < b
      ensures InUse(lay, was, c)
    {
      BlockInGroup(lay, c);
    }
  }

  /** What a failed publication means for the block. */
  lemma FaultMeaning(lay: Layout, was: Space, done: Space, now: Space, b: nat, used: bool, fault: Fault)
    requires Balanced(lay, was) && lay.InRange(b) && InUse(lay, was, b) == !used && Marks(lay, was, done, b, 1, used)
    requires match fault
             case Refused => false
             case BitmapWrite => now == was || now == was.(bitmaps := done.bitmaps)
             case Undone => now == was
             case NotUndone => Between(was, done, now)
    ensures FaultLeft(lay, was, now, b, used, fault)
    ensures fault != NotUndone ==> (Balanced(lay, now) <==> now == was)
  {
    hide Balanced;
    hide RunChanged;
    FaultKeepsBalance(lay, was, now, b, used, fault);
  }

  lemma Below(lay: Layout, g: nat)
    requires lay.Valid()
    ensures lay.GroupFirst(g) >= lay.firstData
  {
    Times(0, g, lay.perGroup);
  }

  /** The books after a run was released. */
  lemma ReleasedMeaning(lay: Layout, was: Space, now: Space, g: nat, bit: nat, count: nat)
    requires Balanced(lay, was) && g < lay.groups && bit + count <= lay.GroupBlocks(g) && count > 0
             && |now.bitmaps| == lay.groups
    requires now
             == Space(was.bitmaps[g := now.bitmaps[g]], was.groupFree[g := was.groupFree[g] + count], was.free + count)
    requires RunChanged(was.bitmaps[g], now.bitmaps[g], bit, count, true) && UsedRun(was.bitmaps[g], bit, count)
    requires FreeBits(now.bitmaps[g], lay.GroupBlocks(g)) == FreeBits(was.bitmaps[g], lay.GroupBlocks(g)) + count
    ensures Balanced(lay, now)
    ensures var b := lay.GroupFirst(g) + bit; lay.InRange(b) && Marks(lay, was, now, b, count, false)
    ensures var b := lay.GroupFirst(g) + bit;
            && lay.InRange(b) && b + count <= lay.blockCount
            && (forall c: nat :: b <= c < b + count ==> InUse(lay, was, c))
            && (forall c: nat :: lay.InRange(c) ==> InUse(lay, now, c) == (!(b <= c < b + count) && InUse(lay, was, c)))
  {
    hide Marks;
    hide FreeBits;
    hide Clear;
    hide Sum;
    MarksAt(lay, was, now, g, bit, count, false);
    RunMeaning(lay, was, now, g, bit, count, true);
    StaysBalanced(lay, was, now, g);
    Below(lay, g);
    RunOfBlocks(lay, was, g, bit, count);
  }

  /** A run of bits and the blocks they stand for. */
  lemma RunOfBlocks(lay: Layout, sp: Space, g: nat, bit: nat, count: nat)
    requires Fits(lay, sp) && g < lay.groups && bit + count <= lay.GroupBlocks(g)
    ensures var b := lay.GroupFirst(g) + bit;
            UsedRun(sp.bitmaps[g], bit, count) <==> forall c: nat :: b <= c < b + count ==>
              lay.InRange(c) && InUse(lay, sp, c)
  {
    hide Clear;
    Below(lay, g);
    var b := lay.GroupFirst(g) + bit;
    forall c: nat | b <= c < b + count
      ensures lay.InRange(c) && (InUse(lay, sp, c) <==> !Clear(sp.bitmaps[g], c - lay.GroupFirst(g)))
    {
      GroupUnique(lay, g, c);
    }
    if forall c: nat :: b <= c < b + count ==> lay.InRange(c) && InUse(lay, sp, c) {
      forall i | bit <= i < bit + count
        ensures !Clear(sp.bitmaps[g], i)
      {
        var c := lay.GroupFirst(g) + i;
        assert InUse(lay, sp, c);
      }
    }
  }

  // ---- Probing all groups --------------------------------------------------------

  /** Going round once from any group visits every group. */
  function Probe(preferred: nat, k: nat, n: nat): (g: nat)
    requires n > 0
    ensures g < n
  {
    (preferred + k) % n
  }

  lemma AllProbed(preferred: nat, n: nat, free: seq<nat>)
    requires n > 0 && |free| == n
    requires forall k :: 0 <= k < n ==> free[Probe(preferred, k, n)] == 0
    ensures forall g :: 0 <= g < n ==> free[g] == 0
  {
    forall g | 0 <= g < n
      ensures free[g] == 0
    {
      var k := (g - preferred) % n;
      RoundTrip(preferred, g, n);
      assert free[Probe(preferred, k, n)] == 0;
    }
  }

  lemma RoundTrip(p: nat, g: nat, n: nat)
    requires g < n
    ensures 0 <= (g - p) % n < n && Probe(p, (g - p) % n, n) == g
  {
    var q := (g - p) / n;
    assert g - p == q * n + (g - p) % n;
    var x := p + (g - p) % n;
    assert x == g - q * n;
    if q > 0 {
      Times(1, q, n);
      assert false;
    }
    assert x == (-q) * n + g;
    DivUnique(x, n, -q);
    assert x == (x / n) * n + x % n;
  }

  lemma NothingFree(lay: Layout, sp: Space)
    requires Balanced(lay, sp) && forall g :: 0 <= g < lay.groups ==> sp.groupFree[g] == 0
    ensures forall b: nat :: lay.InRange(b) ==> InUse(lay, sp, b)
  {
    hide Clear;
    hide FreeBits;
    forall b: nat | lay.InRange(b)
      ensures InUse(lay, sp, b)
    {
      BlockInGroup(lay, b);
      var g := lay.GroupOf(b);
      CountNone(sp.bitmaps[g], lay.GroupBlocks(g));
    }
  }

  // ---- Counters never overflow -----------------------------------------------------

  /** Used bits leave room in the counters. */
  lemma ReleasedFits(lay: Layout, sp: Space, g: nat, bit: nat, count: nat)
    requires Balanced(lay, sp) && g < lay.groups && bit + count <= lay.GroupBlocks(g)
    requires UsedRun(sp.bitmaps[g], bit, count)
    ensures sp.groupFree[g] + count <= lay.GroupBlocks(g)
    ensures sp.free + count <= lay.blockCount
  {
    hide Clear;
    hide FreeBits;
    hide Sum;
    var n := lay.GroupBlocks(g);
    FreeWithoutRun(sp.bitmaps[g], n, bit, count);
    var more := sp.groupFree[g := sp.groupFree[g] + count];
    SumUpdate(sp.groupFree, g, sp.groupFree[g] + count);
    CountersBounded(lay, sp, more, g);
    SumBounded(lay, more, lay.groups);
    assert more[..lay.groups] == more;
  }

  lemma CountersBounded(lay: Layout, sp: Space, more: seq<nat>, g: nat)
    requires Balanced(lay, sp) && g < lay.groups && |more| == lay.groups && more == sp.groupFree[g := more[g]]
    requires more[g] <= lay.GroupBlocks(g)
    ensures forall h :: 0 <= h < lay.groups ==> more[h] <= lay.GroupBlocks(h)
  {
    hide Clear;
    hide Sum;
    hide Layout.GroupBlocks;
  }

  lemma {:induction false} FreeWithoutRun(bytes: seq<bv8>, n: nat, from: nat, count: nat)
    requires n <= 8 * |bytes| && from + count <= 8 * |bytes| && UsedRun(bytes, from, count)
    ensures FreeBits(bytes, n) + (if n <= from then 0 else if n <= from + count then n - from else count) <= n
    decreases n
  {
    hide Clear;
    if n > 0 {
      FreeWithoutRun(bytes, n - 1, from, count);
    }
  }

  lemma {:induction false} SumBounded(lay: Layout, free: seq<nat>, n: nat)
    requires lay.Valid() && n <= |free| && forall g :: 0 <= g < n ==> free[g] <= lay.GroupBlocks(g)
    ensures lay.firstData + Sum(free[..n]) <= lay.blockCount
    ensures lay.firstData + Sum(free[..n]) <= lay.GroupFirst(n)
    decreases n
  {
    hide Layout.GroupBlocks;
    hide Layout.GroupFirst;
    if n == 0 {
      GroupStart(lay);
    } else {
      assert free[..n][..n - 1] == free[..n - 1];
      SumBounded(lay, free, n - 1);
      GroupStep(lay, n - 1);
    }
  }

  lemma GroupStart(lay: Layout)
    ensures lay.GroupFirst(0) == lay.firstData
  {
  }

  lemma GroupStep(lay: Layout, g: nat)
    ensures lay.GroupFirst(g + 1) == lay.GroupFirst(g) + lay.perGroup
    ensures lay.GroupBlocks(g) <= lay.perGroup
    ensures lay.GroupFirst(g) < lay.blockCount ==> lay.GroupFirst(g) + lay.GroupBlocks(g) <= lay.blockCount
    ensures lay.GroupFirst(g) >= lay.blockCount ==> lay.GroupBlocks(g) == 0
  {
    assert (g + 1) * lay.perGroup == g * lay.perGroup + lay.perGroup;
  }

  /** A clear run of a group's bitmap. */
  ghost predicate ClearRunAt(lay: Layout, sp: Space, g: nat, s: nat, count: nat) {
    && g < |sp.bitmaps| && s + count <= lay.GroupBlocks(g) && s + count <= 8 * |sp.bitmaps[g]|
    && ClearRun(sp.bitmaps[g], s, count)
  }

  /** The preferred position lies in this group and is entirely free. */
  predicate HintFits(lay: Layout, sp: Space, g: nat, preferred: Option<nat>, count: nat)
    requires g < |sp.bitmaps| && lay.GroupBlocks(g) <= 8 * |sp.bitmaps[g]|
  {
    && preferred.Some? && lay.GroupFirst(g) <= preferred.value
    && preferred.value - lay.GroupFirst(g) + count <= lay.GroupBlocks(g)
    && ClearRun(sp.bitmaps[g], preferred.value - lay.GroupFirst(g), count)
  }

  /** What a group offers: the preferred position if this is the first group
      and the position is free, otherwise the lowest run, if any will do. */
  ghost predicate Offer(lay: Layout, sp: Space, g: nat, first: bool, preferred: Option<nat>, requirePreferred: bool,
                        count: nat, bit: nat)
    requires Fits(lay, sp) && g < lay.groups
  {
    && ClearRunAt(lay, sp, g, bit, count)
    && if first && HintFits(lay, sp, g, preferred, count) then preferred == Some(lay.GroupFirst(g) + bit)
       else !requirePreferred && forall s :: 0 <= s < bit ==> !ClearRunAt(lay, sp, g, s, count)
  }

  ghost predicate NoOffer(lay: Layout, sp: Space, g: nat, first: bool, preferred: Option<nat>, requirePreferred: bool,
                          count: nat)
    requires Fits(lay, sp) && g < lay.groups
  {
    && !(first && HintFits(lay, sp, g, preferred, count))
    && (requirePreferred || forall s :: !ClearRunAt(lay, sp, g, s, count))
  }

  /** The first offer on the way round. */
  ghost predicate FirstOffer(lay: Layout, sp: Space, start: nat, preferred: Option<nat>, requirePreferred: bool,
                             count: nat, k: nat, bit: nat)
    requires Fits(lay, sp) && lay.groups > 0
  {
    && k < Min(lay.groups, MAX_GROUP_PROBES)
    && Offer(lay, sp, Probe(start, k, lay.groups), k == 0, preferred, requirePreferred, count, bit)
    && forall i :: 0 <= i < k ==>
         NoOffer(lay, sp, Probe(start, i, lay.groups), i == 0, preferred, requirePreferred, count)
  }

  function Bits(lay: Layout, g: nat, bit: nat, count: nat): RangeIndex.Range {
    RangeIndex.Range(lay.GroupFirst(g) + bit, lay.GroupFirst(g) + bit + count)
  }

  lemma FoundFirst(lay: Layout, sp: Space, start: nat, preferred: Option<nat>, requirePreferred: bool, count: nat,
                   k: nat, bit: nat)
    requires Fits(lay, sp) && lay.groups > 0 && k < Min(lay.groups, MAX_GROUP_PROBES)
    requires Offer(lay, sp, Probe(start, k, lay.groups), k == 0, preferred, requirePreferred, count, bit)
    requires forall i :: 0 <= i < k ==>
               NoOffer(lay, sp, Probe(start, i, lay.groups), i == 0, preferred, requirePreferred, count)
    ensures FirstOffer(lay, sp, start, preferred, requirePreferred, count, k, bit)
    ensures ClearRunAt(lay, sp, Probe(start, k, lay.groups), bit, count)
    ensures !NoOffer(lay, sp, Probe(start, k, lay.groups), k == 0, preferred, requirePreferred, count)
  {
    hide NoOffer;
    hide ClearRunAt;
    hide HintFits;
    OfferDecides(lay, sp, Probe(start, k, lay.groups), k == 0, preferred, requirePreferred, count, bit, bit);
  }

  lemma NoHint(lay: Layout, sp: Space, g: nat, first: bool, preferred: Option<nat>, count: nat)
    requires Fits(lay, sp) && g < lay.groups && !(first && HintFits(lay, sp, g, preferred, count))
    ensures NoOffer(lay, sp, g, first, preferred, true, count)
  {
    hide ClearRunAt;
  }

  // ---- The same in terms of blocks ------------------------------------------------

  /** `count` free blocks from `b` on, all in one group. */
  ghost predicate FreeRun(lay: Layout, sp: Space, b: nat, count: nat)
    requires Fits(lay, sp)
  {
    && count > 0 && lay.InRange(b) && b + count <= lay.blockCount && lay.GroupOf(b + count - 1) == lay.GroupOf(b)
    && forall c: nat :: b <= c < b + count ==> !InUse(lay, sp, c)
  }

  /** No run of that length begins in the group. */
  ghost predicate NoFreeRun(lay: Layout, sp: Space, g: nat, count: nat)
    requires Fits(lay, sp)
  {
    forall c: nat :: lay.InRange(c) && lay.GroupOf(c) == g ==> !FreeRun(lay, sp, c, count)
  }

  /** The lowest free run in the first of four groups that has any, from group
      `start` on and after the last group with the first. */
  ghost predicate LowestFrom(lay: Layout, sp: Space, start: nat, b: nat, count: nat)
    requires Fits(lay, sp) && lay.groups > 0
  {
    && FreeRun(lay, sp, b, count)
    && (forall c: nat :: lay.InRange(c) && lay.GroupOf(c) == lay.GroupOf(b) && c < b ==> !FreeRun(lay, sp, c, count))
    && exists k: nat :: k < 4 && k < lay.groups && lay.GroupOf(b) == Probe(start, k, lay.groups)
                        && forall i :: 0 <= i < k ==> NoFreeRun(lay, sp, Probe(start, i, lay.groups), count)
  }

  ghost predicate NoneFrom(lay: Layout, sp: Space, start: nat, count: nat)
    requires Fits(lay, sp) && lay.groups > 0
  {
    forall i :: 0 <= i < 4 && i < lay.groups ==> NoFreeRun(lay, sp, Probe(start, i, lay.groups), count)
  }

  lemma BitsAreFree(lay: Layout, sp: Space, g: nat, bit: nat, count: nat)
    requires Fits(lay, sp) && g < lay.groups && count > 0 && ClearRunAt(lay, sp, g, bit, count)
    ensures FreeRun(lay, sp, lay.GroupFirst(g) + bit, count) && lay.GroupOf(lay.GroupFirst(g) + bit) == g
  {
    hide Clear;
    Below(lay, g);
    var b := lay.GroupFirst(g) + bit;
    forall c: nat | b <= c < b + count
      ensures lay.InRange(c) && lay.GroupOf(c) == g && !InUse(lay, sp, c)
    {
      GroupUnique(lay, g, c);
    }
  }

  lemma FreeAreBits(lay: Layout, sp: Space, b: nat, count: nat)
    requires Fits(lay, sp) && FreeRun(lay, sp, b, count)
    ensures var g := lay.GroupOf(b);
            g < lay.groups && lay.GroupFirst(g) <= b && ClearRunAt(lay, sp, g, b - lay.GroupFirst(g), count)
  {
    hide Clear;
    BlockInGroup(lay, b);
    BlockInGroup(lay, b + count - 1);
    var g := lay.GroupOf(b);
    forall i | b - lay.GroupFirst(g) <= i < b - lay.GroupFirst(g) + count
      ensures Clear(sp.bitmaps[g], i)
    {
      var c := lay.GroupFirst(g) + i;
      GroupUnique(lay, g, c);
      assert !InUse(lay, sp, c);
    }
  }

  lemma NoOfferNoRun(lay: Layout, sp: Space, g: nat, first: bool, preferred: Option<nat>, requirePreferred: bool,
                     count: nat)
    requires Fits(lay, sp) && g < lay.groups && count > 0
    requires NoOffer(lay, sp, g, first, preferred, requirePreferred, count)
    ensures !requirePreferred ==> NoFreeRun(lay, sp, g, count)
    ensures first && preferred.Some? && lay.InRange(preferred.value) && lay.GroupOf(preferred.value) == g ==>
              !FreeRun(lay, sp, preferred.value, count)
  {
    hide Clear;
    hide ClearRun;
    hide FreeRun;
    forall c: nat | lay.InRange(c) && lay.GroupOf(c) == g && FreeRun(lay, sp, c, count)
      ensures ClearRunAt(lay, sp, g, c - lay.GroupFirst(g), count) && lay.GroupFirst(g) <= c
    {
      FreeAreBits(lay, sp, c, count);
    }
  }

  lemma NoneOffers(lay: Layout, sp: Space, start: nat, preferred: Option<nat>, requirePreferred: bool, count: nat)
    requires Fits(lay, sp) && lay.groups > 0 && count > 0
    requires preferred.Some? && lay.InRange(preferred.value) ==> start == lay.GroupOf(preferred.value)
    requires forall k :: 0 <= k < Min(lay.groups, MAX_GROUP_PROBES) ==>
               NoOffer(lay, sp, Probe(start, k, lay.groups), k == 0, preferred, requirePreferred, count)
    ensures preferred.Some? ==> !FreeRun(lay, sp, preferred.value, count)
    ensures !requirePreferred ==> NoneFrom(lay, sp, start, count)
  {
    hide NoOffer;
    hide NoFreeRun;
    hide FreeRun;
    hide Probe;
    FitsValid(lay, sp);
    hide Fits;
    if preferred.Some? && FreeRun(lay, sp, preferred.value, count) {
      FreeInRange(lay, sp, preferred.value, count);
    }
    if preferred.Some? && lay.InRange(preferred.value) {
      StartProbe(lay, preferred.value);
      NoOfferNoRun(lay, sp, Probe(start, 0, lay.groups), true, preferred, requirePreferred, count);
    }
    if !requirePreferred {
      forall i | 0 <= i < 4 && i < lay.groups
        ensures NoFreeRun(lay, sp, Probe(start, i, lay.groups), count)
      {
        NoOfferNoRun(lay, sp, Probe(start, i, lay.groups), i == 0, preferred, requirePreferred, count);
      }
    }
  }

  lemma FitsValid(lay: Layout, sp: Space)
    requires Fits(lay, sp)
    ensures lay.Valid()
  {
  }

  /** The first probe is the group itself, the next one the group behind it. */
  lemma ProbeSteps(g: nat, k: nat, n: nat)
    requires g < n
    ensures Probe(g, 0, n) == g
    ensures Probe(g, k + 1, n) == if Probe(g, k, n) + 1 == n then 0 else Probe(g, k, n) + 1
  {
    DivUnique(g, n, 0);
    assert g == (g / n) * n + g % n;
    var x := g + k;
    assert x == (x / n) * n + x % n;
    if x % n + 1 == n {
      assert (x / n + 1) * n == (x / n) * n + n;
      DivUnique(x + 1, n, x / n + 1);
    } else {
      DivUnique(x + 1, n, x / n);
    }
    assert x + 1 == ((x + 1) / n) * n + (x + 1) % n;
  }

  lemma StartProbe(lay: Layout, b: nat)
    requires lay.Valid() && lay.InRange(b)
    ensures lay.GroupOf(b) < lay.groups && Probe(lay.GroupOf(b), 0, lay.groups) == lay.GroupOf(b)
  {
    hide Probe;
    BlockInGroup(lay, b);
    ProbeSteps(lay.GroupOf(b), 0, lay.groups);
  }

  /** An offer is the preferred run if that is free, else the lowest run. */
  lemma OfferMeans(lay: Layout, sp: Space, start: nat, preferred: Option<nat>, requirePreferred: bool, count: nat,
                   k: nat, bit: nat)
    requires Fits(lay, sp) && lay.groups > 0 && count > 0
    requires preferred.Some? && lay.InRange(preferred.value) ==> start == lay.GroupOf(preferred.value)
    requires FirstOffer(lay, sp, start, preferred, requirePreferred, count, k, bit)
    ensures var b := lay.GroupFirst(Probe(start, k, lay.groups)) + bit;
            && (preferred.Some? && FreeRun(lay, sp, preferred.value, count) ==> b == preferred.value)
            && (preferred.None? || !FreeRun(lay, sp, preferred.value, count) ==>
                  !requirePreferred && LowestFrom(lay, sp, start, b, count))
  {
    hide Clear;
    hide ClearRun;
    hide FreeRun;
    hide NoFreeRun;
    hide NoOffer;
    hide Probe;
    FitsValid(lay, sp);
    hide Fits;
    var g := Probe(start, k, lay.groups);
    var b := lay.GroupFirst(g) + bit;
    BitsAreFree(lay, sp, g, bit, count);
    if preferred.Some? && FreeRun(lay, sp, preferred.value, count) {
      FreeInRange(lay, sp, preferred.value, count);
      FreeAreBits(lay, sp, preferred.value, count);
      StartProbe(lay, preferred.value);
      if k > 0 {
        NoOfferNoRun(lay, sp, Probe(start, 0, lay.groups), true, preferred, requirePreferred, count);
      }
    } else {
      forall c: nat | lay.InRange(c) && lay.GroupOf(c) == lay.GroupOf(b) && c < b
        ensures !FreeRun(lay, sp, c, count)
      {
        if FreeRun(lay, sp, c, count) {
          FreeAreBits(lay, sp, c, count);
        }
      }
      forall i | 0 <= i < k
        ensures NoFreeRun(lay, sp, Probe(start, i, lay.groups), count)
      {
        NoOfferNoRun(lay, sp, Probe(start, i, lay.groups), i == 0, preferred, requirePreferred, count);
      }
    }
  }

  lemma FreeInRange(lay: Layout, sp: Space, b: nat, count: nat)
    requires Fits(lay, sp) && FreeRun(lay, sp, b, count)
    ensures lay.Valid() && lay.InRange(b)
  {
  }

  /** An offer settles that there is one, and which. */
  lemma OfferDecides(lay: Layout, sp: Space, g: nat, first: bool, preferred: Option<nat>, requirePreferred: bool,
                     count: nat, a: nat, b: nat)
    requires Fits(lay, sp) && g < lay.groups && Offer(lay, sp, g, first, preferred, requirePreferred, count, a)
    ensures !NoOffer(lay, sp, g, first, preferred, requirePreferred, count)
    ensures Offer(lay, sp, g, first, preferred, requirePreferred, count, b) ==> a == b
  {
    hide ClearRunAt;
    hide HintFits;
    hide Fits;
  }

  lemma LayoutFacts(lay: Layout, sp: Space)
    requires Balanced(lay, sp)
    ensures Fits(lay, sp) && lay.Valid() && lay.groups > 0 && lay.perGroup > 0
    ensures |sp.bitmaps| == |sp.groupFree| == lay.groups
  {
  }

  lemma {:induction false} ClearRunCounts(bytes: seq<bv8>, n: nat, from: nat, count: nat)
    requires n <= 8 * |bytes| && from + count <= 8 * |bytes| && ClearRun(bytes, from, count)
    ensures FreeBits(bytes, n) >= if n <= from then 0 else if n <= from + count then n - from else count
    decreases n
  {
    hide Clear;
    if n > 0 {
      ClearRunCounts(bytes, n - 1, from, count);
    }
  }

  /** A group whose counter is too low has no run: the counter can be trusted. */
  lemma TooFew(lay: Layout, sp: Space, g: nat, first: bool, preferred: Option<nat>, requirePreferred: bool, count: nat)
    requires Balanced(lay, sp) && Fits(lay, sp) && g < lay.groups
    ensures lay.GroupBlocks(g) <= 8 * |sp.bitmaps[g]|
    ensures lay.GroupBlocks(g) < count || sp.groupFree[g] < count ==>
              NoOffer(lay, sp, g, first, preferred, requirePreferred, count)
  {
    hide ClearRun;
    hide FreeBits;
    hide Layout.GroupBlocks;
    var n := lay.GroupBlocks(g);
    forall s | ClearRunAt(lay, sp, g, s, count)
      ensures count <= n && count <= sp.groupFree[g]
    {
      ClearRunCounts(sp.bitmaps[g], n, s, count);
    }
    if HintFits(lay, sp, g, preferred, count) {
      assert ClearRunAt(lay, sp, g, preferred.value - lay.GroupFirst(g), count);
    }
  }

  lemma HintOffers(lay: Layout, sp: Space, g: nat, preferred: Option<nat>, requirePreferred: bool, count: nat)
    requires Fits(lay, sp) && g < lay.groups && HintFits(lay, sp, g, preferred, count)
    ensures preferred.Some? && lay.GroupFirst(g) <= preferred.value
    ensures Offer(lay, sp, g, true, preferred, requirePreferred, count, preferred.value - lay.GroupFirst(g))
  {
    hide ClearRun;
  }

  lemma LowestOffers(lay: Layout, sp: Space, g: nat, first: bool, preferred: Option<nat>, count: nat, bit: Option<nat>)
    requires Fits(lay, sp) && g < lay.groups && !(first && HintFits(lay, sp, g, preferred, count)) && count > 0
    requires bit.Some? ==>
               && bit.value + count <= Min(lay.GroupBlocks(g), Min(lay.GroupBlocks(g), 8 * |sp.bitmaps[g]|))
               && ClearRun(sp.bitmaps[g], bit.value, count)
               && forall s :: 0 <= s < bit.value ==> !ClearRun(sp.bitmaps[g], s, count)
    requires bit.None? ==>
               forall s :: 0 <= s
                           && s + count <= Min(lay.GroupBlocks(g), Min(lay.GroupBlocks(g), 8 * |sp.bitmaps[g]|)) ==>
                 !ClearRun(sp.bitmaps[g], s, count)
    ensures bit.Some? ==> Offer(lay, sp, g, first, preferred, false, count, bit.value)
    ensures bit.None? ==> NoOffer(lay, sp, g, first, preferred, false, count)
  {
    hide ClearRun;
    hide HintFits;
    hide Layout.GroupBlocks;
  }

  lemma OfferInRange(lay: Layout, sp: Space, g: nat, bit: nat, count: nat)
    requires Fits(lay, sp) && g < lay.groups && ClearRunAt(lay, sp, g, bit, count) && count > 0
    ensures bit + count <= lay.GroupBlocks(g) && ClearRun(sp.bitmaps[g], bit, count)
    ensures lay.firstData <= lay.GroupFirst(g) + bit && lay.GroupFirst(g) + bit + count <= lay.blockCount < U64_LIMIT
  {
  }

  /** The books after a run was taken. */
  lemma RunTakenMeaning(lay: Layout, was: Space, now: Space, g: nat, bit: nat, count: nat)
    requires Balanced(lay, was) && g < lay.groups && bit + count <= lay.GroupBlocks(g) && count > 0
             && |now.bitmaps| == lay.groups
    requires count <= was.groupFree[g] && count <= was.free
    requires now
             == Space(was.bitmaps[g := now.bitmaps[g]], was.groupFree[g := was.groupFree[g] - count], was.free - count)
    requires RunChanged(was.bitmaps[g], now.bitmaps[g], bit, count, false) && ClearRun(was.bitmaps[g], bit, count)
    requires FreeBits(now.bitmaps[g], lay.GroupBlocks(g)) + count == FreeBits(was.bitmaps[g], lay.GroupBlocks(g))
    ensures Balanced(lay, now)
    ensures var b := lay.GroupFirst(g) + bit; lay.InRange(b) && Marks(lay, was, now, b, count, true)
    ensures var b := lay.GroupFirst(g) + bit;
            && lay.InRange(b) && b + count <= lay.blockCount && lay.GroupOf(b) == g
            && (forall c: nat :: b <= c < b + count ==> !InUse(lay, was, c))
            && (forall c: nat :: lay.InRange(c) ==> InUse(lay, now, c) == (b <= c < b + count || InUse(lay, was, c)))
  {
    hide Marks;
    hide FreeBits;
    hide Clear;
    hide Sum;
    MarksAt(lay, was, now, g, bit, count, true);
    RunMeaning(lay, was, now, g, bit, count, false);
    StaysBalanced(lay, was, now, g);
    Below(lay, g);
    var b := lay.GroupFirst(g) + bit;
    GroupUnique(lay, g, b);
    forall c: nat | b <= c < b + count
      ensures !InUse(lay, was, c)
    {
      GroupUnique(lay, g, c);
    }
  }
}
