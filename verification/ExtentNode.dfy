/** One node of an extent tree: a header and a packed array of entries that is
    searched, shifted and split in place.  Leaf extents and index entries share
    one form, as tree operations only look at the key they have in common. */
module ExtentNode {
  import opened Bytes

  /** A physical block as extents store it: 48 bits. */
  type Phys = x: int | 0 <= x < 0x1_0000_0000_0000

  const INIT_MAX_LEN: nat := 32768
  const MAX_BLOCKS: nat := 0xFFFF_FFFF
  const MAX_EXTENT_DEPTH: nat := 5
  const ROOT_CAPACITY: nat := 4
  const BLOCK_CAPACITY: nat := 340

  /** An extent (key, physical start, raw length) or an index entry (key, child
      block). */
  datatype Slot = Slot(key: u32, target: Phys, count: u16)
  {
    function Len(): nat {
      if count <= INIT_MAX_LEN then count else count - INIT_MAX_LEN
    }

    predicate Unwritten() {
      count > INIT_MAX_LEN
    }

    function End(): nat {
      key + Len()
    }

    predicate Covers(lblock: int) {
      key <= lblock < End()
    }
  }

  /** A node image. */
  datatype Node = Node(depth: nat, max: nat, slots: seq<Slot>)

  /** Nodes fill the space they have with a header and entries of twelve bytes
      each: 60 bytes in the inode, and a block without four bytes of checksum. */
  lemma NodesFillSpace()
    ensures 12 + 12 * ROOT_CAPACITY == 60 && 12 + 12 * BLOCK_CAPACITY + 4 == BLOCK_SIZE
  {
    assert 12 * BLOCK_CAPACITY == 4080;
  }

  /** What the stored count of an extent says: up to 32768 written blocks, or
      from 32769 on so many less 32768 that are not. */
  lemma StoredCount(key: u32, target: Phys, n: nat)
    requires n <= 32767
    ensures Slot(key, target, n).Len() == n && !Slot(key, target, n).Unwritten()
    ensures Slot(key, target, 32768).Len() == 32768 && !Slot(key, target, 32768).Unwritten()
    ensures n > 0 ==> Slot(key, target, 32768 + n).Len() == n && Slot(key, target, 32768 + n).Unwritten()
    ensures Slot(key, target, n).End() == key + n
  {
  }

  /** The extent for a new block.  At the very last logical block its length
      comes out as zero. */
  function NewExtent(l: u32, pblock: Phys): Slot {
    Slot(l, pblock, if 1 < MAX_BLOCKS - l then 1 else MAX_BLOCKS - l)
  }

  /** One block is too many at the end of the logical range: the extent made for
      it is empty, and a leaf that holds it fails its check from then on. */
  lemma LastBlockSpoilsLeaf(slots: seq<Slot>, i: nat, l: u32, pblock: Phys)
    requires i < |slots| && slots[i] == NewExtent(l, pblock)
    ensures NewExtent(l, pblock).Len() == 0 <==> l == MAX_BLOCKS
    ensures l == MAX_BLOCKS ==> !Sorted(slots) && !WellKept(Node(0, |slots|, slots), |slots|)
  {
  }

  /** May `b` be merged into the end of `a`? */
  predicate CanAppend(a: Slot, b: Slot) {
    && a.target + a.Len() == b.target
    && !(a.Unwritten() && a.Len() + b.Len() > 65535)
    && a.Len() + b.Len() <= INIT_MAX_LEN
    && a.End() == b.key
  }

  /** Extents in order, without overlap. */
  predicate Sorted(extents: seq<Slot>) {
    && (forall i :: 0 <= i < |extents| ==> extents[i].Len() > 0 && extents[i].End() < U32_LIMIT)
    && (forall i, j :: 0 <= i < j < |extents| ==> extents[i].End() <= extents[j].key)
  }

  predicate Ascending(slots: seq<Slot>) {
    forall i, j :: 0 <= i < j < |slots| ==> slots[i].key < slots[j].key
  }

  predicate AllWritten(extents: seq<Slot>) {
    forall e :: e in extents ==> !e.Unwritten()
  }

  function Inserted(slots: seq<Slot>, x: Slot, pos: nat): (r: seq<Slot>)
    requires pos <= |slots|
    ensures |r| == |slots| + 1
  {
    slots[..pos] + [x] + slots[pos..]
  }

  /** How many entries a full node of this capacity keeps when it is split to
      make room at `pos`. */
  function SplitPoint(max: nat, pos: nat): nat {
    if pos < max * 2 / 3 then max * 2 / 3 + 1 else max * 2 / 3
  }

  /** What every node read from the device must satisfy. */
  predicate WellKept(node: Node, capacity: nat) {
    && node.depth <= MAX_EXTENT_DEPTH
    && |node.slots| <= node.max <= capacity
    && (if node.depth > 0 then node.slots != [] && Ascending(node.slots) else Sorted(node.slots))
  }

  method CheckIndexes(slots: seq<Slot>) returns (ok: bool)
    ensures ok <==> Ascending(slots)
  {
    for i := 0 to |slots|
      invariant forall k, l :: 0 <= k < l < i ==> slots[k].key < slots[l].key
    {
      if i > 0 && slots[i].key <= slots[i - 1].key {
        return false;
      }
    }
    return true;
  }

  method CheckExtents(slots: seq<Slot>) returns (ok: bool)
    ensures ok <==> Sorted(slots)
  {
    hide Sorted;
    EmptySorted();
    assert slots[..0] == [];
    for i := 0 to |slots|
      invariant Sorted(slots[..i])
    {
      SortedStep(slots, i);
      var e := slots[i];
      if e.Len() == 0 || (i > 0 && e.key < slots[i - 1].End()) || e.End() >= U32_LIMIT {
        return false;
      }
    }
    assert slots[..|slots|] == slots;
    return true;
  }

  lemma EmptySorted()
    ensures Sorted([])
  {
  }

  lemma SortedStep(slots: seq<Slot>, i: nat)
    requires i < |slots| && Sorted(slots[..i])
    ensures var e := slots[i];
            var bad := e.Len() == 0 || (i > 0 && e.key < slots[i - 1].End()) || e.End() >= U32_LIMIT;
            && (bad ==> !Sorted(slots))
            && (!bad ==> Sorted(slots[..i + 1]))
  {
    if i > 0 {
      assert slots[..i][i - 1] == slots[i - 1];
      forall k | 0 <= k < i
        ensures slots[k].End() <= slots[i - 1].End()
      {
        assert slots[..i][k] == slots[k];
      }
    }
    assert forall k :: 0 <= k < i ==> slots[..i + 1][k] == slots[..i][k];
  }

  /** Check a node before its entries are used. */
  method Validate(node: Node, capacity: nat) returns (r: Result<()>)
    ensures r.Ok? <==> WellKept(node, capacity)
    ensures r.Err? ==> r.code == EIO
  {
    if node.depth > MAX_EXTENT_DEPTH || |node.slots| > node.max || node.max > capacity {
      return Err(EIO);
    }
    if node.depth > 0 {
      var ascending := CheckIndexes(node.slots);
      return if node.slots != [] && ascending then Ok(()) else Err(EIO);
    } else {
      var sorted := CheckExtents(node.slots);
      return if sorted then Ok(()) else Err(EIO);
    }
  }

  class NodeBuf {
    var depth: nat
    var max: nat
    var count: nat
    const slots: array<Slot>

    ghost predicate Valid()
      reads this
    {
      count <= max <= slots.Length
    }

    /** The entries that the header counts; what lies behind them is stale. */
    function Entries(): seq<Slot>
      requires Valid()
      reads this, slots
    {
      slots[..count]
    }

    /** A private copy of a node image. */
    constructor Load(node: Node)
      requires |node.slots| <= node.max
      ensures Valid() && fresh(slots) && Entries() == node.slots && depth == node.depth && max == node.max
    {
      depth, max, count := node.depth, node.max, |node.slots|;
      slots := new Slot[node.max](i => if 0 <= i < |node.slots| then node.slots[i] else Slot(0, 0, 0));
    }

    /** An empty node that uses its whole capacity. */
    constructor Init(capacity: nat, depth: nat)
      ensures Valid() && fresh(slots) && Entries() == [] && this.depth == depth && max == capacity
    {
      this.depth, max, count := depth, capacity, 0;
      slots := new Slot[capacity](_ => Slot(0, 0, 0));
    }

    method Image() returns (node: Node)
      requires Valid()
      ensures node == Node(depth, max, Entries())
    {
      node := Node(depth, max, slots[..count]);
    }

    /** The extent that maps `lblock`, or where one would go.  An unwritten
        extent that covers it counts as not found. */
    method SearchExtent(lblock: u32) returns (found: bool, i: nat)
      requires Valid() && Sorted(Entries())
      ensures i <= count
      ensures found <==> exists k :: 0 <= k < count && slots[k].Covers(lblock) && !slots[k].Unwritten()
      ensures found ==> i < count && slots[i].Covers(lblock) && !slots[i].Unwritten()
      ensures !found && AllWritten(Entries()) ==>
                && (forall k :: 0 <= k < i ==> slots[k].End() <= lblock)
                && (forall k :: i <= k < count ==> lblock < slots[k].key)
    {
      ghost var all := Entries();
      assert forall k :: 0 <= k < count ==> all[k] == slots[k];
      assert forall k :: 0 <= k < count ==> all[k] in all;
      i := 0;
      while i < count
        invariant i <= count
        invariant forall k :: 0 <= k < i ==> slots[k].End() <= lblock
      {
        if slots[i].key <= lblock {
          if slots[i].End() > lblock {
            return !slots[i].Unwritten(), i;
          }
          i := i + 1;
        } else {
          break;
        }
      }
      return false, i;
    }

    /** The last index entry at or below `lblock`. */
    method SearchIndex(lblock: u32) returns (r: Option<nat>)
      requires Valid() && Ascending(Entries())
      ensures r.None? <==> count == 0 || lblock < slots[0].key
      ensures r.Some? ==>
                && r.value < count && slots[r.value].key <= lblock
                && forall k :: r.value < k < count ==> lblock < slots[k].key
    {
      ghost var all := Entries();
      assert forall k :: 0 <= k < count ==> all[k] == slots[k];
      if count == 0 {
        return None;
      }
      var i := 0;
      while i < count
        invariant i <= count
        invariant forall k :: 0 <= k < i ==> slots[k].key <= lblock
      {
        if slots[i].key > lblock {
          break;
        }
        i := i + 1;
      }
      return if i == 0 then None else Some(i - 1);
    }

    /** Make room at `pos` by moving the later entries up by one. */
    method ShiftIn(x: Slot, pos: nat)
      requires Valid() && count < max && pos <= count
      modifies this`count, slots
      ensures Valid() && Entries() == Inserted(old(Entries()), x, pos)
    {
      ghost var before := Entries();
      var i := count;
      while i > pos
        invariant pos <= i <= count == |before| < max <= slots.Length
        invariant slots[..i] == before[..i]
        invariant forall k :: i < k <= count ==> slots[k] == before[k - 1]
      {
        slots[i] := slots[i - 1];
        i := i - 1;
      }
      slots[pos] := x;
      count := count + 1;
    }

    /** Insert an entry.  A full node keeps its lower two thirds and returns the
        rest; in order, the two halves are the old entries with the new one in
        its place. */
    method Insert(x: Slot, pos: nat) returns (split: Option<seq<Slot>>)
      requires Valid() && pos <= count && max >= 2
      modifies this`count, slots
      ensures Valid()
      ensures split.Some? <==> old(count) == max
      ensures split.None? ==> Entries() == Inserted(old(Entries()), x, pos)
      ensures split.Some? ==>
                && Entries() + split.value == Inserted(old(Entries()), x, pos)
                && Entries() != [] && split.value != [] && |split.value| <= max
                && |Entries()| == SplitPoint(max, pos)
    {
      if count < max {
        ShiftIn(x, pos);
        return None;
      }
      ghost var before := Entries();
      var mid := count * 2 / 3;
      var right := UpperPart(x, pos, mid);
      count := mid;
      assert Entries() == before[..mid];
      if pos < mid {
        ShiftIn(x, pos);
      }
      Halves(before, x, pos, mid);
      return Some(right);
    }

    /** The entries from `mid` on, with the new one if it belongs there. */
    method UpperPart(x: Slot, pos: nat, mid: nat) returns (right: seq<Slot>)
      requires Valid() && mid <= count && pos <= count
      ensures right == Upper(Entries(), x, pos, mid, count) + (if pos == count then [x] else [])
    {
      hide Upper;
      ghost var all := Entries();
      right := [];
      UpperStep(all, x, pos, mid, mid);
      for i := mid to count
        invariant right == Upper(all, x, pos, mid, i)
      {
        UpperStep(all, x, pos, mid, i);
        if i == pos {
          right := right + [x];
        }
        right := right + [slots[i]];
      }
      if pos == count {
        right := right + [x];
      }
    }

    method RemoveLast() returns (ok: bool)
      requires Valid()
      modifies this`count
      ensures Valid()
      ensures ok <==> old(count) > 0
      ensures ok ==> Entries() == old(Entries())[..old(count) - 1]
      ensures !ok ==> count == old(count)
    {
      if count == 0 {
        return false;
      }
      count := count - 1;
      return true;
    }

    /** Shorten the last extent of a leaf, or drop it when nothing is left. */
    method TrimTail(remove: nat) returns (r: Result<()>)
      requires Valid()
      modifies this`count, slots
      ensures Valid()
      ensures r.Ok? <==> depth == 0 && old(count) > 0 && 0 < remove <= old(slots[count - 1]).Len()
      ensures r.Err? ==> Entries() == old(Entries())
      ensures r.Ok? ==>
                var last := old(slots[count - 1]);
                Entries() == old(Entries())[..old(count) - 1]
                + (if remove == last.Len() then [] else [Shortened(last, remove)])
    {
      if depth != 0 || count == 0 {
        return Err(EIO);
      }
      var last := slots[count - 1];
      if remove == 0 || remove > last.Len() {
        return Err(EINVAL);
      }
      if remove == last.Len() {
        var _ := RemoveLast();
      } else {
        slots[count - 1] := Shortened(last, remove);
      }
      return Ok(());
    }
  }

  /** The extent without its last `remove` blocks; an unwritten extent stays
      unwritten. */
  function Shortened(e: Slot, remove: nat): (r: Slot)
    requires 0 < remove < e.Len()
    ensures r.key == e.key && r.target == e.target && r.Len() == e.Len() - remove && r.Unwritten() == e.Unwritten()
  {
    e.(count := if e.Unwritten() then e.Len() - remove + INIT_MAX_LEN else e.Len() - remove)
  }

  /** Entries `mid..i`, with `x` in front of entry `pos` if that is among them. */
  function Upper(all: seq<Slot>, x: Slot, pos: nat, mid: nat, i: nat): seq<Slot>
    requires mid <= i <= |all|
  {
    if mid <= pos < i then all[mid..pos] + [x] + all[pos..i] else all[mid..i]
  }

  lemma UpperStep(all: seq<Slot>, x: Slot, pos: nat, mid: nat, i: nat)
    requires mid <= i <= |all|
    ensures i == mid ==> Upper(all, x, pos, mid, i) == []
    ensures i < |all| ==>
              Upper(all, x, pos, mid, i + 1)
              == Upper(all, x, pos, mid, i) + (if i == pos then [x] else []) + [all[i]]
  {
    if i < |all| && mid <= pos < i {
      assert all[pos..i + 1] == all[pos..i] + [all[i]];
    }
  }

  lemma Halves(before: seq<Slot>, x: Slot, pos: nat, mid: nat)
    requires pos <= |before| && mid <= |before|
    ensures pos < mid ==> Inserted(before[..mid], x, pos) + before[mid..] == Inserted(before, x, pos)
    ensures pos >= mid ==>
              before[..mid] + (Upper(before, x, pos, mid, |before|) + (if pos == |before| then [x] else []))
              == Inserted(before, x, pos)
    ensures pos < mid ==> Upper(before, x, pos, mid, |before|) == before[mid..]
    ensures |Upper(before, x, pos, mid, |before|)| <= |before| - mid + 1
    ensures |Upper(before, x, pos, mid, |before|)| >= |before| - mid
  {
  }
}
