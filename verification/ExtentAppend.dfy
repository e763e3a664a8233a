/** When a new block lengthens the extent in front of it, and when it gets an
    extent of its own: told from the list of extents and the number of the
    block alone, in the numbers that the extents store. */
module ExtentAppend {
  import opened Bytes
  import opened ExtentNode
  import opened ExtentForest
  import opened ExtentPath
  import opened ExtentOutcome

  /** Extent `i` ends right in front of logical block `l` and of physical block
      `p`, and it has not reached the greatest length, 32768 blocks. */
  predicate Continues(extents: seq<Slot>, i: nat, l: int, p: int)
    requires i < |extents|
  {
    var e := extents[i];
    e.key + e.count == l && e.target + e.count == p && e.count < 32768
  }

  ghost predicate Continued(extents: seq<Slot>, l: int, p: int) {
    exists i :: 0 <= i < |extents| && Continues(extents, i, l, p)
  }

  /** Block `p` was added at `l`: as one block more of the extent that it
      continues or, if it continues none, as an extent of one block. */
  ghost predicate Appended(before: seq<Slot>, after: seq<Slot>, l: u32, p: Phys) {
    && (forall i :: 0 <= i < |before| && Continues(before, i, l, p) ==>
          after == before[i := Slot(before[i].key, before[i].target, before[i].count + 1)])
    && (!Continued(before, l, p) ==>
          exists i :: 0 <= i <= |before| && after == before[..i] + [Slot(l, p, 1)] + before[i..])
  }

  lemma PlainMember(extents: seq<Slot>, i: nat)
    requires Plain(extents) && i < |extents|
    ensures var e := extents[i];
            0 < e.count <= 32768 && e.Len() == e.count && !e.Unwritten() && e.End() == e.key + e.count
  {
    assert extents[i] in extents;
  }

  lemma OneContinues(extents: seq<Slot>, i: nat, j: nat, l: int, p: int)
    requires Plain(extents) && i < |extents| && j < |extents|
    requires Continues(extents, i, l, p) && Continues(extents, j, l, p)
    ensures i == j
  {
    hide Plain;
    PlainMember(extents, i);
    PlainMember(extents, j);
    PlainIsSorted(extents);
  }

  /** The merge test of two extents, for an extent of one block. */
  lemma MergeTest(extents: seq<Slot>, i: nat, l: u32, p: Phys)
    requires Plain(extents) && i < |extents| && l < MAX_BLOCKS
    ensures CanAppend(extents[i], NewExtent(l, p)) <==> Continues(extents, i, l, p)
    ensures CanAppend(extents[i], NewExtent(l, p)) ==>
              Merged(extents[i], NewExtent(l, p)) == Slot(extents[i].key, extents[i].target, extents[i].count + 1)
  {
    hide Plain;
    PlainMember(extents, i);
  }

  /** A gain that keeps the number of extents where it can is an append. */
  lemma GainIsAppend(before: seq<Slot>, after: seq<Slot>, l: u32, p: Phys)
    requires Plain(before) && l < MAX_BLOCKS && Gains(before, after, NewExtent(l, p))
    requires Continued(before, l, p) ==> |after| == |before|
    ensures Appended(before, after, l, p)
  {
    hide Plain;
    hide CanAppend;
    hide Continues;
    var x := NewExtent(l, p);
    assert x == Slot(l, p, 1);
    var k: nat :| GainsAt(before, after, x, k);
    if after != Inserted(before, x, k) {
      MergeTest(before, k - 1, l, p);
      forall i | 0 <= i < |before| && Continues(before, i, l, p)
        ensures i == k - 1
      {
        OneContinues(before, i, k - 1, l, p);
      }
    }
  }

  // ---- From the leaf to the list -----------------------------------------------------

  /** An extent that ends at a hole is in the node that the path for the hole
      visits, at every level. */
  lemma {:induction false} OnPath(blocks: Blocks, root: Node, path: seq<Step>, l: int, k: nat, e: Slot)
    requires Sound(blocks, root) && Descends(blocks, root, path, l) && k < |path|
    requires Plain(Flat(blocks, root.depth, root.slots)) && Mapped(Flat(blocks, root.depth, root.slots), l) == None
    ensures var node := At(blocks, root, path, k);
            && (e in Flat(blocks, node.depth, node.slots) ==> e in Flat(blocks, root.depth, root.slots))
            && (e.End() == l && e in Flat(blocks, root.depth, root.slots) ==> e in Flat(blocks, node.depth, node.slots))
    decreases k
  {
    hide Forest;
    hide Owned;
    hide Flat;
    hide Mapped;
    hide Sorted;
    hide Sound;
    hide Plain;
    if k == 0 {
      NotRoot(blocks, root, path, l, 0);
    } else {
      OnPath(blocks, root, path, l, k - 1, e);
      StepInside(blocks, root, path, l, k - 1, e);
    }
  }

  lemma StepInside(blocks: Blocks, root: Node, path: seq<Step>, l: int, k: nat, e: Slot)
    requires Sound(blocks, root) && Descends(blocks, root, path, l) && k + 1 < |path|
    requires Plain(Flat(blocks, root.depth, root.slots)) && Mapped(Flat(blocks, root.depth, root.slots), l) == None
    ensures var node, below := At(blocks, root, path, k), At(blocks, root, path, k + 1);
            && (e in Flat(blocks, below.depth, below.slots) ==> e in Flat(blocks, node.depth, node.slots))
            && (e.End() == l && e in Flat(blocks, node.depth, node.slots) ==>
                  e in Flat(blocks, below.depth, below.slots))
  {
    hide Forest;
    hide Owned;
    hide Flat;
    hide Mapped;
    hide Sorted;
    hide Sound;
    hide Plain;
    Sides(blocks, root, path, l, k);
    LevelWritten(blocks, root, path, l, k);
    LevelWritten(blocks, root, path, l, k + 1);
    HoleBelow(blocks, root, path, l, k + 1);
    NotRoot(blocks, root, path, l, k);
    NotRoot(blocks, root, path, l, k + 1);
    var node := At(blocks, root, path, k);
    var i := path[k].index;
    CutAt(blocks, node.depth, node.slots, i);
    var before, inside, after := Flat(blocks, node.depth, node.slots[..i]),
      Flat(blocks, node.depth - 1, Kid(blocks, node.slots[i].target).slots),
      Flat(blocks, node.depth, node.slots[i + 1..]);
    PlainConcat(before + inside, after);
    PlainConcat(before, inside);
    if e.End() == l && e in before {
      EndsAtFirst(before, inside, e, l);
    }
  }

  /** The first extent below an entry at or in front of a hole begins in front
      of it. */
  lemma HoleBelow(blocks: Blocks, root: Node, path: seq<Step>, l: int, k: nat)
    requires Sound(blocks, root) && Descends(blocks, root, path, l) && 0 < k < |path|
    requires Plain(Flat(blocks, root.depth, root.slots)) && Mapped(Flat(blocks, root.depth, root.slots), l) == None
    ensures var node := At(blocks, root, path, k);
            var extents := Flat(blocks, node.depth, node.slots);
            extents != [] && extents[0].key < l
  {
    hide Owned;
    hide Flat;
    hide Mapped;
    hide Sorted;
    hide Sound;
    hide Plain;
    Levels(blocks, root, path, l, k);
    LevelWritten(blocks, root, path, l, k);
    var node := At(blocks, root, path, k);
    FirstKey(blocks, node.depth, node.slots);
    var extents := Flat(blocks, node.depth, node.slots);
    if extents[0].key == l {
      PlainMember(extents, 0);
      PlainIsSorted(extents);
      MappedAt(extents, 0, l);
    }
  }

  lemma EndsAtFirst(before: seq<Slot>, inside: seq<Slot>, e: Slot, l: int)
    requires Precedes(before, inside) && e in before && e.End() == l && inside != []
    ensures l <= inside[0].key
  {
    assert inside[0] in inside;
  }

  /** The extent in front of a hole, as the search of its leaf finds it, is
      continued exactly if some extent of the file is. */
  lemma MergesIff(blocks: Blocks, root: Node, supply: seq<Phys>, path: seq<Step>, l: u32)
    requires Sound(blocks, root) && LeadsTo(blocks, root, path, l) && supply != [] && l < MAX_BLOCKS
    requires Plain(Flat(blocks, root.depth, root.slots)) && Mapped(Flat(blocks, root.depth, root.slots), l) == None
    ensures MergesAt(blocks, root, supply, path, l)
            <==> Continued(Flat(blocks, root.depth, root.slots), l, supply[0])
  {
    hide Forest;
    hide Owned;
    hide Mapped;
    hide Sorted;
    hide Sound;
    hide Plain;
    hide Descends;
    hide CanAppend;
    hide NewExtent;
    hide Continues;
    var k, p, all := |path| - 1, supply[0], Flat(blocks, root.depth, root.slots);
    var leaf := At(blocks, root, path, k).slots;
    var i := path[k].index;
    LeafFacts(blocks, root, path, l);
    LevelWritten(blocks, root, path, l, k);
    assert Flat(blocks, 0, leaf) == leaf;
    if MergesAt(blocks, root, supply, path, l) {
      MergeTest(leaf, i - 1, l, p);
      OnPath(blocks, root, path, l, k, leaf[i - 1]);
      var j :| 0 <= j < |all| && all[j] == leaf[i - 1];
      ContinuesSame(leaf, i - 1, all, j, l, p);
    }
    if Continued(all, l, p) {
      var j :| 0 <= j < |all| && Continues(all, j, l, p);
      EndsThere(all, j, l, p);
      OnPath(blocks, root, path, l, k, all[j]);
      var m :| 0 <= m < |leaf| && leaf[m] == all[j];
      ContinuesSame(all, j, leaf, m, l, p);
      InFront(leaf, i, m, l);
      MergeTest(leaf, m, l, p);
    }
  }

  lemma ContinuesSame(a: seq<Slot>, i: nat, b: seq<Slot>, j: nat, l: int, p: int)
    requires i < |a| && j < |b| && a[i] == b[j]
    ensures Continues(a, i, l, p) <==> Continues(b, j, l, p)
  {
  }

  lemma EndsThere(extents: seq<Slot>, i: nat, l: int, p: int)
    requires Plain(extents) && i < |extents| && Continues(extents, i, l, p)
    ensures extents[i].End() == l
  {
    hide Plain;
    PlainMember(extents, i);
  }

  /** The extent that ends at a hole is the last one in front of it. */
  lemma InFront(leaf: seq<Slot>, i: nat, m: nat, l: int)
    requires Plain(leaf) && LeafAnswer(leaf, i, false, l) && m < |leaf| && leaf[m].End() == l
    ensures m == i - 1
  {
    PlainMember(leaf, m);
    if m + 1 < i {
      PlainMember(leaf, m + 1);
    }
  }

  // ---- The whole tree ----------------------------------------------------------------

  lemma CreatedGains(B0: Blocks, R0: Node, s0: seq<Phys>, path: seq<Step>, l: u32, B: Blocks, R: Node, s: seq<Phys>)
    requires Created(B0, R0, s0, path, l, B, R, s)
    ensures s0 != []
    ensures l < MAX_BLOCKS ==>
              Gains(Flat(B0, R0.depth, R0.slots), Flat(B, R.depth, R.slots), NewExtent(l, s0[0]))
  {
    hide Cost;
    hide MergesAt;
    hide AllFull;
  }

  /** A merge takes the data block and no tree block. */
  lemma MergeTakesOne(B0: Blocks, R0: Node, s0: seq<Phys>, path: seq<Step>, l: u32, B: Blocks, R: Node, s: seq<Phys>)
    requires Created(B0, R0, s0, path, l, B, R, s)
    ensures path != [] && s0 != []
    ensures MergesAt(B0, R0, s0, path, l) ==>
              s == s0[1..] && Owned(B, R.depth, R.slots) == Owned(B0, R0.depth, R0.slots)
  {
    hide MergesAt;
    hide AllFull;
    hide Gains;
    hide Mapped;
    hide Linked;
    hide Usable;
    hide WellKept;
    assert s0[1..][..0] == [];
  }

  /** A leaf that keeps its number of entries keeps that of the whole tree. */
  lemma {:induction false} SameNumber(B0: Blocks, B: Blocks, depth: nat, slots: seq<Slot>, pblock: nat, image: Node)
    requires Forest(B0, depth, slots) && pblock in B0 && B0[pblock].depth == 0
    requires B == B0[pblock := image] && |image.slots| == |B0[pblock].slots|
    ensures |Flat(B, depth, slots)| == |Flat(B0, depth, slots)|
    decreases depth, |slots|
  {
    hide Owned;
    if depth > 0 && slots != [] {
      var n := |slots| - 1;
      SameNumber(B0, B, depth, slots[..n], pblock, image);
      if slots[n].target != pblock {
        SameNumber(B0, B, depth - 1, Kid(B0, slots[n].target).slots, pblock, image);
      }
    }
  }

  lemma SameExtentCount(B0: Blocks, R0: Node, B: Blocks, R: Node, pblock: nat, image: Node)
    requires Forest(B0, R0.depth, R0.slots) && image.depth == 0
    requires if pblock == 0 then R == image && B == B0 && R0.depth == 0 && |image.slots| == |R0.slots|
             else R == R0 && pblock in B0 && B0[pblock].depth == 0 && B == B0[pblock := image]
                  && |image.slots| == |B0[pblock].slots|
    ensures |Flat(B, R.depth, R.slots)| == |Flat(B0, R0.depth, R0.slots)|
  {
    hide Forest;
    if pblock != 0 {
      SameNumber(B0, B, R0.depth, R0.slots, pblock, image);
    }
  }
}
