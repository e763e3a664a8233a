/** Removing the right edge of an extent tree: what is taken away, which nodes
    are given up, and what is left. */
module ExtentTail {
  import opened Bytes
  import opened ExtentNode
  import opened ExtentForest
  import opened ExtentPath

  /** The list without the last `remove` blocks of its last extent. */
  ghost predicate Drops(before: seq<Slot>, after: seq<Slot>, remove: nat) {
    && before != []
    && var last := before[|before| - 1];
       && 0 < remove <= last.Len()
       && after == before[..|before| - 1] + (if remove == last.Len() then [] else [Shortened(last, remove)])
  }

  lemma DropsLifts(left: seq<Slot>, before: seq<Slot>, after: seq<Slot>, remove: nat)
    requires Drops(before, after, remove)
    ensures Drops(left + before, left + after, remove)
  {
    assert (left + before)[..|left + before| - 1] == left + before[..|before| - 1];
  }

  lemma DropsKeepsFirst(before: seq<Slot>, after: seq<Slot>, remove: nat)
    requires Drops(before, after, remove) && after != []
    ensures after[0].key == before[0].key
  {
  }

  /** Exactly the returned range is unmapped; it was mapped to the returned
      physical range. */
  lemma DropsMaps(before: seq<Slot>, after: seq<Slot>, remove: nat, l: int)
    requires Drops(before, after, remove) && Sorted(before)
    ensures Sorted(after)
    ensures var last := before[|before| - 1];
            var start := last.End() - remove;
            && Mapped(after, l) == (if l < start then Mapped(before, l) else None)
            && (l >= last.End() ==> Mapped(before, l) == None)
            && (start <= l < last.End() ==>
                  Mapped(before, l) == if last.Unwritten() then None
                  else Some(last.target + last.Len() - remove + (l - start)))
  {
    hide Sorted;
    hide Mapped;
    var n := |before| - 1;
    var left, last := before[..n], before[n];
    assert before == left + [last];
    if remove < last.Len() {
      ShortenedMaps(left, last, remove, l);
    } else {
      assert after == left;
      DroppedMaps(left, last, l);
    }
  }

  lemma ShortenedMaps(left: seq<Slot>, last: Slot, remove: nat, l: int)
    requires Sorted(left + [last]) && 0 < remove < last.Len()
    ensures var after, start := left + [Shortened(last, remove)], last.End() - remove;
            && Sorted(after)
            && Mapped(after, l) == (if l < start then Mapped(left + [last], l) else None)
            && (l >= last.End() ==> Mapped(left + [last], l) == None)
            && (start <= l < last.End() ==>
                  Mapped(left + [last], l) == if last.Unwritten() then None
                  else Some(last.target + last.Len() - remove + (l - start)))
  {
    hide Sorted;
    hide Mapped;
    var short := Shortened(last, remove);
    SortedParts(left, [last]);
    assert last in [last];
    MappedSplit(left, [last], l, last.key);
    MappedSplit(left, [short], l, last.key);
    MappedOne(last, l);
    MappedOne(short, l);
    SortedLast(left, last, short);
  }

  lemma DroppedMaps(left: seq<Slot>, last: Slot, l: int)
    requires Sorted(left + [last])
    ensures Sorted(left)
    ensures Mapped(left, l) == (if l < last.key then Mapped(left + [last], l) else None)
    ensures l >= last.End() ==> Mapped(left + [last], l) == None
    ensures last.key <= l < last.End() ==>
              Mapped(left + [last], l) == if last.Unwritten() then None else Some(last.target + (l - last.key))
  {
    hide Sorted;
    hide Mapped;
    SortedParts(left, [last]);
    assert last in [last];
    MappedSplit(left, [last], l, last.key);
    MappedOne(last, l);
    if l >= last.key {
      MappedNowhere(left, l);
    }
  }

  lemma SortedLast(left: seq<Slot>, last: Slot, short: Slot)
    requires Sorted(left + [last]) && short.key == last.key && 0 < short.Len() <= last.Len()
    ensures Sorted(left + [short])
  {
    var a, b := left + [last], left + [short];
    forall i | 0 <= i < |b|
      ensures b[i].Len() > 0 && b[i].End() < U32_LIMIT
    {
      assert a[i].End() < U32_LIMIT;
    }
    forall i, j | 0 <= i < j < |b|
      ensures b[i].End() <= b[j].key
    {
      assert a[i].End() <= a[j].key;
    }
  }

  /** The right spine is the path of the last logical block. */
  predicate LastTaken(slots: seq<Slot>, i: nat) {
    slots != [] && i == |slots| - 1
  }

  lemma LastIsChosen(slots: seq<Slot>)
    requires slots != []
    ensures Chosen(slots, |slots| - 1, MAX_BLOCKS)
  {
  }

  ghost predicate RightSpine(blocks: Blocks, root: Node, path: seq<Step>) {
    && Descends(blocks, root, path, MAX_BLOCKS)
    && forall k :: 0 <= k < |path| - 1 ==> LastTaken(At(blocks, root, path, k).slots, path[k].index)
  }

  /** The node at level `k` has lost its right edge but is not empty. */
  ghost predicate Trimmed(B0: Blocks, R0: Node, B: Blocks, R: Node, path: seq<Step>, k: nat, freed: set<nat>,
                          remove: nat)
    requires k < |path|
  {
    var was, now := At(B0, R0, path, k), At(B, R, path, k);
    && now.depth == was.depth && now.max == was.max
    && 0 < |now.slots| <= now.max
    && Forest(B, now.depth, now.slots)
    && Drops(Flat(B0, was.depth, was.slots), Flat(B, now.depth, now.slots), remove)
    && freed <= Owned(B0, was.depth, was.slots)
    && Owned(B, now.depth, now.slots) == Owned(B0, was.depth, was.slots) - freed
    && Untouched(B0, B, Owned(B0, was.depth, was.slots) + {path[k].pblock})
    && (k > 0 ==> R == R0)
  }

  /** What the parent on the spine looks like around its last child. */
  lemma SpineSides(blocks: Blocks, root: Node, path: seq<Step>, k: nat)
    requires Sound(blocks, root) && RightSpine(blocks, root, path) && k + 1 < |path|
    ensures var node := At(blocks, root, path, k);
            && node.depth > 0 && node.slots != []
            && var n := |node.slots| - 1;
               && node.slots[n].target == path[k + 1].pblock
               && At(blocks, root, path, k + 1) == Kid(blocks, node.slots[n].target)
               && node.slots == node.slots[..n] + [node.slots[n]]
               && Forest(blocks, node.depth, node.slots)
               && Sorted(Flat(blocks, node.depth, node.slots))
  {
    hide Flat;
    hide Owned;
    hide Forest;
    hide Sorted;
    Sides(blocks, root, path, MAX_BLOCKS, k);
    assert LastTaken(At(blocks, root, path, k).slots, path[k].index);
  }

  /** From level `k + 1` to level `k`: the parent itself does not change. */
  lemma TrimmedUp(B0: Blocks, R0: Node, B: Blocks, R: Node, path: seq<Step>, k: nat, freed: set<nat>, remove: nat)
    requires Sound(B0, R0) && RightSpine(B0, R0, path) && k + 1 < |path|
    requires Trimmed(B0, R0, B, R, path, k + 1, freed, remove)
    ensures Trimmed(B0, R0, B, R, path, k, freed, remove)
  {
    hide Flat;
    hide Owned;
    hide Forest;
    hide Mapped;
    hide Sorted;
    hide Sound;
    hide Drops;
    SpineSides(B0, R0, path, k);
    NodeFits(B0, R0, path, k);
    Levels(B0, R0, path, MAX_BLOCKS, k);
    Levels(B0, R0, path, MAX_BLOCKS, k + 1);
    var was := At(B0, R0, path, k);
    var n := |was.slots| - 1;
    var s, left := was.slots[n], was.slots[..n];
    var child, now := At(B0, R0, path, k + 1), At(B, R, path, k + 1);
    var d := child.depth;
    CutAt(B0, was.depth, was.slots, n);
    assert was.slots[n + 1..] == [];
    FlatNothing(B0, was.depth);
    One(B0, was.depth, s);
    FirstKey(B0, d, child.slots);
    FirstKey(B, d, now.slots);
    DropsKeepsFirst(Flat(B0, d, child.slots), Flat(B, d, now.slots), remove);
    assert IndexEntry(B, d, s);
    One(B, was.depth, s);
    Concat(B0, was.depth, left, [s]);
    Frame(B0, B, was.depth, left);
    Concat(B, was.depth, left, [s]);
    DropsLifts(Flat(B0, was.depth, left), Flat(B0, d, child.slots), Flat(B, d, now.slots), remove);
    SpineNodeKept(B0, R0, B, R, path, k, Owned(B0, d, child.slots) + {path[k + 1].pblock});
  }

  lemma SpineNodeKept(B0: Blocks, R0: Node, B: Blocks, R: Node, path: seq<Step>, k: nat, changed: set<nat>)
    requires k < |path| && R == R0 && Untouched(B0, B, changed) && path[k].pblock !in changed
    ensures At(B, R, path, k) == At(B0, R0, path, k)
  {
  }

  lemma {:induction false} TrimmedToRoot(B0: Blocks, R0: Node, B: Blocks, R: Node, path: seq<Step>, k: nat,
                                         freed: set<nat>, remove: nat)
    requires Sound(B0, R0) && RightSpine(B0, R0, path) && k < |path|
    requires Trimmed(B0, R0, B, R, path, k, freed, remove)
    ensures Trimmed(B0, R0, B, R, path, 0, freed, remove)
    decreases k
  {
    hide *;
    if k > 0 {
      TrimmedUp(B0, R0, B, R, path, k - 1, freed, remove);
      TrimmedToRoot(B0, R0, B, R, path, k - 1, freed, remove);
    }
  }

  /** A trimmed root is the root of a sound tree. */
  lemma TrimmedDone(B0: Blocks, R0: Node, B: Blocks, R: Node, path: seq<Step>, freed: set<nat>, remove: nat)
    requires Sound(B0, R0) && RightSpine(B0, R0, path) && Trimmed(B0, R0, B, R, path, 0, freed, remove)
    ensures Sound(B, R) && Drops(Flat(B0, R0.depth, R0.slots), Flat(B, R.depth, R.slots), remove)
    ensures freed <= Owned(B0, R0.depth, R0.slots)
    ensures Owned(B, R.depth, R.slots) == Owned(B0, R0.depth, R0.slots) - freed
    ensures Flat(B, R.depth, R.slots) != []
  {
    hide Flat;
    hide Owned;
    hide Forest;
    hide Drops;
    DropsMaps(Flat(B0, R0.depth, R0.slots), Flat(B, R.depth, R.slots), remove, 0);
    FirstKey(B, R.depth, R.slots);
  }

  /** The leaf keeps something. */
  lemma LeafTrimmed(B0: Blocks, R0: Node, B: Blocks, R: Node, path: seq<Step>, remove: nat)
    requires Sound(B0, R0) && RightSpine(B0, R0, path) && |path| == R0.depth + 1
    requires var k := |path| - 1;
             var was, now := At(B0, R0, path, k), At(B, R, path, k);
             && now.depth == was.depth && now.max == was.max && 0 < |now.slots| <= now.max
             && Drops(was.slots, now.slots, remove)
             && (if k == 0 then B == B0 else R == R0 && B == B0[path[k].pblock := now])
    ensures Trimmed(B0, R0, B, R, path, |path| - 1, {}, remove)
  {
    hide Drops;
  }

  // ---- Giving up whole nodes ---------------------------------------------------

  /** The node at level `k` holds nothing but the last extent; giving it up
      frees it and everything below it. */
  ghost predicate Emptied(B0: Blocks, R0: Node, path: seq<Step>, k: nat, freed: set<nat>)
    requires k < |path|
  {
    var was := At(B0, R0, path, k);
    && |Flat(B0, was.depth, was.slots)| == 1
    && freed == Owned(B0, was.depth, was.slots) + {path[k].pblock}
  }

  lemma EmptiedLeaf(B0: Blocks, R0: Node, path: seq<Step>)
    requires Sound(B0, R0) && RightSpine(B0, R0, path) && |path| == R0.depth + 1
    requires |At(B0, R0, path, |path| - 1).slots| == 1
    ensures Emptied(B0, R0, path, |path| - 1, {path[|path| - 1].pblock})
  {
  }

  lemma LastChild(B0: Blocks, R0: Node, path: seq<Step>, k: nat)
    requires Sound(B0, R0) && RightSpine(B0, R0, path) && k + 1 < |path|
    ensures var was, child := At(B0, R0, path, k), At(B0, R0, path, k + 1);
            && was.depth == child.depth + 1 && was.slots != [] && |was.slots| <= was.max
            && var left := was.slots[..|was.slots| - 1];
               && Forest(B0, was.depth, left)
               && Flat(B0, was.depth, was.slots) == Flat(B0, was.depth, left) + Flat(B0, child.depth, child.slots)
               && Flat(B0, child.depth, child.slots) != []
               && (left != [] ==> Flat(B0, was.depth, left) != [])
               && (left == [] ==> Flat(B0, was.depth, left) == [] && Owned(B0, was.depth, left) == {})
               && var gone := Owned(B0, child.depth, child.slots) + {path[k + 1].pblock};
                  && Owned(B0, was.depth, was.slots) == Owned(B0, was.depth, left) + gone
                  && Owned(B0, was.depth, left) !! gone
                  && path[k].pblock !in Owned(B0, was.depth, was.slots)
                  && path[k + 1].pblock !in Owned(B0, child.depth, child.slots)
  {
    hide Flat;
    hide Owned;
    hide Forest;
    hide Mapped;
    hide Sorted;
    hide Sound;
    SpineSides(B0, R0, path, k);
    Levels(B0, R0, path, MAX_BLOCKS, k);
    NodeFits(B0, R0, path, k);
    Levels(B0, R0, path, MAX_BLOCKS, k + 1);
    var was := At(B0, R0, path, k);
    var n := |was.slots| - 1;
    var left := was.slots[..n];
    CutAt(B0, was.depth, was.slots, n);
    assert was.slots[n + 1..] == [];
    FlatNothing(B0, was.depth);
    if left != [] {
      FirstKey(B0, was.depth, left);
    }
  }

  lemma NodeFits(B0: Blocks, R0: Node, path: seq<Step>, k: nat)
    requires Sound(B0, R0) && RightSpine(B0, R0, path) && k < |path|
    ensures |At(B0, R0, path, k).slots| <= At(B0, R0, path, k).max
    ensures At(B0, R0, path, k).depth == R0.depth - k && (path[k].pblock == 0 <==> k == 0)
    ensures k > 0 ==> At(B0, R0, path, k).slots != [] && path[k].pblock in B0
  {
    hide Flat;
    hide Owned;
    hide Forest;
    hide Mapped;
    hide Sorted;
    Levels(B0, R0, path, MAX_BLOCKS, k);
  }

  /** A parent with a single child goes with it. */
  lemma EmptiedUp(B0: Blocks, R0: Node, path: seq<Step>, k: nat, freed: set<nat>)
    requires Sound(B0, R0) && RightSpine(B0, R0, path) && k + 1 < |path|
    requires Emptied(B0, R0, path, k + 1, freed) && |At(B0, R0, path, k).slots| == 1
    ensures Emptied(B0, R0, path, k, freed + {path[k].pblock}) && path[k].pblock !in freed
  {
    hide Flat;
    hide Owned;
    hide Forest;
    hide Sorted;
    LastChild(B0, R0, path, k);
  }

  /** A parent with other children drops its last entry. */
  lemma ParentTrimmed(B0: Blocks, R0: Node, B: Blocks, R: Node, path: seq<Step>, k: nat, freed: set<nat>, remove: nat)
    requires Sound(B0, R0) && RightSpine(B0, R0, path) && k + 1 < |path|
    requires Emptied(B0, R0, path, k + 1, freed) && |At(B0, R0, path, k).slots| > 1
    requires var all := Flat(B0, R0.depth, R0.slots); all != [] && remove == all[|all| - 1].Len() > 0
    requires var was, now := At(B0, R0, path, k), At(B, R, path, k);
             && now == was.(slots := was.slots[..|was.slots| - 1])
             && (if k == 0 then B == B0 else R == R0 && B == B0[path[k].pblock := now])
    ensures Trimmed(B0, R0, B, R, path, k, freed, remove)
  {
    hide Flat;
    hide Owned;
    hide Forest;
    hide Sorted;
    hide Sound;
    LastChild(B0, R0, path, k);
    FlatNothing(B0, R0.depth);
    assert R0.slots != [];
    LastOfAll(B0, R0, path, k);
    var was, now := At(B0, R0, path, k), At(B, R, path, k);
    Frame(B0, B, now.depth, now.slots);
  }

  /** The last extent of every spine node is the last extent of the tree. */
  lemma {:induction false} LastOfAll(B0: Blocks, R0: Node, path: seq<Step>, k: nat)
    requires Sound(B0, R0) && RightSpine(B0, R0, path) && k < |path| && R0.slots != []
    ensures var was := At(B0, R0, path, k);
            var all, inside := Flat(B0, R0.depth, R0.slots), Flat(B0, was.depth, was.slots);
            all != [] && inside != [] && inside[|inside| - 1] == all[|all| - 1]
    decreases k
  {
    hide Flat;
    hide Owned;
    hide Forest;
    hide Sorted;
    hide RightSpine;
    if k == 0 {
      RootNotEmpty(B0, R0, path);
    } else {
      LastOfAll(B0, R0, path, k - 1);
      LastChild(B0, R0, path, k - 1);
    }
  }

  lemma RootNotEmpty(B0: Blocks, R0: Node, path: seq<Step>)
    requires Sound(B0, R0) && RightSpine(B0, R0, path) && R0.slots != []
    ensures At(B0, R0, path, 0) == R0 && Flat(B0, R0.depth, R0.slots) != []
  {
    hide Owned;
    FirstKey(B0, R0.depth, R0.slots);
  }

  // ---- Walking the spine ---------------------------------------------------------

  lemma SpineStart(blocks: Blocks, root: Node)
    ensures RightSpine(blocks, root, [Step(0, 0)]) && At(blocks, root, [Step(0, 0)], 0) == root
  {
    StartPath(blocks, root, MAX_BLOCKS);
  }

  lemma SpineGrows(blocks: Blocks, root: Node, path: seq<Step>, pblock: nat)
    requires Sound(blocks, root) && RightSpine(blocks, root, path + [Step(pblock, 0)])
    requires var node := At(blocks, root, path + [Step(pblock, 0)], |path|);
             node.depth > 0 && node.slots != [] && Ascending(node.slots)
    ensures var node := At(blocks, root, path + [Step(pblock, 0)], |path|);
            var last := |node.slots| - 1;
            var next := node.slots[last].target;
            && next in blocks && next != 0
            && RightSpine(blocks, root, path + [Step(pblock, last)] + [Step(next, 0)])
            && At(blocks, root, path + [Step(pblock, last)] + [Step(next, 0)], |path| + 1) == blocks[next]
            && blocks[next].depth == node.depth - 1 && blocks[next].slots != []
  {
    hide Sound;
    hide Ascending;
    var probe := path + [Step(pblock, 0)];
    var node := At(blocks, root, probe, |path|);
    var last := |node.slots| - 1;
    LastIsChosen(node.slots);
    PathGrows(blocks, root, path, pblock, last, MAX_BLOCKS);
    var next := node.slots[last].target;
    var longer := path + [Step(pblock, last)] + [Step(next, 0)];
    DescendsFacts(blocks, root, path + [Step(pblock, last)], next, MAX_BLOCKS);
    NotRoot(blocks, root, probe, MAX_BLOCKS, |path|);
    forall k | 0 <= k < |longer| - 1
      ensures LastTaken(At(blocks, root, longer, k).slots, longer[k].index)
    {
      assert longer[k].pblock == probe[k].pblock;
      assert At(blocks, root, longer, k) == At(blocks, root, probe, k);
      if k < |path| {
        assert longer[k] == probe[k];
        assert LastTaken(At(blocks, root, probe, k).slots, probe[k].index);
      }
    }
  }

  /** A sound spine node passes the checks made on every read. */
  lemma SpineWellKept(blocks: Blocks, root: Node, path: seq<Step>, k: nat)
    requires Sound(blocks, root) && RightSpine(blocks, root, path) && k < |path|
    ensures WellKept(At(blocks, root, path, k), if k == 0 then ROOT_CAPACITY else BLOCK_CAPACITY)
  {
    hide Sound;
    hide WellKept;
    SoundIsWellKept(blocks, root, path, MAX_BLOCKS, k);
  }

  /** The last extent of the leaf is the last extent of the tree. */
  lemma SpineLeaf(blocks: Blocks, root: Node, path: seq<Step>)
    requires Sound(blocks, root) && RightSpine(blocks, root, path) && |path| == root.depth + 1 && root.slots != []
    ensures var leaf := At(blocks, root, path, |path| - 1);
            var all := Flat(blocks, root.depth, root.slots);
            && leaf.depth == 0 && leaf.slots != [] && all != []
            && leaf.slots[|leaf.slots| - 1] == all[|all| - 1]
            && all[|all| - 1].Len() > 0
            && |leaf.slots| <= leaf.max
            && (path[|path| - 1].pblock == 0 <==> |path| == 1)
            && (|path| > 1 ==> path[|path| - 1].pblock in blocks)
  {
    hide Owned;
    hide Forest;
    LastOfAll(blocks, root, path, |path| - 1);
    NodeFits(blocks, root, path, |path| - 1);
  }

  /** Everything went: the tree is one extent long. */
  lemma AllEmptied(B0: Blocks, R0: Node, path: seq<Step>, freed: set<nat>)
    requires Sound(B0, R0) && RightSpine(B0, R0, path) && |path| > 1
    requires Emptied(B0, R0, path, 1, freed) && |R0.slots| == 1
    ensures |Flat(B0, R0.depth, R0.slots)| == 1 && freed == Owned(B0, R0.depth, R0.slots)
  {
    hide Flat;
    hide Owned;
    hide Forest;
    hide Sorted;
    LastChild(B0, R0, path, 0);
  }

  /** Nothing is left of a tree of one extent. */
  lemma DropsAll(blocks: Blocks, root: Node, remove: nat)
    requires var all := Flat(blocks, root.depth, root.slots); all != [] && remove == all[|all| - 1].Len() > 0
    ensures |Flat(blocks, root.depth, root.slots)| == 1 ==> Drops(Flat(blocks, root.depth, root.slots), [], remove)
    ensures root.depth == 0 ==>
              Flat(blocks, root.depth, root.slots) == root.slots && Owned(blocks, root.depth, root.slots) == {}
  {
  }

  lemma EmptyRoot(blocks: Blocks, root: Node)
    requires root.depth == 0 && root.slots == [] && root.max == ROOT_CAPACITY
    ensures Sound(blocks, root) && Flat(blocks, root.depth, root.slots) == []
            && Owned(blocks, root.depth, root.slots) == {}
  {
  }
}
