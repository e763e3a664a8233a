/** Search paths through an extent tree, and what holds at each level of one
    while an insertion works its way back up to the root. */
module ExtentPath {
  import opened Bytes
  import opened ExtentNode
  import opened ExtentForest

  /** One node of a search path; the root is block zero. */
  datatype Step = Step(pblock: nat, index: nat)

  function At(blocks: Blocks, root: Node, path: seq<Step>, k: nat): Node
    requires k < |path|
  {
    if path[k].pblock == 0 then root else Kid(blocks, path[k].pblock)
  }

  /** `i` is the last entry at or below `l`. */
  predicate Chosen(slots: seq<Slot>, i: nat, l: int) {
    i < |slots| && slots[i].key <= l && (i + 1 < |slots| ==> l < slots[i + 1].key)
  }

  /** The path follows the index entries that were chosen for `l`, one level at
      a time; the index of the last step is not constrained. */
  ghost predicate Descends(blocks: Blocks, root: Node, path: seq<Step>, l: int) {
    && path != [] && |path| <= root.depth + 1
    && (forall k :: 0 <= k < |path| ==>
        (path[k].pblock == 0 <==> k == 0) && At(blocks, root, path, k).depth == root.depth - k)
    && (forall k :: 0 <= k < |path| - 1 ==>
          && Chosen(At(blocks, root, path, k).slots, path[k].index, l)
          && At(blocks, root, path, k).slots[path[k].index].target == path[k + 1].pblock)
  }

  ghost predicate Sound(blocks: Blocks, root: Node) {
    && root.max == ROOT_CAPACITY && |root.slots| <= root.max && root.depth <= MAX_EXTENT_DEPTH
    && (root.depth > 0 ==> root.slots != [])
    && Forest(blocks, root.depth, root.slots)
    && Sorted(Flat(blocks, root.depth, root.slots))
  }

  /** What holds at level `k` of a path. */
  ghost predicate LevelSound(blocks: Blocks, root: Node, path: seq<Step>, l: int, k: nat)
    requires k < |path|
  {
    var node := At(blocks, root, path, k);
    && Forest(blocks, node.depth, node.slots)
    && Sorted(Flat(blocks, node.depth, node.slots))
    && Owned(blocks, node.depth, node.slots) <= Owned(blocks, root.depth, root.slots)
    && path[k].pblock !in Owned(blocks, node.depth, node.slots)
    && (k > 0 ==>
          && path[k].pblock in blocks
          && path[k].pblock in Owned(blocks, root.depth, root.slots)
          && 0 < |node.slots| <= node.max == BLOCK_CAPACITY
          && node.slots[0].key <= l)
    && Mapped(Flat(blocks, root.depth, root.slots), l) == Mapped(Flat(blocks, node.depth, node.slots), l)
  }

  lemma {:induction false} NoRootInside(blocks: Blocks, depth: nat, slots: seq<Slot>)
    requires Forest(blocks, depth, slots)
    ensures 0 !in Owned(blocks, depth, slots)
    ensures forall b :: b in Owned(blocks, depth, slots) ==> b in blocks
    decreases depth, |slots|
  {
    if depth > 0 && slots != [] {
      var n := |slots| - 1;
      NoRootInside(blocks, depth, slots[..n]);
      NoRootInside(blocks, depth - 1, Kid(blocks, slots[n].target).slots);
    }
  }

  /** From one level to the next. */
  lemma OneDown(blocks: Blocks, root: Node, path: seq<Step>, l: int, k: nat)
    requires Sound(blocks, root) && Descends(blocks, root, path, l) && k + 1 < |path|
    requires LevelSound(blocks, root, path, l, k)
    ensures LevelSound(blocks, root, path, l, k + 1)
  {
    hide Flat;
    hide Owned;
    hide Forest;
    hide Mapped;
    hide Sorted;
    var node := At(blocks, root, path, k);
    var i := path[k].index;
    assert Chosen(node.slots, i, l);
    CutAt(blocks, node.depth, node.slots, i);
    var s := node.slots[i];
    IndexFacts(blocks, node.depth - 1, s);
    var after := Flat(blocks, node.depth, node.slots[i + 1..]);
    if i + 1 < |node.slots| {
      FirstKey(blocks, node.depth, node.slots[i + 1..]);
      assert node.slots[i + 1..][0] == node.slots[i + 1];
      LaterThanFirst(after);
    } else {
      assert node.slots[i + 1..] == [];
      FlatNothing(blocks, node.depth);
    }
    assert forall e :: e in after ==> l < e.key;
    MappedInside(Flat(blocks, node.depth, node.slots[..i]), Flat(blocks, node.depth - 1, Kid(blocks, s.target).slots),
                 after, l);
  }

  lemma FlatNothing(blocks: Blocks, depth: nat)
    ensures Flat(blocks, depth, []) == [] && Owned(blocks, depth, []) == {} && Forest(blocks, depth, [])
  {
  }

  lemma LaterThanFirst(extents: seq<Slot>)
    requires Sorted(extents) && extents != []
    ensures forall e :: e in extents ==> extents[0].key <= e.key
  {
  }

  lemma {:induction false} Levels(blocks: Blocks, root: Node, path: seq<Step>, l: int, k: nat)
    requires Sound(blocks, root) && Descends(blocks, root, path, l) && k < |path|
    ensures LevelSound(blocks, root, path, l, k)
    decreases k
  {
    hide LevelSound;
    hide Flat;
    hide Forest;
    hide Mapped;
    if k == 0 {
      RootLevel(blocks, root, path, l);
    } else {
      Levels(blocks, root, path, l, k - 1);
      OneDown(blocks, root, path, l, k - 1);
    }
  }

  lemma RootLevel(blocks: Blocks, root: Node, path: seq<Step>, l: int)
    requires Sound(blocks, root) && Descends(blocks, root, path, l)
    ensures LevelSound(blocks, root, path, l, 0)
  {
    NoRootInside(blocks, root.depth, root.slots);
  }

  /** A sound node passes the checks made on every read. */
  lemma SoundIsWellKept(blocks: Blocks, root: Node, path: seq<Step>, l: int, k: nat)
    requires Sound(blocks, root) && Descends(blocks, root, path, l) && k < |path|
    ensures var node := At(blocks, root, path, k);
            WellKept(node, if k == 0 then ROOT_CAPACITY else BLOCK_CAPACITY)
            && (node.depth == 0 ==> Flat(blocks, 0, node.slots) == node.slots)
  {
    hide Forest;
    hide Mapped;
    hide Owned;
    Levels(blocks, root, path, l, k);
    var node := At(blocks, root, path, k);
    if node.depth > 0 {
      KeysAscend(blocks, node.depth, node.slots);
    }
  }

  /** What the search of a leaf reports. */
  ghost predicate LeafAnswer(leaf: seq<Slot>, i: nat, found: bool, l: int) {
    && i <= |leaf|
    && (found ==> i < |leaf| && leaf[i].Covers(l) && !leaf[i].Unwritten())
    && (!found ==> forall j :: 0 <= j < |leaf| ==> !leaf[j].Covers(l) || leaf[j].Unwritten())
    && (!found && AllWritten(leaf) ==>
          && (forall j :: 0 <= j < i ==> leaf[j].End() <= l)
          && (forall j :: i <= j < |leaf| ==> l < leaf[j].key))
  }

  lemma LeafIndex(leaf: seq<Slot>, i: nat, found: bool, l: int)
    requires LeafAnswer(leaf, i, found, l)
    ensures i <= |leaf| && (found ==> i < |leaf|)
  {
  }

  lemma DescendsFacts(blocks: Blocks, root: Node, path: seq<Step>, pblock: nat, l: int)
    requires Descends(blocks, root, path + [Step(pblock, 0)], l) && path != []
    ensures pblock != 0 && At(blocks, root, path + [Step(pblock, 0)], |path|) == Kid(blocks, pblock)
    ensures Kid(blocks, pblock).depth == root.depth - |path|
  {
    assert (path + [Step(pblock, 0)])[|path|] == Step(pblock, 0);
  }

  lemma SoundFacts(blocks: Blocks, root: Node)
    requires Sound(blocks, root)
    ensures root.depth > 0 ==> root.slots != []
    ensures root.max == ROOT_CAPACITY && |root.slots| <= root.max
  {
  }

  lemma WellKeptFacts(node: Node, capacity: nat)
    requires WellKept(node, capacity)
    ensures |node.slots| <= node.max && (node.depth > 0 ==> node.slots != [] && Ascending(node.slots))
    ensures node.depth == 0 ==> Sorted(node.slots)
  {
  }

  lemma StartPath(blocks: Blocks, root: Node, l: int)
    ensures Descends(blocks, root, [Step(0, 0)], l) && At(blocks, root, [Step(0, 0)], 0) == root
  {
  }

  /** The index found at the current node leads one level down. */
  lemma PathGrows(blocks: Blocks, root: Node, path: seq<Step>, pblock: nat, index: nat, l: int)
    requires Sound(blocks, root) && Descends(blocks, root, path + [Step(pblock, 0)], l)
    requires var node := At(blocks, root, path + [Step(pblock, 0)], |path|);
             node.depth > 0 && Chosen(node.slots, index, l) && Ascending(node.slots)
    ensures var node := At(blocks, root, path + [Step(pblock, 0)], |path|);
            var next := node.slots[index].target;
            && next in blocks
            && Descends(blocks, root, path + [Step(pblock, index)] + [Step(next, 0)], l)
            && blocks[next].slots != [] && blocks[next].slots[0].key <= l && node.slots[0].key <= l
  {
    hide Forest;
    hide Flat;
    hide Owned;
    hide Mapped;
    hide Sound;
    var probe := path + [Step(pblock, 0)];
    Levels(blocks, root, probe, l, |path|);
    var node := At(blocks, root, probe, |path|);
    CutAt(blocks, node.depth, node.slots, index);
    var next := node.slots[index].target;
    IndexFacts(blocks, node.depth - 1, node.slots[index]);
    var longer := path + [Step(pblock, index)] + [Step(next, 0)];
    forall k | 0 <= k < |longer|
      ensures (longer[k].pblock == 0 <==> k == 0) && At(blocks, root, longer, k).depth == root.depth - k
    {
      if k <= |path| {
        assert longer[k].pblock == probe[k].pblock;
        assert At(blocks, root, longer, k) == At(blocks, root, probe, k);
      }
    }
    forall k | 0 <= k < |longer| - 1
      ensures Chosen(At(blocks, root, longer, k).slots, longer[k].index, l)
              && At(blocks, root, longer, k).slots[longer[k].index].target == longer[k + 1].pblock
    {
      assert At(blocks, root, longer, k) == At(blocks, root, probe, k);
      if k < |path| {
        assert longer[k] == probe[k] && longer[k + 1].pblock == probe[k + 1].pblock;
      }
    }
  }

  lemma LastIndexFree(blocks: Blocks, root: Node, path: seq<Step>, pblock: nat, i: nat, l: int)
    requires Descends(blocks, root, path + [Step(pblock, 0)], l)
    ensures Descends(blocks, root, path + [Step(pblock, i)], l)
    ensures At(blocks, root, path + [Step(pblock, i)], |path|) == At(blocks, root, path + [Step(pblock, 0)], |path|)
  {
    var a, b := path + [Step(pblock, 0)], path + [Step(pblock, i)];
    forall k | 0 <= k < |b|
      ensures b[k].pblock == a[k].pblock && At(blocks, root, b, k) == At(blocks, root, a, k)
      ensures k < |path| ==> b[k] == a[k]
    {
    }
  }

  // ---- Back up the path --------------------------------------------------------

  /** Blocks outside `changed` are as before. */
  ghost predicate Untouched(was: Blocks, now: Blocks, changed: set<nat>) {
    forall t: nat :: t !in changed ==> (t in was <==> t in now) && (t in was ==> now[t] == was[t])
  }

  /** An insertion has reached level `k`: the node there, followed by the
      entries that did not fit, is the old node with `x` gained below it. */
  ghost predicate Progress(B0: Blocks, R0: Node, B: Blocks, R: Node, path: seq<Step>, k: nat,
                           pending: seq<Slot>, used: set<nat>, x: Slot)
    requires k < |path|
  {
    var was, now := At(B0, R0, path, k), At(B, R, path, k);
    && now.depth == was.depth && now.max == was.max
    && 0 < |now.slots| <= now.max && |pending| <= now.max
    && Forest(B, now.depth, now.slots + pending)
    && Gains(Flat(B0, was.depth, was.slots), Flat(B, now.depth, now.slots + pending), x)
    && Owned(B, now.depth, now.slots + pending) == Owned(B0, was.depth, was.slots) + used
    && used !! Owned(B0, R0.depth, R0.slots) && 0 !in used
    && Untouched(B0, B, Owned(B0, was.depth, was.slots) + used + {path[k].pblock})
    && (k > 0 ==> R == R0)
  }

  /** The extents to the left of the path end before `l`, those to the right
      start after it. */
  lemma Sides(blocks: Blocks, root: Node, path: seq<Step>, l: int, k: nat)
    requires Sound(blocks, root) && Descends(blocks, root, path, l) && k + 1 < |path|
    ensures var node := At(blocks, root, path, k);
            var i := path[k].index;
            && node.depth > 0 && i < |node.slots| && node.slots[i].target == path[k + 1].pblock
            && node.slots[i].key <= l
            && At(blocks, root, path, k + 1) == Kid(blocks, node.slots[i].target)
            && Forest(blocks, node.depth, node.slots) && Sorted(Flat(blocks, node.depth, node.slots))
            && (forall e :: e in Flat(blocks, node.depth, node.slots[..i]) ==> e.End() <= l)
            && (forall e :: e in Flat(blocks, node.depth, node.slots[i + 1..]) ==> l < e.key)
  {
    hide Flat;
    hide Owned;
    hide Forest;
    hide Mapped;
    hide Sorted;
    Levels(blocks, root, path, l, k);
    var node := At(blocks, root, path, k);
    var i := path[k].index;
    assert Chosen(node.slots, i, l);
    CutAt(blocks, node.depth, node.slots, i);
    var after := Flat(blocks, node.depth, node.slots[i + 1..]);
    if i + 1 < |node.slots| {
      FirstKey(blocks, node.depth, node.slots[i + 1..]);
      assert node.slots[i + 1..][0] == node.slots[i + 1];
      LaterThanFirst(after);
    } else {
      assert node.slots[i + 1..] == [];
      FlatNothing(blocks, node.depth);
    }
  }

  /** Entries that lead to the two halves of a node. */
  lemma TwoHalves(blocks: Blocks, depth: nat, s: Slot, kept: seq<Slot>, moved: seq<Slot>, link: seq<Slot>)
    requires Forest(blocks, depth, kept + moved)
    requires IndexEntry(blocks, depth, s) && blocks[s.target].slots == kept
             && s.target !in Owned(blocks, depth, kept + moved)
    requires moved == [] ==> link == []
    requires moved != [] ==>
               && |link| == 1 && IndexEntry(blocks, depth, link[0]) && blocks[link[0].target].slots == moved
               && link[0].target != s.target && link[0].target !in Owned(blocks, depth, kept + moved)
    ensures Forest(blocks, depth + 1, [s] + link)
    ensures Flat(blocks, depth + 1, [s] + link) == Flat(blocks, depth, kept + moved)
    ensures Owned(blocks, depth + 1, [s] + link)
            == {s.target as nat} + Targets(link) + Owned(blocks, depth, kept + moved)
  {
    hide Flat;
    hide Owned;
    hide Forest;
    Concat(blocks, depth, kept, moved);
    One(blocks, depth + 1, s);
    if moved == [] {
      assert kept + moved == kept && [s] + link == [s];
    } else {
      assert link == [link[0]];
      One(blocks, depth + 1, link[0]);
      Concat(blocks, depth + 1, [s], link);
    }
  }

  /** The children to the left and right of a changed child are as before. */
  lemma Reassemble(B0: Blocks, B1: Blocks, depth: nat, left: seq<Slot>, s: Slot, right: seq<Slot>, middle: seq<Slot>,
                   used: set<nat>)
    requires depth > 0 && Forest(B0, depth, left + [s] + right)
    requires Agree(B0, B1, Owned(B0, depth, left) + Owned(B0, depth, right))
    requires Forest(B1, depth, middle)
    requires Owned(B1, depth, middle) == Owned(B0, depth, [s]) + used
    requires used !! Owned(B0, depth, left + [s] + right)
    ensures Forest(B1, depth, left + middle + right)
    ensures Flat(B1, depth, left + middle + right)
            == Flat(B0, depth, left) + Flat(B1, depth, middle) + Flat(B0, depth, right)
    ensures Owned(B1, depth, left + middle + right) == Owned(B0, depth, left + [s] + right) + used
  {
    hide Flat;
    hide Owned;
    hide Forest;
    Concat(B0, depth, left + [s], right);
    Concat(B0, depth, left, [s]);
    Frame(B0, B1, depth, left);
    Frame(B0, B1, depth, right);
    Concat(B1, depth, left, middle);
    Concat(B1, depth, left + middle, right);
  }

  /** The blocks after the pending entries got a block of their own. */
  ghost predicate Moved(B: Blocks, B1: Blocks, depth: nat, pending: seq<Slot>, link: seq<Slot>) {
    if pending == [] then link == [] && B1 == B
    else
      && |link| == 1 && link[0].key == pending[0].key
      && B1 == B[link[0].target as nat := Node(depth, BLOCK_CAPACITY, pending)]
  }

  function Targets(link: seq<Slot>): set<nat> {
    set e | e in link :: e.target as nat
  }

  /** The child of the path at level `k`, with its new sibling if it has one. */
  lemma ChildAfter(B0: Blocks, R0: Node, B: Blocks, R: Node, B1: Blocks, path: seq<Step>, l: int, k: nat,
                   pending: seq<Slot>, link: seq<Slot>, used: set<nat>, x: Slot)
    requires Sound(B0, R0) && Descends(B0, R0, path, l) && k + 1 < |path| && x.key == l
    requires Progress(B0, R0, B, R, path, k + 1, pending, used, x)
    requires Moved(B, B1, At(B0, R0, path, k + 1).depth, pending, link)
    requires Targets(link) !! Owned(B0, R0.depth, R0.slots) + used && 0 !in Targets(link)
    ensures var was := At(B0, R0, path, k);
            var s := was.slots[path[k].index];
            var child := At(B0, R0, path, k + 1);
            && s.target == path[k + 1].pblock
            && Forest(B1, was.depth, [s] + link)
            && Gains(Flat(B0, was.depth, [s]), Flat(B1, was.depth, [s] + link), x)
            && Owned(B1, was.depth, [s] + link) == Owned(B0, was.depth, [s]) + used + Targets(link)
            && Untouched(B0, B1, Owned(B0, was.depth, [s]) + used + Targets(link))
  {
    hide Flat;
    hide Owned;
    hide Forest;
    hide Mapped;
    hide Sound;
    hide Sorted;
    Sides(B0, R0, path, l, k);
    Levels(B0, R0, path, l, k + 1);
    var was := At(B0, R0, path, k);
    var s := was.slots[path[k].index];
    var child, now := At(B0, R0, path, k + 1), At(B, R, path, k + 1);
    var d := child.depth;
    CutAt(B0, was.depth, was.slots, path[k].index);
    One(B0, was.depth, s);
    ChildEntry(B0, B, d, s, child.slots, now.slots, pending, x);
    Frame(B, B1, d, now.slots + pending);
    assert B1[s.target] == now;
    assert IndexEntry(B1, d, s);
    if pending != [] {
      assert link[0] in link && link[0].target as nat in Targets(link);
      assert IndexEntry(B1, d, link[0]);
    }
    TwoHalves(B1, d, s, now.slots, pending, link);
  }

  /** The key of the child is still right: what is gained lies behind it. */
  lemma ChildEntry(B0: Blocks, B: Blocks, depth: nat, s: Slot, was: seq<Slot>, now: seq<Slot>, pending: seq<Slot>,
                   x: Slot)
    requires Forest(B0, depth, was) && was != [] && was[0].key == s.key && s.key <= x.key
    requires Sorted(Flat(B0, depth, was))
    requires Forest(B, depth, now + pending) && now != []
    requires Gains(Flat(B0, depth, was), Flat(B, depth, now + pending), x)
    ensures now[0].key == s.key
  {
    hide Flat;
    hide Owned;
    hide Forest;
    hide Gains;
    FirstKey(B0, depth, was);
    Concat(B, depth, now, pending);
    FirstKey(B, depth, now);
    GainsKeepsFirst(Flat(B0, depth, was), Flat(B, depth, now + pending), x);
  }

  /** From level `k + 1` to level `k`: the parent takes an entry for the new
      sibling, if there is one, and may itself overflow. */
  lemma OneUp(B0: Blocks, R0: Node, B: Blocks, R: Node, B1: Blocks, B2: Blocks, R2: Node, path: seq<Step>, l: int,
              k: nat, pending: seq<Slot>, link: seq<Slot>, overflow: seq<Slot>, used: set<nat>, x: Slot)
    requires Sound(B0, R0) && Descends(B0, R0, path, l) && k + 1 < |path| && x.key == l
    requires Progress(B0, R0, B, R, path, k + 1, pending, used, x)
    requires Moved(B, B1, At(B0, R0, path, k + 1).depth, pending, link)
    requires Targets(link) !! Owned(B0, R0.depth, R0.slots) + used && 0 !in Targets(link)
    requires var was, now := At(B0, R0, path, k), At(B2, R2, path, k);
             && now.depth == was.depth && now.max == was.max
             && 0 < |now.slots| <= now.max && |overflow| <= now.max
             && path[k].index < |was.slots|
             && now.slots + overflow == was.slots[..path[k].index + 1] + link + was.slots[path[k].index + 1..]
             && (if k == 0 then B2 == B1 else R2 == R0 && B2 == B1[path[k].pblock := now])
    ensures Progress(B0, R0, B2, R2, path, k, overflow, used + Targets(link), x)
  {
    hide Flat;
    hide Owned;
    hide Forest;
    hide Mapped;
    hide Sound;
    hide Sorted;
    hide Progress;
    hide Moved;
    hide Descends;
    var was, now := At(B0, R0, path, k), At(B2, R2, path, k);
    var i := path[k].index;
    var s := was.slots[i];
    ProgressFresh(B0, R0, B, R, path, k + 1, pending, used, x);
    ChildAfter(B0, R0, B, R, B1, path, l, k, pending, link, used, x);
    Sides(B0, R0, path, l, k);
    Levels(B0, R0, path, l, k);
    CutAt(B0, was.depth, was.slots, i);
    One(B0, was.depth, s);
    assert was.slots == was.slots[..i] + [s] + was.slots[i + 1..];
    Reassemble(B0, B1, was.depth, was.slots[..i], s, was.slots[i + 1..], [s] + link, used + Targets(link));
    assert now.slots + overflow == was.slots[..i] + ([s] + link) + was.slots[i + 1..];
    GainsLifts(Flat(B0, was.depth, was.slots[..i]), Flat(B0, was.depth, [s]), Flat(B1, was.depth, [s] + link),
               Flat(B0, was.depth, was.slots[i + 1..]), x);
    Frame(B1, B2, was.depth, now.slots + overflow);
    Untouches(B0, B1, B2, Owned(B0, was.depth, [s]) + used + Targets(link),
              Owned(B0, was.depth, was.slots) + used + Targets(link), path[k].pblock);
    ProgressIntro(B0, R0, B2, R2, path, k, overflow, used + Targets(link), x);
  }

  lemma Untouches(B0: Blocks, B1: Blocks, B2: Blocks, small: set<nat>, large: set<nat>, b: nat)
    requires Untouched(B0, B1, small) && small <= large
    requires forall t: nat :: t != b ==> (t in B1 <==> t in B2) && (t in B1 ==> B2[t] == B1[t])
    ensures Untouched(B0, B2, large + {b})
  {
  }

  lemma ProgressFresh(B0: Blocks, R0: Node, B: Blocks, R: Node, path: seq<Step>, k: nat,
                      pending: seq<Slot>, used: set<nat>, x: Slot)
    requires k < |path| && Progress(B0, R0, B, R, path, k, pending, used, x)
    ensures used !! Owned(B0, R0.depth, R0.slots) && 0 !in used && (k > 0 ==> R == R0)
  {
  }

  lemma ProgressIntro(B0: Blocks, R0: Node, B: Blocks, R: Node, path: seq<Step>, k: nat,
                      pending: seq<Slot>, used: set<nat>, x: Slot)
    requires k < |path|
    requires var was, now := At(B0, R0, path, k), At(B, R, path, k);
             && now.depth == was.depth && now.max == was.max
             && 0 < |now.slots| <= now.max && |pending| <= now.max
             && Forest(B, now.depth, now.slots + pending)
             && Gains(Flat(B0, was.depth, was.slots), Flat(B, now.depth, now.slots + pending), x)
             && Owned(B, now.depth, now.slots + pending) == Owned(B0, was.depth, was.slots) + used
             && used !! Owned(B0, R0.depth, R0.slots) && 0 !in used
             && Untouched(B0, B, Owned(B0, was.depth, was.slots) + used + {path[k].pblock})
             && (k > 0 ==> R == R0)
    ensures Progress(B0, R0, B, R, path, k, pending, used, x)
  {
  }

  /** The insertion has reached the root, and nothing is left over. */
  lemma ProgressDone(B0: Blocks, R0: Node, B: Blocks, R: Node, path: seq<Step>, l: int, used: set<nat>, x: Slot)
    requires Sound(B0, R0) && Descends(B0, R0, path, l)
    requires Progress(B0, R0, B, R, path, 0, [], used, x)
    ensures Linked(B, R) && Gains(Flat(B0, R0.depth, R0.slots), Flat(B, R.depth, R.slots), x)
    ensures Owned(B, R.depth, R.slots) == Owned(B0, R0.depth, R0.slots) + used
    ensures R.depth == R0.depth
  {
    hide Flat;
    hide Owned;
    hide Forest;
    hide Gains;
    assert R.slots + [] == R.slots;
  }

  /** A root that overflows moves down into two new blocks. */
  lemma RootSplit(B0: Blocks, R0: Node, B: Blocks, R: Node, B2: Blocks, R2: Node, path: seq<Step>, l: int,
                  pending: seq<Slot>, used: set<nat>, x: Slot, left: Slot, right: Slot)
    requires Sound(B0, R0) && Descends(B0, R0, path, l)
    requires Progress(B0, R0, B, R, path, 0, pending, used, x) && pending != []
    requires left.key == R.slots[0].key && right.key == pending[0].key && left.target != right.target
    requires {left.target as nat, right.target as nat} !! Owned(B0, R0.depth, R0.slots) + used
    requires left.target != 0 && right.target != 0
    requires B2 == B[left.target as nat := Node(R.depth, BLOCK_CAPACITY, R.slots)]
                    [right.target as nat := Node(R.depth, BLOCK_CAPACITY, pending)]
    requires R2 == Node(R.depth + 1, R.max, [left, right])
    ensures Linked(B2, R2) && Gains(Flat(B0, R0.depth, R0.slots), Flat(B2, R2.depth, R2.slots), x)
    ensures Owned(B2, R2.depth, R2.slots)
            == Owned(B0, R0.depth, R0.slots) + used + {left.target as nat, right.target as nat}
  {
    hide Flat;
    hide Owned;
    hide Forest;
    hide Gains;
    Frame(B, B2, R.depth, R.slots + pending);
    TwoHalves(B2, R.depth, left, R.slots, pending, [right]);
    assert [left] + [right] == [left, right];
  }

  /** The change of a leaf is where an insertion starts. */
  lemma LeafProgress(B0: Blocks, R0: Node, B: Blocks, R: Node, path: seq<Step>, l: int, pending: seq<Slot>, x: Slot)
    requires Sound(B0, R0) && Descends(B0, R0, path, l) && |path| == R0.depth + 1 && x.key == l
    requires var k := |path| - 1;
             var was, now := At(B0, R0, path, k), At(B, R, path, k);
             && now.depth == was.depth && now.max == was.max
             && 0 < |now.slots| <= now.max && |pending| <= now.max
             && Gains(was.slots, now.slots + pending, x)
             && (if k == 0 then B == B0 else R == R0 && B == B0[path[k].pblock := now])
    ensures Progress(B0, R0, B, R, path, |path| - 1, pending, {}, x)
  {
    hide Gains;
  }

  lemma KidIs(blocks: Blocks, b: nat)
    ensures b in blocks ==> Kid(blocks, b) == blocks[b]
  {
  }

  lemma LeafGains(slots: seq<Slot>, i: nat, x: Slot)
    requires LeafAnswer(slots, i, false, x.key) && AllWritten(slots)
    ensures i <= |slots| && Gains(slots, Inserted(slots, x, i), x)
  {
    hide Gains;
    assert slots == slots[..i] + slots[i..];
    GainsByInsert(slots[..i], x, slots[i..]);
  }

  lemma InsertedCounts(slots: seq<Slot>, x: Slot, i: nat)
    requires i <= |slots|
    ensures |Inserted(slots, x, i)| == |slots| + 1
  {
  }

  lemma LeafHalved(B0: Blocks, R0: Node, B: Blocks, R: Node, path: seq<Step>, pending: seq<Slot>)
    requires path != []
    requires var k := |path| - 1;
             var was, now := At(B0, R0, path, k), At(B, R, path, k);
             && |now.slots| + |pending| == |was.slots| + 1
             && (pending != [] ==> |was.slots| == was.max && |now.slots| == SplitPoint(was.max, path[k].index))
    ensures pending != [] ==> Halved(B0, R0, B, R, path, |path| - 1, pending)
  {
  }

  /** Below the first key of a deep tree nothing is mapped. */
  lemma BelowFirst(blocks: Blocks, root: Node, l: int)
    requires Sound(blocks, root) && root.slots != [] && l < root.slots[0].key
    ensures Mapped(Flat(blocks, root.depth, root.slots), l) == None
  {
    hide Flat;
    hide Owned;
    hide Forest;
    hide Mapped;
    FirstKey(blocks, root.depth, root.slots);
    LaterThanFirst(Flat(blocks, root.depth, root.slots));
    MappedNowhere(Flat(blocks, root.depth, root.slots), l);
  }

  /** What the leaf says about `l` is what the tree says. */
  lemma LeafMeaning(blocks: Blocks, root: Node, path: seq<Step>, found: bool, l: int)
    requires Sound(blocks, root) && Descends(blocks, root, path, l) && |path| == root.depth + 1
    requires LeafAnswer(At(blocks, root, path, |path| - 1).slots, path[|path| - 1].index, found, l)
    ensures var leaf := path[|path| - 1];
            var e := At(blocks, root, path, |path| - 1).slots;
            && (leaf.pblock != 0 ==> leaf.pblock in blocks)
            && Mapped(Flat(blocks, root.depth, root.slots), l)
               == if found then Some(e[leaf.index].target + (l - e[leaf.index].key)) else None
  {
    hide Owned;
    hide Forest;
    hide Mapped;
    var k := |path| - 1;
    Levels(blocks, root, path, l, k);
    var e := At(blocks, root, path, k).slots;
    if found {
      MappedAt(e, path[k].index, l);
    } else {
      MappedNowhere(e, l);
    }
  }

  /** The parent has not been touched yet. */
  lemma ParentAsBefore(B0: Blocks, R0: Node, B: Blocks, R: Node, path: seq<Step>, l: int, k: nat,
                       pending: seq<Slot>, used: set<nat>, x: Slot)
    requires Sound(B0, R0) && Descends(B0, R0, path, l) && k + 1 < |path| && x.key == l
    requires Progress(B0, R0, B, R, path, k + 1, pending, used, x)
    ensures At(B, R, path, k) == At(B0, R0, path, k) && R == R0
    ensures path[k].pblock != 0 ==> path[k].pblock in B
    ensures var node := At(B0, R0, path, k);
            && node.depth > 0 && node.depth == At(B0, R0, path, k + 1).depth + 1
            && 2 <= node.max && 0 < |node.slots| <= node.max && path[k].index < |node.slots|
    ensures path[k].pblock != 0 ==> path[k].pblock in Owned(B0, R0.depth, R0.slots)
  {
    hide Flat;
    hide Forest;
    hide Mapped;
    hide Sorted;
    hide Gains;
    Levels(B0, R0, path, l, k);
    Levels(B0, R0, path, l, k + 1);
    Sides(B0, R0, path, l, k);
    var was := At(B0, R0, path, k);
    CutAt(B0, was.depth, was.slots, path[k].index);
  }

  /** Nothing is pending: the levels above need no change. */
  lemma {:induction false} Climb(B0: Blocks, R0: Node, B: Blocks, R: Node, path: seq<Step>, l: int, k: nat,
                                 used: set<nat>, x: Slot)
    requires Sound(B0, R0) && Descends(B0, R0, path, l) && k < |path| && x.key == l
    requires Progress(B0, R0, B, R, path, k, [], used, x)
    ensures Progress(B0, R0, B, R, path, 0, [], used, x)
    decreases k
  {
    hide Progress;
    hide Sound;
    hide Descends;
    if k > 0 {
      ParentAsBefore(B0, R0, B, R, path, l, k - 1, [], used, x);
      var was := At(B0, R0, path, k - 1);
      var i := path[k - 1].index;
      assert was.slots + [] == was.slots[..i + 1] + [] + was.slots[i + 1..];
      ProgressFresh(B0, R0, B, R, path, k, [], used, x);
      assert Targets([]) == {} && used + Targets([]) == used;
      if k - 1 > 0 {
        NotRoot(B0, R0, path, l, k - 1);
        assert B == B[path[k - 1].pblock := was];
      }
      OneUp(B0, R0, B, R, B, B, R, path, l, k - 1, [], [], [], used, x);
      Climb(B0, R0, B, R, path, l, k - 1, used, x);
    }
  }

  lemma NotRoot(B0: Blocks, R0: Node, path: seq<Step>, l: int, k: nat)
    requires Descends(B0, R0, path, l) && k < |path|
    ensures path[k].pblock == 0 <==> k == 0
    ensures At(B0, R0, path, k).depth == R0.depth - k
  {
  }

  /** The first `n` blocks that the allocator hands out. */
  function FirstOf(supply: seq<Phys>, n: nat): set<nat>
    requires n <= |supply|
  {
    set b | b in supply[..n] :: b as nat
  }

  ghost predicate Usable(supply: seq<Phys>, taken: set<nat>) {
    && (forall i :: 0 <= i < |supply| ==> supply[i] != 0 && supply[i] as nat !in taken)
    && (forall i, j :: 0 <= i < j < |supply| ==> supply[i] != supply[j])
  }

  /** The next block is neither in the tree nor among those used before. */
  lemma NextIsFresh(supply: seq<Phys>, n: nat, taken: set<nat>, key: u32)
    requires Usable(supply, taken) && n < |supply|
    ensures Targets([Slot(key, supply[n], 0)]) == {supply[n] as nat}
    ensures supply[n] as nat !in taken + FirstOf(supply, n) && supply[n] != 0
    ensures FirstOf(supply, n + 1) == FirstOf(supply, n) + {supply[n] as nat}
    ensures supply[n..][0] == supply[n] && supply[n..][1..] == supply[n + 1..]
  {
    assert supply[..n + 1] == supply[..n] + [supply[n]];
    assert forall b :: b in supply[..n + 1] <==> b in supply[..n] || b == supply[n];
    forall c: nat
      ensures c in FirstOf(supply, n + 1) <==> c in FirstOf(supply, n) || c == supply[n]
    {
    }
    assert Slot(key, supply[n], 0) in [Slot(key, supply[n], 0)];
    forall b | b in supply[..n]
      ensures b != supply[n]
    {
      var i :| 0 <= i < n && supply[..n][i] == b;
    }
  }

  lemma LeafFacts(blocks: Blocks, root: Node, path: seq<Step>, l: int)
    requires Sound(blocks, root) && Descends(blocks, root, path, l) && |path| == root.depth + 1
    ensures var k := |path| - 1;
            var leaf := At(blocks, root, path, k);
            && leaf.depth == 0 && 2 <= leaf.max && |leaf.slots| <= leaf.max
            && (path[k].pblock != 0 ==> path[k].pblock in blocks)
            && (path[k].pblock == 0 <==> k == 0)
  {
    hide Flat;
    hide Owned;
    hide Forest;
    hide Mapped;
    hide Sorted;
    Levels(blocks, root, path, l, |path| - 1);
  }

  lemma Placed(slots: seq<Slot>, link: Slot, i: nat)
    requires i < |slots|
    ensures Inserted(slots, link, i + 1) == slots[..i + 1] + [link] + slots[i + 1..]
  {
  }

  lemma AtNow(blocks: Blocks, root: Node, path: seq<Step>, k: nat)
    requires k < |path|
    ensures At(blocks, root, path, k) == if path[k].pblock == 0 then root else Kid(blocks, path[k].pblock)
  {
  }

  lemma RootFacts(B0: Blocks, R0: Node, B: Blocks, R: Node, path: seq<Step>, l: int, pending: seq<Slot>,
                  used: set<nat>, x: Slot)
    requires Descends(B0, R0, path, l) && Progress(B0, R0, B, R, path, 0, pending, used, x)
    ensures R.slots != [] && R.depth == R0.depth && R.max == R0.max
    ensures At(B0, R0, path, 0) == R0
  {
    hide Flat;
    hide Owned;
    hide Forest;
  }

  lemma Regroup(taken: set<nat>, used: set<nat>, a: Phys, b: Phys)
    ensures taken + used + {a as nat, b as nat} == taken + (used + {a as nat} + {b as nat})
  {
  }

  /** Where the entry that level `k` has to take goes. */
  function Place(path: seq<Step>, k: nat): nat
    requires k < |path|
  {
    if k == |path| - 1 then path[k].index else path[k].index + 1
  }

  /** A full node at level `k` was split: it kept its lower part, `pending` is
      the upper one. */
  ghost predicate Halved(B0: Blocks, R0: Node, B: Blocks, R: Node, path: seq<Step>, k: nat, pending: seq<Slot>)
    requires k < |path|
  {
    var was, now := At(B0, R0, path, k), At(B, R, path, k);
    && |was.slots| == was.max
    && |now.slots| == SplitPoint(was.max, Place(path, k)) && |now.slots| + |pending| == was.max + 1
  }

  /** The number of full nodes from level `k` upwards without a gap. */
  ghost function FullFrom(B0: Blocks, R0: Node, path: seq<Step>, k: nat): (n: nat)
    requires k < |path|
    ensures n <= k + 1
    ensures n > 0 <==> Full(B0, R0, path, k)
  {
    if !Full(B0, R0, path, k) then 0 else if k == 0 then 1 else 1 + FullFrom(B0, R0, path, k - 1)
  }

  /** Every node of the path is full, so the tree has to grow. */
  ghost predicate AllFull(B0: Blocks, R0: Node, path: seq<Step>)
    requires path != []
  {
    FullFrom(B0, R0, path, |path| - 1) == |path|
  }

  /** The tree blocks that a plain insertion takes: one for each node that is
      split, and one more if that includes the root. */
  ghost function BlocksNeeded(B0: Blocks, R0: Node, path: seq<Step>): nat
    requires path != []
  {
    FullFrom(B0, R0, path, |path| - 1) + (if AllFull(B0, R0, path) then 1 else 0)
  }

  /** Everything a tree must be, except for the order of its extents and its
      depth. */
  ghost predicate Linked(blocks: Blocks, root: Node) {
    && root.max == ROOT_CAPACITY && |root.slots| <= root.max
    && (root.depth > 0 ==> root.slots != [])
    && Forest(blocks, root.depth, root.slots)
  }

  lemma LinkedSound(blocks: Blocks, root: Node)
    requires Linked(blocks, root)
    ensures Sound(blocks, root) <==> root.depth <= MAX_EXTENT_DEPTH && Sorted(Flat(blocks, root.depth, root.slots))
  {
  }

  /** The node at level `k` had no room. */
  ghost predicate Full(B0: Blocks, R0: Node, path: seq<Step>, k: nat)
    requires k < |path|
  {
    |At(B0, R0, path, k).slots| == At(B0, R0, path, k).max
  }

  lemma LeafIsFull(B0: Blocks, R0: Node, path: seq<Step>, k: nat)
    requires k < |path|
    ensures Full(B0, R0, path, k) <==> |At(B0, R0, path, k).slots| == At(B0, R0, path, k).max
  {
  }

  lemma MergeSplits(slots: seq<Slot>, i: nat, x: Slot)
    requires i < |slots| && CanAppend(slots[i], x)
    ensures slots == slots[..i] + [slots[i]] + slots[i + 1..]
    ensures slots[i := Merged(slots[i], x)] == slots[..i] + [Merged(slots[i], x)] + slots[i + 1..]
  {
  }

  /** Nothing is appended by an empty extent. */
  lemma MergeIsIdle(slots: seq<Slot>, i: nat, x: Slot)
    requires i < |slots| && CanAppend(slots[i], x) && AllWritten(slots) && x.Len() == 0
    ensures slots[i := Merged(slots[i], x)] == slots
  {
    assert slots[i] in slots;
  }

  lemma SoundIsLinked(blocks: Blocks, root: Node)
    requires Sound(blocks, root)
    ensures Linked(blocks, root)
  {
  }

  /** A block that is mapped is not below the first key. */
  lemma NotBelow(blocks: Blocks, root: Node, l: int)
    requires Sound(blocks, root)
    ensures root.slots != [] && l < root.slots[0].key ==> Mapped(Flat(blocks, root.depth, root.slots), l) == None
  {
    if root.slots != [] && l < root.slots[0].key {
      BelowFirst(blocks, root, l);
    }
  }

  /** A leaf of a tree without unwritten extents has none either. */
  lemma LeafWritten(blocks: Blocks, root: Node, path: seq<Step>, l: int)
    requires Sound(blocks, root) && Descends(blocks, root, path, l) && |path| == root.depth + 1
    requires Plain(Flat(blocks, root.depth, root.slots))
    ensures AllWritten(At(blocks, root, path, |path| - 1).slots)
  {
    hide Forest;
    hide Owned;
    hide Mapped;
    hide Sorted;
    LevelWritten(blocks, root, path, l, |path| - 1);
  }

  lemma {:induction false} LevelWritten(blocks: Blocks, root: Node, path: seq<Step>, l: int, k: nat)
    requires Sound(blocks, root) && Descends(blocks, root, path, l) && k < |path|
    requires Plain(Flat(blocks, root.depth, root.slots))
    ensures Plain(Flat(blocks, At(blocks, root, path, k).depth, At(blocks, root, path, k).slots))
    decreases k
  {
    hide Forest;
    hide Owned;
    hide Flat;
    hide Mapped;
    hide Sorted;
    hide Sound;
    if k == 0 {
      NotRoot(blocks, root, path, l, 0);
    } else {
      LevelWritten(blocks, root, path, l, k - 1);
      Sides(blocks, root, path, l, k - 1);
      var node := At(blocks, root, path, k - 1);
      var i := path[k - 1].index;
      CutAt(blocks, node.depth, node.slots, i);
      var before, inside, after := Flat(blocks, node.depth, node.slots[..i]),
        Flat(blocks, node.depth - 1, Kid(blocks, node.slots[i].target).slots),
        Flat(blocks, node.depth, node.slots[i + 1..]);
      PlainConcat(before + inside, after);
      PlainConcat(before, inside);
      NotRoot(blocks, root, path, l, k - 1);
      NotRoot(blocks, root, path, l, k);
    }
  }

  lemma UsableRest(supply: seq<Phys>, taken: set<nat>)
    requires Usable(supply, taken) && supply != []
    ensures Usable(supply[1..], taken)
  {
  }

  lemma NoneUsed(supply: seq<Phys>, taken: set<nat>)
    requires Usable(supply, taken) && supply != []
    ensures FirstOf(supply[1..], 0) == {} && taken + {} == taken
    ensures supply[1..] == supply[0 + 1..] && Usable(supply[1..], taken)
  {
  }

  /** What is left in the supply is still fresh for the larger tree. */
  lemma SomeUsed(supply: seq<Phys>, taken: set<nat>, n: nat)
    requires Usable(supply, taken) && n < |supply|
    ensures supply[1..][n..] == supply[n + 1..]
    ensures Usable(supply[n + 1..], taken + FirstOf(supply[1..], n))
  {
    var rest := supply[n + 1..];
    forall i | 0 <= i < |rest|
      ensures rest[i] as nat !in FirstOf(supply[1..], n)
    {
      assert forall j :: 0 <= j < n ==> supply[1..][..n][j] == supply[1 + j];
    }
  }
}
