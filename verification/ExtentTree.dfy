/** The extent tree of one inode: lookup, and insertion of one block with
    append-merge, leaf insert, cascading splits and root split. */
module ExtentTree {
  import opened Bytes
  import opened ExtentNode
  import opened ExtentForest
  import opened ExtentPath
  import opened ExtentOutcome
  import opened ExtentAppend
  import opened ExtentTail

  /** The right-most extent. */
  datatype Tail = Tail(startL: nat, startP: nat, count: nat, unwritten: bool)

  /** What a removal took away, for the caller to free. */
  datatype Removal = Removal(startL: nat, startP: nat, count: nat, metadata: seq<nat>)

  function Set(s: seq<nat>): set<nat> {
    set b | b in s
  }

  lemma SetMore(s: seq<nat>, b: nat)
    ensures Set(s + [b]) == Set(s) + {b}
    ensures NoDuplicates(s) && b !in Set(s) ==> NoDuplicates(s + [b])
  {
    assert forall c :: c in s + [b] <==> c in s || c == b;
  }

  lemma BufCounts(buf: NodeBuf, node: Node)
    requires buf.Valid() && buf.Entries() == node.slots
    ensures buf.count == |node.slots|
  {
  }

  class ExtentTree {
    var root: Node               // in the inode
    var blocks: Blocks           // every other node
    var supply: seq<Phys>        // what the allocator will hand out, in order
    const reliable: bool         // no write fails
    var faults: nat              // writes that have failed

    ghost predicate WellFormed()
      reads this
    {
      Sound(blocks, root)
    }

    ghost function Extents(): seq<Slot>
      reads this
    {
      Flat(blocks, root.depth, root.slots)
    }

    ghost function TreeBlocks(): set<nat>
      reads this
    {
      Owned(blocks, root.depth, root.slots)
    }

    /** Blocks from the allocator are nobody's yet. */
    ghost predicate FreshSupply()
      reads this
    {
      Usable(supply, TreeBlocks())
    }

    constructor (root: Node, blocks: Blocks, supply: seq<Phys>, reliable: bool)
      ensures this.root == root && this.blocks == blocks && this.supply == supply && this.reliable == reliable
      ensures faults == 0
    {
      this.root := root;
      this.blocks := blocks;
      this.supply := supply;
      this.reliable := reliable;
      faults := 0;
    }

    method Io() returns (ok: bool)
      modifies this`faults
      ensures if ok then faults == old(faults) else faults > old(faults)
      ensures reliable ==> ok
    {
      ok := *;
      ok := ok || reliable;
      if !ok {
        faults := faults + 1;
      }
    }

    /** Write one node, or the root with its inode.  After an error it may be
        there all the same. */
    method WriteNode(pblock: nat, image: Node) returns (ok: bool, ghost landed: bool)
      modifies this`root, this`blocks, this`faults
      ensures if ok then faults == old(faults) else faults > old(faults)
      ensures (reliable ==> ok) && (ok ==> landed)
      ensures root == if pblock == 0 && landed then image else old(root)
      ensures blocks == if pblock != 0 && landed then old(blocks)[pblock := image] else old(blocks)
    {
      ok := Io();
      var there := *;
      landed := ok || there;
      if ok || there {
        if pblock == 0 {
          root := image;
        } else {
          blocks := blocks[pblock := image];
        }
      }
    }

    /** Follow the index entries for `l` down to a leaf, checking each node. */
    method Descend(l: u32) returns (r: Result<(seq<Step>, nat, Node)>)
      requires WellFormed()
      ensures r.Ok? <==> root.depth == 0 || root.slots[0].key <= l
      ensures r.Err? ==> r.code == EIO
      ensures r.Ok? ==>
                var (path, pblock, leaf) := r.value;
                && Descends(blocks, root, path + [Step(pblock, 0)], l) && |path| == root.depth
                && leaf == At(blocks, root, path + [Step(pblock, 0)], |path|)
                && |leaf.slots| <= leaf.max && Sorted(leaf.slots)
    {
      hide Forest;
      hide Flat;
      hide Owned;
      hide Mapped;
      hide Sound;
      hide WellKept;
      hide Descends;
      hide At;
      hide Ascending;
      hide Sorted;
      var path: seq<Step> := [];
      var node := root;
      var pblock: nat := 0;
      SoundFacts(blocks, root);
      StartPath(blocks, root, l);
      SoundIsWellKept(blocks, root, [Step(0, 0)], l, 0);
      var ok := Validate(node, ROOT_CAPACITY);
      assert path + [Step(pblock, 0)] == [Step(0, 0)];
      while node.depth > 0
        invariant Descends(blocks, root, path + [Step(pblock, 0)], l)
        invariant node == At(blocks, root, path + [Step(pblock, 0)], |path|)
        invariant node.depth == root.depth - |path|
        invariant WellKept(node, if path == [] then ROOT_CAPACITY else BLOCK_CAPACITY)
        invariant path == [] ==> node == root
        invariant path != [] ==> node.slots != [] && node.slots[0].key <= l && root.slots[0].key <= l
        decreases node.depth
      {
        WellKeptFacts(node, if path == [] then ROOT_CAPACITY else BLOCK_CAPACITY);
        var buf := new NodeBuf.Load(node);
        var index := buf.SearchIndex(l);
        if index.None? {
          return Err(EIO);
        }
        PathGrows(blocks, root, path, pblock, index.value, l);
        path := path + [Step(pblock, index.value)];
        pblock := node.slots[index.value].target;
        node := blocks[pblock];
        SoundIsWellKept(blocks, root, path + [Step(pblock, 0)], l, |path|);
        DescendsFacts(blocks, root, path, pblock, l);
        ok := Validate(node, BLOCK_CAPACITY);
      }
      WellKeptFacts(node, if path == [] then ROOT_CAPACITY else BLOCK_CAPACITY);
      return Ok((path, pblock, node));
    }

    /** Walk from the root to the leaf for `l`. */
    method FindExtent(l: u32) returns (r: Result<(seq<Step>, bool)>)
      requires WellFormed()
      ensures r.Ok? <==> root.depth == 0 || root.slots[0].key <= l
      ensures r.Err? ==> r.code == EIO
      ensures r.Ok? ==>
                var (path, found) := r.value;
                && Descends(blocks, root, path, l) && |path| == root.depth + 1
                && LeafAnswer(At(blocks, root, path, |path| - 1).slots, path[|path| - 1].index, found, l)
    {
      hide Forest;
      hide Flat;
      hide Owned;
      hide Mapped;
      hide Sound;
      hide Descends;
      hide At;
      var down := Descend(l);
      if down.Err? {
        return Err(EIO);
      }
      var (path, pblock, node) := down.value;
      var leaf := new NodeBuf.Load(node);
      var found, i := leaf.SearchExtent(l);
      assert forall k :: 0 <= k < |node.slots| ==> leaf.slots[k] == node.slots[k] by {
        assert leaf.Entries() == node.slots;
      }
      LastIndexFree(blocks, root, path, pblock, i, l);
      return Ok((path + [Step(pblock, i)], found));
    }

    /** The physical block behind `l`. */
    method Query(l: u32) returns (r: Result<nat>)
      requires WellFormed()
      ensures r == if Mapped(Extents(), l).Some? then Ok(Mapped(Extents(), l).value)
                   else if root.depth > 0 && l < root.slots[0].key then Err(EIO)
                   else Err(ENOENT)
    {
      hide Forest;
      hide Flat;
      hide Owned;
      hide Mapped;
      hide Sound;
      hide Descends;
      hide LevelSound;
      SoundFacts(blocks, root);
      var search := FindExtent(l);
      if search.Err? {
        BelowFirst(blocks, root, l);
        return Err(EIO);
      }
      var (path, found) := search.value;
      LeafMeaning(blocks, root, path, found, l);
      if !found {
        return Err(ENOENT);
      }
      var leaf := path[|path| - 1];
      var node := if leaf.pblock != 0 then blocks[leaf.pblock] else root;
      var e := node.slots[leaf.index];
      return Ok(e.target + (l - e.key));
    }

    method Alloc() returns (r: Result<Phys>)
      modifies this`supply
      ensures r.Ok? <==> old(supply) != []
      ensures r.Ok? ==> r.value == old(supply)[0] && supply == old(supply)[1..]
      ensures r.Err? ==> r.code == ENOSPC && supply == old(supply)
    {
      if supply == [] {
        return Err(ENOSPC);
      }
      var b := supply[0];
      supply := supply[1..];
      return Ok(b);
    }

    /** Move the pending entries of a child into a block of their own and link
        it from the parent, right behind the child.  `whole` and `top` are the
        nodes and the root when all is written; if a write fails, nothing is
        there, or all, or the parent without the new block. */
    method Split(parent: Step, pending: seq<Slot>)
      returns (r: Result<seq<Slot>>, ghost whole: Blocks, ghost top: Node, ghost overflow: seq<Slot>)
      requires parent.pblock != 0 ==> parent.pblock in blocks
      requires supply != [] ==> parent.pblock != supply[0] as nat && supply[0] != 0
      requires var node := if parent.pblock == 0 then root else Kid(blocks, parent.pblock);
               node.depth > 0 && 2 <= node.max && |node.slots| <= node.max && parent.index < |node.slots|
      requires pending != []
      modifies this
      ensures faults >= old(faults) && (reliable ==> faults == old(faults))
      ensures r.Ok? <==> old(supply) != [] && faults == old(faults)
      ensures old(supply) == [] ==>
                r == Err(ENOSPC) && root == old(root) && blocks == old(blocks) && supply == old(supply)
                && faults == old(faults)
      ensures old(supply) != [] ==>
                var was := old(if parent.pblock == 0 then root else Kid(blocks, parent.pblock));
                var now := if parent.pblock == 0 then top else Kid(whole, parent.pblock);
                var link := Slot(pending[0].key, old(supply)[0], 0);
                var right := Node(was.depth - 1, BLOCK_CAPACITY, pending);
                && supply == old(supply)[1..]
                && now.depth == was.depth && now.max == was.max && 0 < |now.slots| <= now.max && |overflow| <= now.max
                && now.slots + overflow == Inserted(was.slots, link, parent.index + 1)
                && (overflow != [] <==> |was.slots| == was.max)
                && (overflow != [] ==> |now.slots| == SplitPoint(was.max, parent.index + 1))
                && (parent.pblock == 0 ==> whole == old(blocks)[link.target as nat := right])
                && (parent.pblock != 0 ==>
                      top == old(root) && whole == old(blocks)[link.target as nat := right][parent.pblock := now])
                && (r.Ok? ==> blocks == whole && root == top && r.value == overflow)
                && (r.Err? ==>
                      && r.code == EIO
                      && (|| (blocks == old(blocks) && root == old(root))
                          || (blocks == whole && root == top)
                          || (root == top && whole == blocks[link.target as nat := right])))
    {
      whole, top, overflow := blocks, root, [];
      var right := Alloc();
      if right.Err? {
        return Err(right.code), whole, top, overflow;
      }
      var link := Slot(pending[0].key, right.value, 0);
      var node := if parent.pblock == 0 then root else blocks[parent.pblock];
      var buf := new NodeBuf.Load(node);
      var split := buf.Insert(link, parent.index + 1);
      var image := buf.Image();
      var rest := if split.Some? then split.value else [];
      var added := Node(node.depth - 1, BLOCK_CAPACITY, pending);
      overflow := rest;
      whole := blocks[right.value as nat := added];
      if parent.pblock == 0 {
        top := image;
      } else {
        whole := whole[parent.pblock := image];
      }
      var ok;
      ghost var landed;
      ok, landed := WriteNode(parent.pblock, image);
      if !ok {
        assert landed ==> whole == blocks[right.value as nat := added];
        return Err(EIO), whole, top, overflow;
      }
      assert whole == blocks[right.value as nat := added];
      ok, landed := WriteNode(right.value as nat, added);
      if !ok {
        return Err(EIO), whole, top, overflow;
      }
      return Ok(rest), whole, top, overflow;
    }

    /** Move both halves of the root into new blocks; the tree grows by one
        level.  The root is written last. */
    method SplitRoot(pending: seq<Slot>) returns (r: Result<()>)
      requires root.slots != [] && pending != [] && forall b :: b in supply ==> b != 0
      modifies this
      ensures faults >= old(faults) && (reliable ==> faults == old(faults))
      ensures r.Ok? <==> |old(supply)| >= 2 && faults == old(faults)
      ensures |old(supply)| < 2 ==>
                r == Err(ENOSPC) && root == old(root) && blocks == old(blocks) && supply == [] && faults == old(faults)
      ensures |old(supply)| >= 2 ==>
                var l, m := old(supply)[0], old(supply)[1];
                var left := Node(old(root).depth, BLOCK_CAPACITY, old(root).slots);
                var right := Node(old(root).depth, BLOCK_CAPACITY, pending);
                var top := Node(old(root).depth + 1, old(root).max,
                                [Slot(old(root).slots[0].key, l, 0), Slot(pending[0].key, m, 0)]);
                && supply == old(supply)[2..]
                && (root == top ==> blocks == old(blocks)[l as nat := left][m as nat := right])
                && (r.Ok? ==> root == top)
                && (r.Err? ==>
                      && r.code == EIO && (root == top || root == old(root))
                      && (root == old(root) ==>
                            || blocks == old(blocks) || blocks == old(blocks)[l as nat := left]
                            || blocks == old(blocks)[l as nat := left][m as nat := right]))
    {
      var left := Alloc();
      if left.Err? {
        return Err(left.code);
      }
      assert left.value in old(supply);
      var right := Alloc();
      if right.Err? {
        return Err(right.code);
      }
      assert right.value == old(supply)[1] && right.value in old(supply);
      var ok;
      ghost var landed;
      ok, landed := WriteNode(left.value as nat, Node(root.depth, BLOCK_CAPACITY, root.slots));
      if !ok {
        return Err(EIO);
      }
      ok, landed := WriteNode(right.value as nat, Node(root.depth, BLOCK_CAPACITY, pending));
      if !ok {
        return Err(EIO);
      }
      ok, landed := WriteNode(0, Node(root.depth + 1, root.max,
                                      [Slot(root.slots[0].key, left.value, 0), Slot(pending[0].key, right.value, 0)]));
      if !ok {
        return Err(EIO);
      }
      return Ok(());
    }

    /** Put `x` into the leaf at the end of the path. */
    method InsertInLeaf(path: seq<Step>, x: Slot) returns (ok: bool, pending: seq<Slot>, ghost landed: bool)
      requires WellFormed() && Descends(blocks, root, path, x.key) && |path| == root.depth + 1
      requires LeafAnswer(At(blocks, root, path, |path| - 1).slots, path[|path| - 1].index, false, x.key)
      requires AllWritten(At(blocks, root, path, |path| - 1).slots)
      modifies this`root, this`blocks, this`faults
      ensures if ok then faults == old(faults) else faults > old(faults)
      ensures (reliable ==> ok) && (ok ==> landed)
      ensures !landed ==> blocks == old(blocks) && root == old(root)
      ensures landed ==> Progress(old(blocks), old(root), blocks, root, path, |path| - 1, pending, {}, x)
      ensures pending != [] <==>
                old(|At(blocks, root, path, |path| - 1).slots| == At(blocks, root, path, |path| - 1).max)
      ensures landed && pending != [] ==> Halved(old(blocks), old(root), blocks, root, path, |path| - 1, pending)
    {
      hide Forest;
      hide Flat;
      hide Owned;
      hide Progress;
      hide Gains;
      hide Sound;
      hide Descends;
      hide At;
      hide Sorted;
      hide LeafAnswer;
      hide AllWritten;
      hide Inserted;
      hide SplitPoint;
      hide Halved;
      hide Kid;
      ghost var B0, R0 := blocks, root;
      var leaf := path[|path| - 1];
      LeafFacts(blocks, root, path, x.key);
      AtNow(blocks, root, path, |path| - 1);
      var node := if leaf.pblock == 0 then root else blocks[leaf.pblock];
      KidIs(blocks, leaf.pblock);
      LeafGains(node.slots, leaf.index, x);
      var buf := new NodeBuf.Load(node);
      BufCounts(buf, node);
      var split := buf.Insert(x, leaf.index);
      var image := buf.Image();
      pending := if split.Some? then split.value else [];
      InsertedCounts(node.slots, x, leaf.index);
      assert image.slots + pending == Inserted(node.slots, x, leaf.index);
      ok, landed := WriteNode(leaf.pblock, image);
      if landed {
        KidIs(blocks, leaf.pblock);
        AtNow(blocks, root, path, |path| - 1);
        LeafProgress(B0, R0, blocks, root, path, x.key, pending, x);
        LeafHalved(B0, R0, blocks, root, path, pending);
      }
    }

    /** Insert a new extent, splitting nodes up the path as far as needed.  If
        the allocator runs dry on the way, the upper part of the node that was
        split last is lost with everything below it.  `rest` tells what a failed
        write leaves. */
    method Insert(path: seq<Step>, x: Slot)
      returns (r: Result<()>, ghost level: nat, ghost pending: seq<Slot>, ghost rest: Rest)
      requires WellFormed() && FreshSupply()
      requires Descends(blocks, root, path, x.key) && |path| == root.depth + 1
      requires LeafAnswer(At(blocks, root, path, |path| - 1).slots, path[|path| - 1].index, false, x.key)
      requires AllWritten(At(blocks, root, path, |path| - 1).slots)
      modifies this
      ensures |supply| <= |old(supply)| && supply == old(supply)[|old(supply)| - |supply|..]
      ensures faults >= old(faults) && (reliable ==> faults == old(faults))
      ensures r.Ok? <==> faults == old(faults) && |old(supply)| >= old(BlocksNeeded(blocks, root, path))
      ensures r.Ok? ==>
                && Linked(blocks, root) && Gains(old(Extents()), Extents(), x)
                && TreeBlocks() == old(TreeBlocks()) + FirstOf(old(supply), |old(supply)| - |supply|)
                && root.depth == old(root.depth) + (if old(AllFull(blocks, root, path)) then 1 else 0)
                && |old(supply)| - |supply| == old(BlocksNeeded(blocks, root, path))
      ensures r.Err? && faults == old(faults) ==> r.code == ENOSPC && supply == [] && level < |path|
      ensures r.Err? && faults == old(faults) ==>
                StoppedAt(old(blocks), old(root), blocks, root, old(supply), path, level, pending, x)
      ensures r.Err? && faults == old(faults) ==>
                && Linked(blocks, root) && root.depth == old(root.depth)
                && Tears(old(Extents()), Extents(), x, Flat(blocks, At(blocks, root, path, level).depth, pending))
                && |Flat(blocks, At(blocks, root, path, level).depth, pending)| >= 2
                && TreeBlocks() <= old(TreeBlocks()) + FirstOf(old(supply), |old(supply)|)
      ensures faults > old(faults) ==> r == Err(EIO) && Left(old(blocks), old(root), blocks, root, x, rest)
    {
      hide Forest;
      hide Flat;
      hide Owned;
      hide Progress;
      hide Gains;
      hide Sound;
      hide Descends;
      hide At;
      hide Usable;
      hide LeafAnswer;
      hide Halved;
      hide Full;
      hide FullFrom;
      hide Tears;
      hide Linked;
      hide StoppedAt;
      hide Left;
      ghost var B0, R0, s0 := blocks, root, supply;
      ghost var n: nat := 0;
      var k := |path| - 1;
      level, pending, rest := k, [], Same;
      SameLeft(B0, R0, x);
      var ok, upper;
      ghost var landed;
      ok, upper, landed := InsertInLeaf(path, x);
      assert s0[0..] == s0 && FirstOf(s0, 0) == {};
      if !ok {
        if landed {
          ghost var lost := StepLeaves(B0, R0, blocks, root, path, k, upper, {}, x);
          rest := Stays(None, lost);
        }
        return Err(EIO), level, pending, rest;
      }
      LeafIsFull(B0, R0, path, k);
      while upper != [] && k > 0
        invariant 0 <= k < |path| && n == |path| - 1 - k && n <= |s0| && supply == s0[n..]
        invariant Progress(B0, R0, blocks, root, path, k, upper, FirstOf(s0, n), x)
        invariant upper != [] <==> Full(B0, R0, path, k)
        invariant upper != [] ==> Halved(B0, R0, blocks, root, path, k, upper)
        invariant FullFrom(B0, R0, path, |path| - 1) == n + FullFrom(B0, R0, path, k)
        invariant faults == old(faults)
        decreases k
      {
        OneMoreFull(B0, R0, path, k);
        ghost var B, R := blocks, root;
        var split;
        split, rest := SplitUp(path, k - 1, upper, x, B0, R0, s0, n);
        if split.Err? {
          if faults == old(faults) {
            level, pending := k, upper;
            assert s0[n..] == [] && s0[..n] == s0;
            StoppedTree(B0, R0, B, R, s0, path, k, upper, x, n);
          }
          return Err(split.code), level, pending, rest;
        }
        k := k - 1;
        n, upper := n + 1, split.value;
      }
      NoneFull(B0, R0, path, k);
      if upper != [] {
        level, pending := 0, upper;
        ghost var B, R := blocks, root;
        r, rest := GrowRoot(path, upper, x, B0, R0, s0, n);
        if r.Err? && faults == old(faults) {
          StoppedTree(B0, R0, B, R, s0, path, 0, upper, x, n);
        }
        return;
      }
      Climb(B0, R0, blocks, root, path, x.key, k, FirstOf(s0, n), x);
      ProgressDone(B0, R0, blocks, root, path, x.key, FirstOf(s0, n), x);
      return Ok(()), level, pending, rest;
    }

    /** Hand what a child could not keep to its parent at level `k`. */
    method SplitUp(path: seq<Step>, k: nat, pending: seq<Slot>, ghost x: Slot,
                   ghost B0: Blocks, ghost R0: Node, ghost s0: seq<Phys>, ghost n: nat)
      returns (r: Result<seq<Slot>>, ghost rest: Rest)
      requires Sound(B0, R0) && Descends(B0, R0, path, x.key) && k + 1 < |path| && pending != []
      requires n <= |s0| && supply == s0[n..] && Usable(s0, Owned(B0, R0.depth, R0.slots))
      requires Progress(B0, R0, blocks, root, path, k + 1, pending, FirstOf(s0, n), x)
      requires Halved(B0, R0, blocks, root, path, k + 1, pending)
      modifies this
      ensures faults >= old(faults) && (reliable ==> faults == old(faults))
      ensures r.Ok? <==> n < |s0| && faults == old(faults)
      ensures n == |s0| ==>
                r == Err(ENOSPC) && supply == s0[n..] && blocks == old(blocks) && root == old(root)
                && faults == old(faults)
      ensures n < |s0| ==> supply == s0[n + 1..]
      ensures r.Ok? ==>
                && Progress(B0, R0, blocks, root, path, k, r.value, FirstOf(s0, n + 1), x)
                && (r.value != [] <==> Full(B0, R0, path, k))
                && (r.value != [] ==> Halved(B0, R0, blocks, root, path, k, r.value))
      ensures faults > old(faults) ==> r == Err(EIO) && Left(B0, R0, blocks, root, x, rest)
    {
      hide Forest;
      hide Flat;
      hide Owned;
      hide Progress;
      hide Gains;
      hide Sound;
      hide Descends;
      hide At;
      hide Usable;
      hide FirstOf;
      hide Left;
      ghost var B, R := blocks, root;
      rest := Same;
      AtNow(B, R, path, k);
      ParentAsBefore(B0, R0, B, R, path, x.key, k, pending, FirstOf(s0, n), x);
      ProgressFresh(B0, R0, B, R, path, k + 1, pending, FirstOf(s0, n), x);
      if n < |s0| {
        NextIsFresh(s0, n, Owned(B0, R0.depth, R0.slots), pending[0].key);
      }
      ghost var whole, top, overflow;
      r, whole, top, overflow := this.Split(path[k], pending);
      if n < |s0| {
        ghost var link := [Slot(pending[0].key, s0[n], 0)];
        Placed(At(B0, R0, path, k).slots, link[0], path[k].index);
        ghost var B1 := B[s0[n] as nat := Node(At(B0, R0, path, k + 1).depth, BLOCK_CAPACITY, pending)];
        NotRoot(B0, R0, path, x.key, k);
        AtNow(whole, top, path, k);
        OneUp(B0, R0, B, R, B1, whole, top, path, x.key, k, pending, link, overflow, FirstOf(s0, n), x);
        if r.Err? {
          ghost var lost := StepLeaves(B0, R0, B, R, path, k + 1, pending, FirstOf(s0, n), x);
          ghost var later := StepLeaves(B0, R0, whole, top, path, k, overflow, FirstOf(s0, n + 1), x);
          if blocks == B && root == R {
            rest := Stays(None, lost);
          } else if blocks == whole && root == top {
            rest := Stays(None, later);
          } else {
            rest := LooseEnd(B0, R0, blocks, top, whole, s0[n] as nat,
                             Node(At(B0, R0, path, k).depth - 1, BLOCK_CAPACITY, pending), x, later);
          }
        }
      }
    }

    /** The root overflows. */
    method GrowRoot(path: seq<Step>, pending: seq<Slot>, ghost x: Slot,
                    ghost B0: Blocks, ghost R0: Node, ghost s0: seq<Phys>, ghost n: nat)
      returns (r: Result<()>, ghost rest: Rest)
      requires Sound(B0, R0) && Descends(B0, R0, path, x.key)
      requires n <= |s0| && supply == s0[n..]
      requires Usable(s0, Owned(B0, R0.depth, R0.slots))
      requires Progress(B0, R0, blocks, root, path, 0, pending, FirstOf(s0, n), x) && pending != []
      requires Halved(B0, R0, blocks, root, path, 0, pending)
      modifies this
      ensures |supply| <= |s0| && supply == s0[|s0| - |supply|..]
      ensures faults >= old(faults) && (reliable ==> faults == old(faults))
      ensures r.Ok? <==> |s0| - n >= 2 && faults == old(faults)
      ensures |s0| - n < 2 ==>
                r == Err(ENOSPC) && supply == [] && blocks == old(blocks) && root == old(root) && faults == old(faults)
      ensures r.Ok? ==>
                && Linked(blocks, root) && Gains(Flat(B0, R0.depth, R0.slots), Extents(), x)
                && root.depth == R0.depth + 1 && |s0| - |supply| == n + 2
                && TreeBlocks() == Owned(B0, R0.depth, R0.slots) + FirstOf(s0, |s0| - |supply|)
      ensures faults > old(faults) ==> r == Err(EIO) && Left(B0, R0, blocks, root, x, rest)
    {
      hide Forest;
      hide Flat;
      hide Owned;
      hide Progress;
      hide Gains;
      hide Sound;
      hide Descends;
      hide Plain;
      hide Usable;
      hide FirstOf;
      hide Left;
      hide Linked;
      ghost var B, R := blocks, root;
      rest := Same;
      assert |s0[n..]| == |s0| - n && s0[|s0|..] == [];
      RootFacts(B0, R0, blocks, root, path, x.key, pending, FirstOf(s0, n), x);
      NoneIsRoot(s0, n, Owned(B0, R0.depth, R0.slots));
      r := SplitRoot(pending);
      if n + 1 < |s0| {
        NextIsFresh(s0, n, Owned(B0, R0.depth, R0.slots), R.slots[0].key);
        NextIsFresh(s0, n + 1, Owned(B0, R0.depth, R0.slots), pending[0].key);
        ghost var l, m := Slot(R.slots[0].key, s0[n], 0), Slot(pending[0].key, s0[n + 1], 0);
        if root != R || r.Ok? {
          RootSplit(B0, R0, B, R, blocks, root, path, x.key, pending, FirstOf(s0, n), x, l, m);
          Regroup(Owned(B0, R0.depth, R0.slots), FirstOf(s0, n), s0[n], s0[n + 1]);
          DoneLeft(B0, R0, blocks, root, x);
          rest := Stays(None, []);
        } else {
          RootFirst(B0, R0, path, x.key);
          ghost var lost := StepLeaves(B0, R0, B, R, path, 0, pending, FirstOf(s0, n), x);
          RootOwns(B0, R0, B, R, path, pending, FirstOf(s0, n), x);
          UnlinkedLeft(B0, R0, B, blocks, R, x, lost);
          rest := Stays(None, lost);
        }
      }
    }

    /** Lengthen the extent in front of position `path.last.index` by that of
        the new block. */
    method MergeInLeaf(path: seq<Step>, x: Slot) returns (ok: bool, ghost landed: bool)
      requires WellFormed()
      requires Descends(blocks, root, path, x.key) && |path| == root.depth + 1
      requires LeafAnswer(At(blocks, root, path, |path| - 1).slots, path[|path| - 1].index, false, x.key)
      requires AllWritten(At(blocks, root, path, |path| - 1).slots)
      requires Merges(At(blocks, root, path, |path| - 1).slots, path[|path| - 1].index, x)
      modifies this`root, this`blocks, this`faults
      ensures if ok then faults == old(faults) else faults > old(faults)
      ensures (reliable ==> ok) && (ok ==> landed)
      ensures !landed ==> root == old(root) && blocks == old(blocks)
      ensures Linked(blocks, root) && TreeBlocks() == old(TreeBlocks()) && root.depth == old(root.depth)
      ensures landed && x.Len() > 0 ==> Gains(old(Extents()), Extents(), x)
      ensures |Extents()| == |old(Extents())|
      ensures x.Len() == 0 ==> root == old(root) && blocks == old(blocks)
    {
      hide Forest;
      hide Flat;
      hide Owned;
      hide Progress;
      hide Gains;
      hide Sound;
      hide Descends;
      hide CanAppend;
      ghost var B0, R0 := blocks, root;
      var leaf := path[|path| - 1];
      LeafFacts(blocks, root, path, x.key);
      var node := if leaf.pblock == 0 then root else blocks[leaf.pblock];
      var prev := leaf.index - 1;
      var image := node.(slots := node.slots[prev := Merged(node.slots[prev], x)]);
      ok, landed := WriteNode(leaf.pblock, image);
      if !landed {
        SoundIsLinked(B0, R0);
      } else if x.Len() == 0 {
        MergeIsIdle(node.slots, prev, x);
        assert image == node && blocks == B0 && root == R0;
        SoundIsLinked(B0, R0);
      } else {
        MergeSplits(node.slots, prev, x);
        GainsByMerge(node.slots[..prev], node.slots[prev], x, node.slots[leaf.index..]);
        assert image.slots + [] == image.slots;
        LeafProgress(B0, R0, blocks, root, path, x.key, [], x);
        Climb(B0, R0, blocks, root, path, x.key, |path| - 1, {}, x);
        ProgressDone(B0, R0, blocks, root, path, x.key, {}, x);
      }
      if landed {
        SoundIsLinked(B0, R0);
        SameExtentCount(B0, R0, blocks, root, leaf.pblock, image);
      }
    }

    /** Fill the hole at the end of the path: the data goes out before the
        extent, which continues the one in front of it or gets an entry of its
        own. */
    method Create(path: seq<Step>, l: u32) returns (r: Result<nat>, ghost trail: Trail)
      requires WellFormed() && Plain(Extents()) && FreshSupply()
      requires LeadsTo(blocks, root, path, l) && AllWritten(At(blocks, root, path, |path| - 1).slots)
      modifies this
      ensures trail.path == path && faults >= old(faults) && (reliable ==> faults == old(faults))
      ensures r.Ok? <==> faults == old(faults)
                         && |old(supply)| >= Cost(old(blocks), old(root), old(supply), path, l)
      ensures r.Err? ==> r.code == if faults == old(faults) then ENOSPC else EIO
      ensures r.Ok? ==>
                && old(supply) != [] && r.value == old(supply)[0]
                && Created(old(blocks), old(root), old(supply), path, l, blocks, root, supply)
      ensures r.Ok? && l < MAX_BLOCKS && old(Mapped(Extents(), l)) == None ==>
                Appended(old(Extents()), Extents(), l, old(supply)[0])
      ensures old(supply) == [] ==>
                root == old(root) && blocks == old(blocks) && supply == old(supply) && faults == old(faults)
      ensures faults > old(faults) ==>
                && Left(old(blocks), old(root), blocks, root, NewExtent(l, old(supply)[0]), trail.rest)
                && (l < MAX_BLOCKS && trail.rest.Stays? ==>
                      MapsBut(old(Extents()), Flat(Mended(blocks, trail.rest), root.depth, root.slots), l,
                              old(supply)[0], trail.rest.lost))
      ensures r.Err? && old(supply) != [] && faults == old(faults) ==>
                RanDry(old(blocks), old(root), old(supply), blocks, root, supply, l, trail)
    {
      hide Forest;
      hide Flat;
      hide Owned;
      hide Gains;
      hide Plain;
      hide Sound;
      hide Descends;
      hide CanAppend;
      hide Mapped;
      hide Usable;
      hide FirstOf;
      hide LevelSound;
      hide BlocksNeeded;
      hide AllFull;
      hide Linked;
      hide Tears;
      hide StoppedAt;
      hide CoveredBy;
      hide Created;
      hide LeafAnswer;
      hide Left;
      hide MapsBut;
      hide Mended;
      hide RanDry;
      ghost var was, s0, taken, B0, R0 := Extents(), supply, TreeBlocks(), blocks, root;
      trail := Trail(path, 0, [], [], Same);
      LeafFacts(blocks, root, path, l);
      LeafIndex(At(blocks, root, path, |path| - 1).slots, path[|path| - 1].index, false, l);
      var leaf := path[|path| - 1];
      var node := if leaf.pblock != 0 then blocks[leaf.pblock] else root;
      var data := Alloc();
      if data.Err? {
        return Err(data.code), trail;
      }
      var x := NewExtent(l, data.value);
      SameLeft(B0, R0, x);
      var ok := Io();
      if !ok {
        return Err(EIO), trail;
      }
      UsableRest(s0, taken);
      if leaf.index > 0 && CanAppend(node.slots[leaf.index - 1], x) {
        ghost var landed;
        ok, landed := MergeInLeaf(path, x);
        if !ok {
          if landed && x.Len() > 0 {
            DoneLeft(B0, R0, blocks, root, x);
            trail := Trail(path, 0, [], [], Stays(None, []));
            AfterFault(B0, R0, blocks, root, l, data.value, trail.rest);
          }
          return Err(EIO), trail;
        }
        NoneUsed(s0, taken);
        CreatedByMerge(B0, R0, blocks, root, supply, s0, path, l);
        CreatedGains(B0, R0, s0, path, l, blocks, root, supply);
        if l < MAX_BLOCKS {
          GainIsAppend(was, Extents(), l, data.value);
        }
        return Ok(data.value), trail;
      }
      ghost var level, pending, rest;
      var inserted;
      inserted, level, pending, rest := Insert(path, x);
      if inserted.Err? {
        if faults > old(faults) {
          trail := Trail(path, 0, [], [], rest);
          AfterFault(B0, R0, blocks, root, l, data.value, rest);
        } else {
          trail := Trail(path, level, pending, Flat(blocks, At(blocks, root, path, level).depth, pending), Same);
          LostWhenDry(B0, R0, s0, blocks, root, supply, l, trail);
        }
        return Err(inserted.code), trail;
      }
      CreatedByInsert(B0, R0, blocks, root, supply, s0, path, l);
      CreatedGains(B0, R0, s0, path, l, blocks, root, supply);
      if l < MAX_BLOCKS && Mapped(was, l) == None {
        MergesIff(B0, R0, s0, path, l);
        GainIsAppend(was, Extents(), l, data.value);
      }
      return Ok(data.value), trail;
    }

    /** Map `l` to a new block unless it is mapped already.  For a hole, `trail`
        tells which nodes were visited, where the insertion ended, and what is
        left if a write failed: of the data, of a node, or of the inode. */
    method QueryOrCreate(l: u32) returns (r: Result<nat>, ghost trail: Trail)
      requires WellFormed() && Plain(Extents()) && FreshSupply()
      modifies this
      ensures faults >= old(faults) && (reliable ==> faults == old(faults))
      ensures var was := old(Mapped(Extents(), l));
              var below := old(root.depth > 0 && l < root.slots[0].key);
              && (was.Some? ==> r == Ok(was.value))
              && (was.None? && below ==> r == Err(EIO))
              && (was.Some? || below || old(supply) == [] ==>
                    root == old(root) && blocks == old(blocks) && supply == old(supply))
              && (was.None? && !below ==> old(LeadsTo(blocks, root, trail.path, l)))
      ensures IsHole(old(blocks), old(root), l) ==>
                && (r.Ok? <==> faults == old(faults)
                               && |old(supply)| >= Cost(old(blocks), old(root), old(supply), trail.path, l))
                && (r.Err? ==> r.code == if faults == old(faults) then ENOSPC else EIO)
      ensures IsHole(old(blocks), old(root), l) && r.Ok? ==>
                && old(supply) != [] && r.value == old(supply)[0]
                && Created(old(blocks), old(root), old(supply), trail.path, l, blocks, root, supply)
      ensures IsHole(old(blocks), old(root), l) && r.Ok? && l < MAX_BLOCKS ==>
                Appended(old(Extents()), Extents(), l, old(supply)[0])
      ensures IsHole(old(blocks), old(root), l) && l < MAX_BLOCKS && old(supply) != []
              && Continued(old(Extents()), l, old(supply)[0]) ==>
                && (r.Ok? <==> faults == old(faults))
                && (r.Ok? ==> supply == old(supply)[1..] && TreeBlocks() == old(TreeBlocks()))
      ensures faults > old(faults) ==>
                && IsHole(old(blocks), old(root), l) && old(supply) != []
                && Left(old(blocks), old(root), blocks, root, NewExtent(l, old(supply)[0]), trail.rest)
                && (l < MAX_BLOCKS && trail.rest.Stays? ==>
                      MapsBut(old(Extents()), Flat(Mended(blocks, trail.rest), root.depth, root.slots), l,
                              old(supply)[0], trail.rest.lost))
      ensures IsHole(old(blocks), old(root), l) && r.Err? && old(supply) != [] && faults == old(faults) ==>
                RanDry(old(blocks), old(root), old(supply), blocks, root, supply, l, trail)
    {
      hide Forest;
      hide Flat;
      hide Owned;
      hide Gains;
      hide Plain;
      hide Sound;
      hide Descends;
      hide CanAppend;
      hide Mapped;
      hide Usable;
      hide FirstOf;
      hide LevelSound;
      hide BlocksNeeded;
      hide AllFull;
      hide Linked;
      hide Tears;
      hide StoppedAt;
      hide CoveredBy;
      hide Created;
      hide LeafAnswer;
      hide Left;
      hide MapsBut;
      hide Mended;
      hide RanDry;
      trail := Trail([], 0, [], [], Same);
      SoundFacts(blocks, root);
      var search := FindExtent(l);
      if search.Err? {
        BelowFirst(blocks, root, l);
        return Err(EIO), trail;
      }
      var (path, found) := search.value;
      LeafMeaning(blocks, root, path, found, l);
      LeafFacts(blocks, root, path, l);
      LeafIndex(At(blocks, root, path, |path| - 1).slots, path[|path| - 1].index, found, l);
      NotBelow(blocks, root, l);
      if found {
        var leaf := path[|path| - 1];
        var node := if leaf.pblock != 0 then blocks[leaf.pblock] else root;
        var e := node.slots[leaf.index];
        return Ok(e.target + (l - e.key)), trail;
      }
      LeafWritten(blocks, root, path, l);
      assert LeadsTo(blocks, root, path, l);
      if supply != [] && l < MAX_BLOCKS {
        MergesIff(blocks, root, supply, path, l);
      }
      ghost var B0, R0, s0 := blocks, root, supply;
      r, trail := Create(path, l);
      if r.Ok? {
        MergeTakesOne(B0, R0, s0, path, l, blocks, root, supply);
      }
    }

    // ---- The right edge ------------------------------------------------------------

    /** The nodes on the right edge, root first. */
    method WalkSpine() returns (path: seq<Step>)
      requires WellFormed() && root.slots != []
      ensures RightSpine(blocks, root, path) && |path| == root.depth + 1
    {
      hide Forest;
      hide Flat;
      hide Owned;
      hide Sound;
      hide WellKept;
      hide RightSpine;
      hide At;
      hide Ascending;
      hide Sorted;
      path := [];
      var node := root;
      var pblock: nat := 0;
      SpineStart(blocks, root);
      assert path + [Step(pblock, 0)] == [Step(0, 0)];
      SpineWellKept(blocks, root, [Step(0, 0)], 0);
      var ok := Validate(node, ROOT_CAPACITY);
      while node.depth > 0
        invariant RightSpine(blocks, root, path + [Step(pblock, 0)])
        invariant node == At(blocks, root, path + [Step(pblock, 0)], |path|)
        invariant node.depth == root.depth - |path| && node.slots != []
        invariant WellKept(node, if path == [] then ROOT_CAPACITY else BLOCK_CAPACITY)
        decreases node.depth
      {
        WellKeptFacts(node, if path == [] then ROOT_CAPACITY else BLOCK_CAPACITY);
        SpineGrows(blocks, root, path, pblock);
        var last := |node.slots| - 1;
        path := path + [Step(pblock, last)];
        pblock := node.slots[last].target;
        node := blocks[pblock];
        SpineWellKept(blocks, root, path + [Step(pblock, 0)], |path|);
        ok := Validate(node, BLOCK_CAPACITY);
      }
      path := path + [Step(pblock, 0)];
    }

    /** Describe the right-most extent without changing the tree. */
    method LastExtent() returns (r: Option<Tail>)
      requires WellFormed()
      ensures r.None? <==> Extents() == []
      ensures r.Some? ==>
                var last := Extents()[|Extents()| - 1];
                r.value == Tail(last.key, last.target, last.Len(), last.Unwritten())
    {
      hide Forest;
      hide Flat;
      hide Owned;
      hide Sound;
      hide RightSpine;
      if root.slots == [] {
        FlatNothing(blocks, root.depth);
        return None;
      }
      var path := WalkSpine();
      SpineLeaf(blocks, root, path);
      var leaf := if |path| == 1 then root else blocks[path[|path| - 1].pblock];
      var e := leaf.slots[|leaf.slots| - 1];
      return Some(Tail(e.key, e.target, e.Len(), e.Unwritten()));
    }

    /** Shorten the last extent of the right-most leaf, which keeps an entry. */
    method TrimLeaf(path: seq<Step>, remove: nat)
      requires WellFormed() && RightSpine(blocks, root, path) && |path| == root.depth + 1 && root.slots != []
      requires var leaf := At(blocks, root, path, |path| - 1).slots;
               leaf != [] && 0 < remove <= leaf[|leaf| - 1].Len() && (|leaf| > 1 || remove < leaf[|leaf| - 1].Len())
      modifies this`root, this`blocks
      ensures WellFormed() && Drops(old(Extents()), Extents(), remove)
      ensures TreeBlocks() == old(TreeBlocks()) && Extents() != []
    {
      hide Forest;
      hide Flat;
      hide Owned;
      hide Sound;
      hide RightSpine;
      hide Trimmed;
      ghost var B0, R0 := blocks, root;
      SpineLeaf(blocks, root, path);
      var pblock := path[|path| - 1].pblock;
      var node := if |path| == 1 then root else blocks[pblock];
      var buf := new NodeBuf.Load(node);
      assert buf.slots[buf.count - 1] == node.slots[|node.slots| - 1] by {
        assert buf.Entries()[buf.count - 1] == buf.slots[buf.count - 1];
      }
      var trimmed := buf.TrimTail(remove);
      var image := buf.Image();
      if |path| == 1 {
        root := image;
      } else {
        blocks := blocks[pblock := image];
      }
      LeafTrimmed(B0, R0, blocks, root, path, remove);
      TrimmedToRoot(B0, R0, blocks, root, path, |path| - 1, {}, remove);
      TrimmedDone(B0, R0, blocks, root, path, {}, remove);
    }

    /** Drop the last entry of the node at level `k`, whose child is given up. */
    method CutEntry(path: seq<Step>, k: nat, ghost freed: set<nat>, ghost remove: nat)
      requires WellFormed() && RightSpine(blocks, root, path) && k + 1 < |path|
      requires Emptied(blocks, root, path, k + 1, freed) && |At(blocks, root, path, k).slots| > 1
      requires Extents() != [] && remove == Extents()[|Extents()| - 1].Len() > 0
      modifies this`root, this`blocks
      ensures WellFormed() && Drops(old(Extents()), Extents(), remove) && Extents() != []
      ensures freed <= old(TreeBlocks()) && TreeBlocks() == old(TreeBlocks()) - freed
    {
      hide Forest;
      hide Flat;
      hide Owned;
      hide Sound;
      hide RightSpine;
      hide Trimmed;
      hide Emptied;
      ghost var B0, R0 := blocks, root;
      NodeFits(blocks, root, path, k);
      var pblock := path[k].pblock;
      var node := if pblock == 0 then root else blocks[pblock];
      var buf := new NodeBuf.Load(node);
      var removed := buf.RemoveLast();
      var image := buf.Image();
      if pblock == 0 {
        root := image;
      } else {
        blocks := blocks[pblock := image];
      }
      ParentTrimmed(B0, R0, blocks, root, path, k, freed, remove);
      TrimmedToRoot(B0, R0, blocks, root, path, k, freed, remove);
      TrimmedDone(B0, R0, blocks, root, path, freed, remove);
    }

    /** Remove at most `maxBlocks` from the right edge of the last extent. */
    method RemoveTail(maxBlocks: nat) returns (r: Result<Option<Removal>>)
      requires WellFormed()
      modifies this`root, this`blocks
      ensures WellFormed()
      ensures r.Err? <==> maxBlocks == 0
      ensures r.Err? ==> r.code == EINVAL
      ensures r.Err? || r.value.None? ==> root == old(root) && blocks == old(blocks)
      ensures r.Ok? ==> (r.value.None? <==> old(Extents()) == [])
      ensures r.Ok? && r.value.Some? ==>
                var last := old(Extents())[|old(Extents())| - 1];
                var remove := if maxBlocks < last.Len() then maxBlocks else last.Len();
                var gone := r.value.value;
                && Drops(old(Extents()), Extents(), remove)
                && gone.startL == last.End() - remove && gone.startP == last.target + last.Len() - remove
                && gone.count == remove
                && NoDuplicates(gone.metadata)
                && old(TreeBlocks()) == TreeBlocks() + Set(gone.metadata) && TreeBlocks() !! Set(gone.metadata)
                && (Extents() == [] ==> root == Node(0, ROOT_CAPACITY, []))
    {
      hide Forest;
      hide Flat;
      hide Owned;
      hide Sound;
      hide RightSpine;
      hide Drops;
      hide Emptied;
      ghost var B0, R0 := blocks, root;
      SoundFacts(blocks, root);
      if maxBlocks == 0 {
        return Err(EINVAL);
      }
      if root.slots == [] {
        FlatNothing(blocks, root.depth);
        return Ok(None);
      }
      var path := WalkSpine();
      SpineLeaf(blocks, root, path);
      var tail := LastExtent();
      var remove := if maxBlocks < tail.value.count then maxBlocks else tail.value.count;
      var gone := Removal(tail.value.startL + tail.value.count - remove,
                          tail.value.startP + (tail.value.count - remove), remove, []);
      var leaf := if |path| == 1 then root else blocks[path[|path| - 1].pblock];
      if |leaf.slots| > 1 || remove < tail.value.count {
        TrimLeaf(path, remove);
        assert Set([]) == {};
        return Ok(Some(gone));
      }
      if |path| == 1 {
        DropsAll(blocks, root, remove);
        root := root.(slots := []);
        FlatNothing(blocks, 0);
        EmptyRoot(blocks, root);
        assert Set([]) == {};
        return Ok(Some(gone));
      }
      var metadata := GiveUpNodes(path, remove);
      return Ok(Some(gone.(metadata := metadata)));
    }

    /** The last extent was alone in its leaf: give up the leaf and every parent
        that has no other child. */
    method GiveUpNodes(path: seq<Step>, ghost remove: nat) returns (metadata: seq<nat>)
      requires WellFormed() && RightSpine(blocks, root, path) && |path| == root.depth + 1 && |path| > 1
               && root.slots != []
      requires |At(blocks, root, path, |path| - 1).slots| == 1
      requires Extents() != [] && remove == Extents()[|Extents()| - 1].Len() > 0
      modifies this`root, this`blocks
      ensures WellFormed() && Drops(old(Extents()), Extents(), remove)
      ensures NoDuplicates(metadata)
      ensures old(TreeBlocks()) == TreeBlocks() + Set(metadata) && TreeBlocks() !! Set(metadata)
      ensures Extents() == [] ==> root == Node(0, ROOT_CAPACITY, [])
    {
      hide Forest;
      hide Flat;
      hide Owned;
      hide Sound;
      hide RightSpine;
      hide Drops;
      hide Emptied;
      ghost var B0, R0 := blocks, root;
      metadata := [path[|path| - 1].pblock];
      var k := |path| - 1;
      EmptiedLeaf(blocks, root, path);
      assert Set(metadata) == {path[|path| - 1].pblock};
      if k > 1 {
        NodeFits(blocks, root, path, k - 1);
      }
      while k > 1 && |blocks[path[k - 1].pblock].slots| == 1
        invariant blocks == B0 && root == R0
        invariant 1 <= k < |path| && (k > 1 ==> path[k - 1].pblock in blocks)
        invariant Emptied(blocks, root, path, k, Set(metadata)) && NoDuplicates(metadata)
        decreases k
      {
        NodeFits(blocks, root, path, k - 1);
        EmptiedUp(blocks, root, path, k - 1, Set(metadata));
        SetMore(metadata, path[k - 1].pblock);
        metadata := metadata + [path[k - 1].pblock];
        k := k - 1;
        if k > 1 {
          NodeFits(blocks, root, path, k - 1);
        }
      }
      NodeFits(blocks, root, path, k - 1);
      LastChild(blocks, root, path, k - 1);
      if k == 1 && |root.slots| == 1 {
        AllEmptied(blocks, root, path, Set(metadata));
        DropsAll(blocks, root, remove);
        root := Node(0, ROOT_CAPACITY, []);
        FlatNothing(blocks, 0);
        EmptyRoot(blocks, root);
      } else {
        CutEntry(path, k - 1, Set(metadata), remove);
      }
    }
  }

  // ---- An insertion that loses blocks ------------------------------------------------

  /** Four extents with gaps between them fill the root. */
  function SparseRoot(): Node {
    Node(0, ROOT_CAPACITY, [Slot(0, 100, 1), Slot(10, 200, 1), Slot(20, 300, 1), Slot(30, 400, 1)])
  }

  lemma SparseRootIsSound()
    ensures Sound(map[], SparseRoot()) && Plain(Flat(map[], 0, SparseRoot().slots))
    ensures Flat(map[], 0, SparseRoot().slots) == SparseRoot().slots && Owned(map[], 0, SparseRoot().slots) == {}
  {
  }

  lemma SparseRootMaps()
    ensures Mapped(SparseRoot().slots, 20) == Some(300) && Mapped(SparseRoot().slots, 40) == None
  {
    hide Mapped;
    MappedAt(SparseRoot().slots, 2, 20);
    MappedNowhere(SparseRoot().slots, 40);
  }

  /** One block is enough for the data but not for the split of the root. */
  lemma SparseRootIsFull(path: seq<Step>, data: Phys)
    requires LeadsTo(map[], SparseRoot(), path, 40)
    ensures path[0].index == 4 && !MergesAt(map[], SparseRoot(), [data], path, 40)
    ensures Cost(map[], SparseRoot(), [data], path, 40) == 3
  {
    var slots := At(map[], SparseRoot(), path, 0).slots;
    assert AllWritten(slots) && slots[3].key == 30;
  }

  /** The split left two entries in the root. */
  lemma SparseRootTorn(path: seq<Step>, data: Phys, B: Blocks, R: Node, pending: seq<Slot>, lost: seq<Slot>)
    requires LeadsTo(map[], SparseRoot(), path, 40)
    requires StoppedAt(map[], SparseRoot(), B, R, [], path, 0, pending, NewExtent(40, data))
             && lost == Flat(B, At(B, R, path, 0).depth, pending)
    ensures CoveredBy(lost, 20)
  {
    var slots := SparseRoot().slots;
    var now := At(B, R, path, 0);
    assert Gains(slots, now.slots + pending, NewExtent(40, data));
    var p: nat :| GainsAt(slots, now.slots + pending, NewExtent(40, data), p);
    SparseRootIsFull(path, data);
    assert |now.slots| == SplitPoint(ROOT_CAPACITY, 4) == 2;
    assert (now.slots + pending)[2] == pending[0] == lost[0] == slots[2];
    assert lost[0] in lost && lost[0].Covers(20);
  }

  /** A block is mapped before the call and is not mapped after it. */
  method DryRootSplit(data: Phys) returns (before: Result<nat>, r: Result<nat>, after: Result<nat>)
    requires data != 0
    ensures before == Ok(300) && r == Err(ENOSPC) && after == Err(ENOENT)
  {
    hide Sound;
    hide Plain;
    hide Flat;
    hide Mapped;
    SparseRootIsSound();
    SparseRootMaps();
    var tree := new ExtentTree(SparseRoot(), map[], [data], true);
    before := tree.Query(20);
    ghost var trail;
    r, trail := tree.QueryOrCreate(40);
    SparseRootIsFull(trail.path, data);
    SparseRootTorn(trail.path, data, tree.blocks, tree.root, trail.pending, trail.lost);
    after := tree.Query(20);
  }
}
