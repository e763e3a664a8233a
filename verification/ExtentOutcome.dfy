/** How the creation of a block ends: with one mapping more, or, when the
    allocator runs dry while a split is under way, with the upper part of a node
    linked from nowhere. */
module ExtentOutcome {
  import opened Bytes
  import opened ExtentNode
  import opened ExtentForest
  import opened ExtentPath

  /** `after` is `before` with `x` gained and then `lost` taken out. */
  ghost predicate Tears(before: seq<Slot>, after: seq<Slot>, x: Slot, lost: seq<Slot>) {
    exists left, right :: TearsAt(before, after, x, lost, left, right)
  }

  ghost predicate TearsAt(before: seq<Slot>, after: seq<Slot>, x: Slot, lost: seq<Slot>, left: seq<Slot>,
                          right: seq<Slot>) {
    Gains(before, left + lost + right, x) && after == left + right
  }

  lemma TearsLifts(left: seq<Slot>, before: seq<Slot>, after: seq<Slot>, right: seq<Slot>, x: Slot, lost: seq<Slot>)
    requires Tears(before, after, x, lost)
    requires forall e :: e in left ==> e.End() <= x.key
    requires forall e :: e in right ==> x.key < e.key
    ensures Tears(left + before + right, left + after + right, x, lost)
  {
    hide Gains;
    var l, r :| TearsAt(before, after, x, lost, l, r);
    GainsLifts(left, before, l + lost + r, right, x);
    Embed(left, l, lost, r, right);
    Embed(left, l, [], r, right);
    assert (left + l) + (r + right) == left + (l + r) + right;
    assert TearsAt(left + before + right, left + after + right, x, lost, left + l, r + right);
  }

  // ---- What it means for the map ---------------------------------------------------

  ghost predicate CoveredBy(extents: seq<Slot>, l: int) {
    exists e :: e in extents && e.Covers(l)
  }

  lemma WithoutMiddle(left: seq<Slot>, lost: seq<Slot>, right: seq<Slot>, l: int)
    requires Plain(left + lost + right)
    ensures Plain(left + right)
    ensures Mapped(left + right, l) == if CoveredBy(lost, l) then None else Mapped(left + lost + right, l)
  {
    hide Mapped;
    hide Plain;
    PlainConcat(left + lost, right);
    PlainConcat(left, lost);
    PrecedesConcat(left, lost, right);
    PlainConcat(left, right);
    MappedConcat(left, right, l);
    MappedConcat(left + lost, right, l);
    MappedConcat(left, lost, l);
    if CoveredBy(lost, l) {
      var e :| e in lost && e.Covers(l);
      MappedNowhere(left, l);
      MappedNowhere(right, l);
    } else {
      MappedNowhere(lost, l);
    }
  }

  /** Exactly the lost extents are unmapped; the new block may or may not be
      among them. */
  lemma TearsMaps(before: seq<Slot>, after: seq<Slot>, x: Slot, lost: seq<Slot>, l: int)
    requires Tears(before, after, x, lost) && Plain(before)
    requires x.Len() == 1 && !x.Unwritten() && x.End() < U32_LIMIT
    ensures Plain(after)
    ensures Mapped(after, l) == if CoveredBy(lost, l) then None else if l == x.key then Some(x.target as nat)
            else Mapped(before, l)
  {
    hide Mapped;
    hide Plain;
    hide Gains;
    hide CoveredBy;
    var left, right :| TearsAt(before, after, x, lost, left, right);
    GainsMaps(before, left + lost + right, x, l);
    WithoutMiddle(left, lost, right, l);
  }

  /** At least one block that was mapped is mapped no longer. */
  lemma BlockLost(before: seq<Slot>, after: seq<Slot>, x: Slot, lost: seq<Slot>) returns (m: int)
    requires Tears(before, after, x, lost) && Plain(before) && |lost| >= 2
    requires x.Len() == 1 && !x.Unwritten() && x.End() < U32_LIMIT
    ensures m != x.key && Mapped(before, m).Some? && Mapped(after, m) == None
  {
    hide Mapped;
    hide Gains;
    var left, right :| TearsAt(before, after, x, lost, left, right);
    var all := left + lost + right;
    GainsMaps(before, all, x, 0);
    var i := if lost[0].key == x.key then 1 else 0;
    assert all[|left|] == lost[0] && all[|left| + 1] == lost[1];
    assert all[|left|].End() <= all[|left| + 1].key;
    m := lost[i].key;
    assert lost[i] == all[|left| + i] && lost[i] in all && lost[i] in lost;
    MappedAt(all, |left| + i, m);
    GainsMaps(before, all, x, m);
    assert CoveredBy(lost, m);
    TearsMaps(before, after, x, lost, m);
  }

  // ---- The tree --------------------------------------------------------------------

  /** The node at level `k` of the path, with `lost` missing below it. */
  ghost predicate Torn(B0: Blocks, R0: Node, B: Blocks, R: Node, path: seq<Step>, k: nat, lost: seq<Slot>,
                       used: set<nat>, x: Slot)
    requires k < |path|
  {
    var was, now := At(B0, R0, path, k), At(B, R, path, k);
    && now.depth == was.depth && now.max == was.max && 0 < |now.slots| <= now.max
    && Forest(B, now.depth, now.slots)
    && Tears(Flat(B0, was.depth, was.slots), Flat(B, now.depth, now.slots), x, lost)
    && Owned(B, now.depth, now.slots) <= Owned(B0, was.depth, was.slots) + used
    && used !! Owned(B0, R0.depth, R0.slots) && 0 !in used
    && Untouched(B0, B, Owned(B0, was.depth, was.slots) + used + {path[k].pblock})
    && (k > 0 ==> R == R0 && was.slots != [] && now.slots[0].key == was.slots[0].key)
  }

  /** Where the split stopped. */
  lemma TornHere(B0: Blocks, R0: Node, B: Blocks, R: Node, path: seq<Step>, l: int, k: nat, pending: seq<Slot>,
                 used: set<nat>, x: Slot)
    requires Sound(B0, R0) && Descends(B0, R0, path, l) && k < |path| && x.key == l
    requires Progress(B0, R0, B, R, path, k, pending, used, x)
    ensures Torn(B0, R0, B, R, path, k, Flat(B, At(B, R, path, k).depth, pending), used, x)
  {
    hide Flat;
    hide Owned;
    hide Forest;
    hide Mapped;
    hide Sound;
    hide Descends;
    hide Gains;
    Levels(B0, R0, path, l, k);
    var was, now := At(B0, R0, path, k), At(B, R, path, k);
    Concat(B, now.depth, now.slots, pending);
    var kept, lost := Flat(B, now.depth, now.slots), Flat(B, now.depth, pending);
    assert kept + lost + [] == kept + lost && kept + [] == kept;
    assert TearsAt(Flat(B0, was.depth, was.slots), kept, x, lost, kept, []);
    if k > 0 {
      ChildEntry(B0, B, was.depth, was.slots[0], was.slots, now.slots, pending, x);
    }
  }

  /** The children to the left and right of a child that lost something. */
  lemma AroundTorn(B0: Blocks, B: Blocks, depth: nat, left: seq<Slot>, s: Slot, right: seq<Slot>, used: set<nat>)
    requires depth > 0 && Forest(B0, depth, left + [s] + right)
    requires Agree(B0, B, Owned(B0, depth, left) + Owned(B0, depth, right))
    requires Forest(B, depth, [s])
    requires Owned(B, depth, [s]) <= Owned(B0, depth, [s]) + used
    requires used !! Owned(B0, depth, left + [s] + right)
    ensures Forest(B, depth, left + [s] + right)
    ensures Flat(B, depth, left + [s] + right) == Flat(B0, depth, left) + Flat(B, depth, [s]) + Flat(B0, depth, right)
    ensures Owned(B, depth, left + [s] + right) <= Owned(B0, depth, left + [s] + right) + used
  {
    hide Flat;
    hide Owned;
    hide Forest;
    Concat(B0, depth, left + [s], right);
    Concat(B0, depth, left, [s]);
    Frame(B0, B, depth, left);
    Frame(B0, B, depth, right);
    Concat(B, depth, left, [s]);
    Concat(B, depth, left + [s], right);
  }

  lemma TornChild(B0: Blocks, R0: Node, B: Blocks, R: Node, path: seq<Step>, l: int, k: nat, lost: seq<Slot>,
                  used: set<nat>, x: Slot)
    requires Sound(B0, R0) && Descends(B0, R0, path, l) && k + 1 < |path| && x.key == l
    requires Torn(B0, R0, B, R, path, k + 1, lost, used, x)
    ensures var was := At(B0, R0, path, k);
            var s := was.slots[path[k].index];
            && At(B, R, path, k) == was && R == R0
            && Forest(B, was.depth, [s])
            && Tears(Flat(B0, was.depth, [s]), Flat(B, was.depth, [s]), x, lost)
            && Owned(B, was.depth, [s]) <= Owned(B0, was.depth, [s]) + used
            && Untouched(B0, B, Owned(B0, was.depth, [s]) + used)
  {
    hide Flat;
    hide Owned;
    hide Forest;
    hide Mapped;
    hide Sound;
    hide Sorted;
    hide Tears;
    Levels(B0, R0, path, l, k);
    Levels(B0, R0, path, l, k + 1);
    Sides(B0, R0, path, l, k);
    var was := At(B0, R0, path, k);
    var s := was.slots[path[k].index];
    CutAt(B0, was.depth, was.slots, path[k].index);
    One(B0, was.depth, s);
    One(B, was.depth, s);
    assert path[k + 1].pblock == s.target != 0;
    assert At(B, R, path, k + 1) == B[s.target];
    assert IndexEntry(B, was.depth - 1, s);
  }

  /** The parents of a torn node keep their entries. */
  lemma {:induction false} TornUp(B0: Blocks, R0: Node, B: Blocks, R: Node, path: seq<Step>, l: int, k: nat,
                                  lost: seq<Slot>, used: set<nat>, x: Slot)
    requires Sound(B0, R0) && Descends(B0, R0, path, l) && k < |path| && x.key == l
    requires Torn(B0, R0, B, R, path, k, lost, used, x)
    ensures Torn(B0, R0, B, R, path, 0, lost, used, x)
    decreases k
  {
    hide Torn;
    hide Sound;
    hide Descends;
    if k > 0 {
      TornParent(B0, R0, B, R, path, l, k - 1, lost, used, x);
      TornUp(B0, R0, B, R, path, l, k - 1, lost, used, x);
    }
  }

  lemma TornParent(B0: Blocks, R0: Node, B: Blocks, R: Node, path: seq<Step>, l: int, k: nat, lost: seq<Slot>,
                   used: set<nat>, x: Slot)
    requires Sound(B0, R0) && Descends(B0, R0, path, l) && k + 1 < |path| && x.key == l
    requires Torn(B0, R0, B, R, path, k + 1, lost, used, x)
    ensures Torn(B0, R0, B, R, path, k, lost, used, x)
  {
    hide Flat;
    hide Owned;
    hide Forest;
    hide Mapped;
    hide Sound;
    hide Sorted;
    hide Tears;
    hide Descends;
    TornFresh(B0, R0, B, R, path, k + 1, lost, used, x);
    TornChild(B0, R0, B, R, path, l, k, lost, used, x);
    Sides(B0, R0, path, l, k);
    Levels(B0, R0, path, l, k);
    NotRoot(B0, R0, path, l, k);
    var was := At(B0, R0, path, k);
    var i := path[k].index;
    var s := was.slots[i];
    CutAt(B0, was.depth, was.slots, i);
    One(B0, was.depth, s);
    assert was.slots == was.slots[..i] + [s] + was.slots[i + 1..];
    AroundTorn(B0, B, was.depth, was.slots[..i], s, was.slots[i + 1..], used);
    TearsLifts(Flat(B0, was.depth, was.slots[..i]), Flat(B0, was.depth, [s]), Flat(B, was.depth, [s]),
               Flat(B0, was.depth, was.slots[i + 1..]), x, lost);
    Untouches(B0, B, B, Owned(B0, was.depth, [s]) + used, Owned(B0, was.depth, was.slots) + used, path[k].pblock);
    ParentFits(B0, R0, path, l, k);
  }

  lemma TornFresh(B0: Blocks, R0: Node, B: Blocks, R: Node, path: seq<Step>, k: nat, lost: seq<Slot>, used: set<nat>,
                  x: Slot)
    requires k < |path| && Torn(B0, R0, B, R, path, k, lost, used, x)
    ensures used !! Owned(B0, R0.depth, R0.slots) && 0 !in used
  {
  }

  lemma ParentFits(B0: Blocks, R0: Node, path: seq<Step>, l: int, k: nat)
    requires Sound(B0, R0) && Descends(B0, R0, path, l) && k + 1 < |path|
    ensures 0 < |At(B0, R0, path, k).slots| <= At(B0, R0, path, k).max
  {
    hide Flat;
    hide Owned;
    hide Forest;
    hide Mapped;
    hide Sorted;
    Levels(B0, R0, path, l, k);
    Sides(B0, R0, path, l, k);
  }

  /** The tree that is left is sound: nothing but the upper part of one node is
      missing from it, with everything below. */
  lemma TornTree(B0: Blocks, R0: Node, B: Blocks, R: Node, path: seq<Step>, l: int, k: nat, pending: seq<Slot>,
                 used: set<nat>, x: Slot)
    requires Sound(B0, R0) && Descends(B0, R0, path, l) && k < |path| && x.key == l
    requires Progress(B0, R0, B, R, path, k, pending, used, x)
    ensures var lost := Flat(B, At(B, R, path, k).depth, pending);
            && Linked(B, R) && R.depth == R0.depth
            && Tears(Flat(B0, R0.depth, R0.slots), Flat(B, R.depth, R.slots), x, lost)
            && Owned(B, R.depth, R.slots) <= Owned(B0, R0.depth, R0.slots) + used
            && |lost| >= |pending|
  {
    hide Flat;
    hide Owned;
    hide Forest;
    hide Mapped;
    hide Tears;
    hide Progress;
    var lost := Flat(B, At(B, R, path, k).depth, pending);
    TornHere(B0, R0, B, R, path, l, k, pending, used, x);
    TornUp(B0, R0, B, R, path, l, k, lost, used, x);
    PendingForest(B0, R0, B, R, path, k, pending, used, x);
    FlatCounts(B, At(B, R, path, k).depth, pending);
    NotRoot(B0, R0, path, l, 0);
  }

  lemma PendingForest(B0: Blocks, R0: Node, B: Blocks, R: Node, path: seq<Step>, k: nat, pending: seq<Slot>,
                      used: set<nat>, x: Slot)
    requires k < |path| && Progress(B0, R0, B, R, path, k, pending, used, x)
    ensures Forest(B, At(B, R, path, k).depth, pending)
  {
    hide Flat;
    hide Owned;
    hide Forest;
    Concat(B, At(B, R, path, k).depth, At(B, R, path, k).slots, pending);
  }

  /** Every entry leads to an extent of its own. */
  lemma {:induction false} FlatCounts(blocks: Blocks, depth: nat, slots: seq<Slot>)
    requires Forest(blocks, depth, slots)
    ensures |Flat(blocks, depth, slots)| >= |slots|
    decreases |slots|
  {
    hide Owned;
    if depth > 0 && slots != [] {
      var n := |slots| - 1;
      FlatCounts(blocks, depth, slots[..n]);
      IndexFacts(blocks, depth - 1, slots[n]);
      FirstKey(blocks, depth - 1, Kid(blocks, slots[n].target).slots);
    }
  }

  /** At least two entries are pending after a split. */
  lemma TwoPending(B0: Blocks, R0: Node, B: Blocks, R: Node, path: seq<Step>, l: int, k: nat, pending: seq<Slot>)
    requires Sound(B0, R0) && Descends(B0, R0, path, l) && k < |path| && Halved(B0, R0, B, R, path, k, pending)
    ensures |pending| >= 2
  {
    hide Flat;
    hide Owned;
    hide Forest;
    hide Mapped;
    hide Sorted;
    Levels(B0, R0, path, l, k);
    var was := At(B0, R0, path, k);
    assert was.max == ROOT_CAPACITY || was.max == BLOCK_CAPACITY;
  }

  /** An extent of no length maps nothing and spoils the order. */
  lemma GainsNothing(before: seq<Slot>, after: seq<Slot>, x: Slot, l: int)
    requires Gains(before, after, x) && Plain(before) && x.count == 0
    ensures Mapped(after, l) == Mapped(before, l)
    ensures !Sorted(after)
  {
    hide Mapped;
    hide Gains;
    hide CanAppend;
    var left, right, merged := GainsPosition(before, after, x);
    MappedConcat(left + [x], right, l);
    MappedConcat(left, [x], l);
    MappedConcat(left, right, l);
    MappedOne(x, l);
    assert after[|left|] == x;
  }

  // ---- Where it stops ----------------------------------------------------------------

  /** The insertion came as far as the supply allows: one block for each level
      above the leaf, and `pending` is the upper part of the node there. */
  ghost predicate StoppedAt(B0: Blocks, R0: Node, B: Blocks, R: Node, supply: seq<Phys>, path: seq<Step>, level: nat,
                            pending: seq<Slot>, x: Slot) {
    && level < |path| && level == (if |supply| < |path| then |path| - 1 - |supply| else 0)
    && Halved(B0, R0, B, R, path, level, pending)
    && Progress(B0, R0, B, R, path, level, pending, FirstOf(supply, |path| - 1 - level), x)
  }

  lemma OneMoreFull(B0: Blocks, R0: Node, path: seq<Step>, k: nat)
    requires 0 < k < |path| && Full(B0, R0, path, k)
    ensures FullFrom(B0, R0, path, k) == 1 + FullFrom(B0, R0, path, k - 1)
  {
  }

  lemma NoneFull(B0: Blocks, R0: Node, path: seq<Step>, k: nat)
    requires k < |path|
    ensures !Full(B0, R0, path, k) ==> FullFrom(B0, R0, path, k) == 0
    ensures k == 0 && Full(B0, R0, path, k) ==> FullFrom(B0, R0, path, k) == 1
  {
  }

  lemma StoppedTree(B0: Blocks, R0: Node, B: Blocks, R: Node, supply: seq<Phys>, path: seq<Step>, k: nat,
                    pending: seq<Slot>, x: Slot, n: nat)
    requires Sound(B0, R0) && Descends(B0, R0, path, x.key) && k < |path| && n <= |supply|
    requires n == |path| - 1 - k && (if k > 0 then |supply| == n else |supply| <= n + 1)
    requires Progress(B0, R0, B, R, path, k, pending, FirstOf(supply, n), x) && Halved(B0, R0, B, R, path, k, pending)
    ensures StoppedAt(B0, R0, B, R, supply, path, k, pending, x)
    ensures var lost := Flat(B, At(B, R, path, k).depth, pending);
            && Linked(B, R) && R.depth == R0.depth
            && Tears(Flat(B0, R0.depth, R0.slots), Flat(B, R.depth, R.slots), x, lost) && |lost| >= 2
            && Owned(B, R.depth, R.slots) <= Owned(B0, R0.depth, R0.slots) + FirstOf(supply, |supply|)
  {
    hide Flat;
    hide Owned;
    hide Forest;
    hide Tears;
    hide Progress;
    hide Linked;
    hide Sound;
    hide Descends;
    TornTree(B0, R0, B, R, path, x.key, k, pending, FirstOf(supply, n), x);
    TwoPending(B0, R0, B, R, path, x.key, k, pending);
    FirstOfAll(supply, n);
  }

  lemma FirstOfAll(supply: seq<Phys>, n: nat)
    requires n <= |supply|
    ensures FirstOf(supply, n) <= FirstOf(supply, |supply|)
  {
    forall b | b in supply[..n]
      ensures b in supply[..|supply|]
    {
    }
  }

  // ---- What a failed write leaves ------------------------------------------------------

  /** What is there after a write failed: the tree as before; or the new tree,
      except for the lost extents, if any, once the loose node is written, if
      any: it is linked, but its block is not what it should be. */
  datatype Rest = Same | Stays(loose: Option<(nat, Node)>, lost: seq<Slot>)

  function Mended(B: Blocks, rest: Rest): Blocks {
    if rest.Stays? && rest.loose.Some? then B[rest.loose.value.0 := rest.loose.value.1] else B
  }

  ghost predicate Left(B0: Blocks, R0: Node, B: Blocks, R: Node, x: Slot, rest: Rest) {
    match rest
    case Same => B == B0 && R == R0
    case Stays(loose, lost) =>
      var M := Mended(B, rest);
      var before, after := Flat(B0, R0.depth, R0.slots), Flat(M, R.depth, R.slots);
      && Linked(M, R) && (loose.Some? ==> loose.value.0 in Owned(M, R.depth, R.slots))
      && if lost == [] then Gains(before, after, x)
         else R.depth == R0.depth && |lost| >= 2 && Tears(before, after, x, lost)
  }

  /** The map gains `l` and loses exactly the lost extents, which, if there are
      any, hold a block that was mapped. */
  ghost predicate MapsBut(before: seq<Slot>, after: seq<Slot>, l: u32, p: Phys, lost: seq<Slot>) {
    && (forall m: int :: Mapped(after, m) == if CoveredBy(lost, m) then None
                          else if m == l then Some(p as nat) else Mapped(before, m))
    && (lost != [] ==> exists m: int :: m != l && Mapped(before, m).Some? && Mapped(after, m) == None)
  }

  /** What that means for the map. */
  lemma LeftMeans(B0: Blocks, R0: Node, B: Blocks, R: Node, l: u32, p: Phys, rest: Rest)
    requires Plain(Flat(B0, R0.depth, R0.slots)) && l < MAX_BLOCKS
    requires Left(B0, R0, B, R, NewExtent(l, p), rest) && rest.Stays?
    ensures var before, after := Flat(B0, R0.depth, R0.slots), Flat(Mended(B, rest), R.depth, R.slots);
            Plain(after) && MapsBut(before, after, l, p, rest.lost)
  {
    hide Flat;
    hide Owned;
    hide Forest;
    hide Mapped;
    hide Plain;
    hide Linked;
    hide Tears;
    hide Gains;
    hide NewExtent;
    NewExtentFacts(l, p);
    var before, after := Flat(B0, R0.depth, R0.slots), Flat(Mended(B, rest), R.depth, R.slots);
    if rest.lost == [] {
      CreatedMeans(before, after, l, p);
    } else {
      forall m: int
        ensures Mapped(after, m) == if CoveredBy(rest.lost, m) then None else if m == l then Some(p as nat)
                else Mapped(before, m)
      {
        TearsMaps(before, after, NewExtent(l, p), rest.lost, m);
      }
      TearsMaps(before, after, NewExtent(l, p), rest.lost, l);
      var m := BlockLost(before, after, NewExtent(l, p), rest.lost);
    }
  }

  /** A step of the insertion that is complete: with nothing pending the whole
      tree is, else the pending part is lost. */
  lemma StepLeaves(B0: Blocks, R0: Node, B: Blocks, R: Node, path: seq<Step>, k: nat, pending: seq<Slot>,
                   used: set<nat>, x: Slot) returns (lost: seq<Slot>)
    requires Sound(B0, R0) && Descends(B0, R0, path, x.key) && k < |path|
    requires Progress(B0, R0, B, R, path, k, pending, used, x)
    requires pending != [] ==> Halved(B0, R0, B, R, path, k, pending)
    ensures Left(B0, R0, B, R, x, Stays(None, lost))
    ensures lost == if pending == [] then [] else Flat(B, At(B, R, path, k).depth, pending)
  {
    hide Flat;
    hide Owned;
    hide Forest;
    hide Tears;
    hide Gains;
    hide Progress;
    hide Linked;
    hide Sound;
    hide Descends;
    hide Halved;
    if pending == [] {
      lost := [];
      Climb(B0, R0, B, R, path, x.key, k, used, x);
      ProgressDone(B0, R0, B, R, path, x.key, used, x);
    } else {
      lost := Flat(B, At(B, R, path, k).depth, pending);
      TornTree(B0, R0, B, R, path, x.key, k, pending, used, x);
      TwoPending(B0, R0, B, R, path, x.key, k, pending);
    }
  }

  /** The same, with one node of it not written. */
  lemma LooseLeft(B0: Blocks, R0: Node, B: Blocks, R: Node, M: Blocks, b: nat, node: Node, x: Slot, lost: seq<Slot>)
    requires Left(B0, R0, M, R, x, Stays(None, lost)) && M == B[b := node] && b in Owned(M, R.depth, R.slots)
    ensures Left(B0, R0, B, R, x, Stays(Some((b, node)), lost))
  {
    hide Flat;
    hide Owned;
    hide Linked;
    hide Tears;
    hide Gains;
  }

  /** Blocks that are not linked do not matter. */
  lemma UnlinkedLeft(B0: Blocks, R0: Node, B: Blocks, M: Blocks, R: Node, x: Slot, lost: seq<Slot>)
    requires Left(B0, R0, B, R, x, Stays(None, lost)) && Agree(B, M, Owned(B, R.depth, R.slots))
    ensures Left(B0, R0, M, R, x, Stays(None, lost))
  {
    hide Flat;
    hide Owned;
    hide Forest;
    hide Tears;
    hide Gains;
    Frame(B, M, R.depth, R.slots);
  }

  lemma SameLeft(B: Blocks, R: Node, x: Slot)
    ensures Left(B, R, B, R, x, Same)
  {
  }

  lemma DoneLeft(B0: Blocks, R0: Node, B: Blocks, R: Node, x: Slot)
    requires Linked(B, R) && Gains(Flat(B0, R0.depth, R0.slots), Flat(B, R.depth, R.slots), x)
    ensures Left(B0, R0, B, R, x, Stays(None, []))
  {
    hide Flat;
    hide Linked;
    hide Gains;
  }

  /** A new node that may or may not be linked. */
  lemma LooseEnd(B0: Blocks, R0: Node, B: Blocks, R: Node, M: Blocks, b: nat, node: Node, x: Slot, lost: seq<Slot>)
    returns (rest: Rest)
    requires Left(B0, R0, M, R, x, Stays(None, lost)) && M == B[b := node]
    ensures Left(B0, R0, B, R, x, rest) && rest.Stays?
  {
    hide Left;
    hide Flat;
    hide Owned;
    if b in Owned(M, R.depth, R.slots) {
      rest := Stays(Some((b, node)), lost);
      LooseLeft(B0, R0, B, R, M, b, node, x, lost);
    } else {
      rest := Stays(None, lost);
      UnlinkedLeft(B0, R0, M, B, R, x, lost);
    }
  }

  lemma AfterFault(B0: Blocks, R0: Node, B: Blocks, R: Node, l: u32, p: Phys, rest: Rest)
    requires Plain(Flat(B0, R0.depth, R0.slots)) && Left(B0, R0, B, R, NewExtent(l, p), rest)
    ensures l < MAX_BLOCKS && rest.Stays? ==>
              MapsBut(Flat(B0, R0.depth, R0.slots), Flat(Mended(B, rest), R.depth, R.slots), l, p, rest.lost)
  {
    hide Flat;
    hide Plain;
    hide Left;
    hide MapsBut;
    hide NewExtent;
    if l < MAX_BLOCKS && rest.Stays? {
      LeftMeans(B0, R0, B, R, l, p, rest);
    }
  }

  lemma RootFirst(B: Blocks, R: Node, path: seq<Step>, l: int)
    requires Descends(B, R, path, l)
    ensures path != [] && path[0].pblock == 0
  {
  }

  lemma NoneIsRoot(supply: seq<Phys>, n: nat, taken: set<nat>)
    requires Usable(supply, taken) && n <= |supply|
    ensures forall b :: b in supply[n..] ==> b != 0
  {
  }

  /** The tree above a split of the root does not use fresh blocks. */
  lemma RootOwns(B0: Blocks, R0: Node, B: Blocks, R: Node, path: seq<Step>, pending: seq<Slot>, used: set<nat>,
                 x: Slot)
    requires path != [] && path[0].pblock == 0 && Progress(B0, R0, B, R, path, 0, pending, used, x)
    ensures Owned(B, R.depth, R.slots) <= Owned(B0, R0.depth, R0.slots) + used
  {
    hide Flat;
    hide Owned;
    hide Forest;
    hide Gains;
    Concat(B, R.depth, R.slots, pending);
  }

  // ---- The whole operation -------------------------------------------------------------

  /** What the creation of a block went through: the path to the leaf and, if
      the allocator ran dry, the level, the entries that were not linked there
      and the extents below them; and what a failed write left. */
  datatype Trail = Trail(path: seq<Step>, level: nat, pending: seq<Slot>, lost: seq<Slot>, rest: Rest)

  /** The new extent continues the one in front of its place. */
  predicate Merges(leaf: seq<Slot>, i: nat, x: Slot) {
    0 < i <= |leaf| && CanAppend(leaf[i - 1], x)
  }

  /** The path to the leaf in which a hole `l` has its place. */
  ghost predicate LeadsTo(blocks: Blocks, root: Node, path: seq<Step>, l: int) {
    && path != [] && |path| == root.depth + 1 && Descends(blocks, root, path, l)
    && LeafAnswer(At(blocks, root, path, |path| - 1).slots, path[|path| - 1].index, false, l)
  }

  /** Nothing is mapped at `l`, and the lookup can tell. */
  ghost predicate IsHole(blocks: Blocks, root: Node, l: int) {
    && Mapped(Flat(blocks, root.depth, root.slots), l) == None
    && (root.depth > 0 ==> root.slots != [] && root.slots[0].key <= l)
  }

  ghost predicate MergesAt(blocks: Blocks, root: Node, supply: seq<Phys>, path: seq<Step>, l: u32)
    requires path != []
  {
    supply != [] && Merges(At(blocks, root, path, |path| - 1).slots, path[|path| - 1].index, NewExtent(l, supply[0]))
  }

  /** The blocks it takes to fill a hole: the data block, and tree blocks unless
      the block can be merged. */
  ghost function Cost(blocks: Blocks, root: Node, supply: seq<Phys>, path: seq<Step>, l: u32): (n: nat)
    requires path != []
    ensures n > 0
  {
    if MergesAt(blocks, root, supply, path, l) then 1 else 1 + BlocksNeeded(blocks, root, path)
  }

  /** The tree after a hole was filled.  Exactly one mapping is added, except
      that logical block 2^32-1 cannot be mapped: a merge has no effect for it,
      and an extent of its own spoils the leaf.  A root that is split at the
      greatest depth leads to a tree that no read accepts any more. */
  ghost predicate Created(B0: Blocks, R0: Node, s0: seq<Phys>, path: seq<Step>, l: u32, B: Blocks, R: Node,
                          s: seq<Phys>) {
    && path != [] && s0 != [] && |s0| >= Cost(B0, R0, s0, path, l)
    && var n, before, after := Cost(B0, R0, s0, path, l), Flat(B0, R0.depth, R0.slots), Flat(B, R.depth, R.slots);
       && s == s0[n..]
       && Linked(B, R)
       && Owned(B, R.depth, R.slots) == Owned(B0, R0.depth, R0.slots) + FirstOf(s0[1..], n - 1)
       && Usable(s, Owned(B, R.depth, R.slots))
       && R.depth == R0.depth + (if !MergesAt(B0, R0, s0, path, l) && AllFull(B0, R0, path) then 1 else 0)
       && (R.depth > MAX_EXTENT_DEPTH ==> !WellKept(R, ROOT_CAPACITY))
       && (l < MAX_BLOCKS ==>
             && Gains(before, after, NewExtent(l, s0[0])) && Plain(after)
             && (Sound(B, R) <==> R.depth <= MAX_EXTENT_DEPTH)
             && (forall m: int :: Mapped(after, m) == if m == l then Some(s0[0] as nat) else Mapped(before, m)))
       && (l == MAX_BLOCKS ==>
             && (forall m: int :: Mapped(after, m) == Mapped(before, m))
             && (if MergesAt(B0, R0, s0, path, l) then B == B0 && R == R0 else !Sound(B, R)))
  }

  lemma NewExtentFacts(l: u32, p: Phys)
    ensures var x := NewExtent(l, p);
            && x.key == l && x.target == p && !x.Unwritten()
            && (l < MAX_BLOCKS ==> x.Len() == 1 && x.End() < U32_LIMIT)
            && (l == MAX_BLOCKS ==> x.count == 0)
  {
  }

  /** What the gain means for the map and for later reads. */
  lemma CreatedMeans(before: seq<Slot>, after: seq<Slot>, l: u32, p: Phys)
    requires Gains(before, after, NewExtent(l, p)) && Plain(before)
    ensures l < MAX_BLOCKS ==>
              && Plain(after)
              && (forall m: int :: Mapped(after, m) == if m == l then Some(p as nat) else Mapped(before, m))
    ensures l == MAX_BLOCKS ==>
              && (forall m: int :: Mapped(after, m) == Mapped(before, m))
              && !Sorted(after)
  {
    hide Gains;
    hide Plain;
    hide Mapped;
    hide Sorted;
    hide NewExtent;
    var x := NewExtent(l, p);
    NewExtentFacts(l, p);
    if l < MAX_BLOCKS {
      forall m: int
        ensures Mapped(after, m) == if m == l then Some(p as nat) else Mapped(before, m)
      {
        GainsMaps(before, after, x, m);
      }
      GainsMaps(before, after, x, l);
    } else {
      forall m: int
        ensures Mapped(after, m) == Mapped(before, m)
      {
        GainsNothing(before, after, x, m);
      }
      GainsNothing(before, after, x, l);
    }
  }

  lemma CreatedByMerge(B0: Blocks, R0: Node, B: Blocks, R: Node, s: seq<Phys>, s0: seq<Phys>, path: seq<Step>, l: u32)
    requires Sound(B0, R0) && Plain(Flat(B0, R0.depth, R0.slots)) && LeadsTo(B0, R0, path, l)
    requires Usable(s0, Owned(B0, R0.depth, R0.slots)) && s0 != [] && s == s0[1..] && MergesAt(B0, R0, s0, path, l)
    requires Linked(B, R) && Owned(B, R.depth, R.slots) == Owned(B0, R0.depth, R0.slots) && R.depth == R0.depth
    requires l < MAX_BLOCKS ==> Gains(Flat(B0, R0.depth, R0.slots), Flat(B, R.depth, R.slots), NewExtent(l, s0[0]))
    requires l == MAX_BLOCKS ==> B == B0 && R == R0
    ensures Created(B0, R0, s0, path, l, B, R, s)
  {
    hide Flat;
    hide Owned;
    hide Forest;
    hide Mapped;
    hide Gains;
    hide Plain;
    hide Linked;
    hide Usable;
    hide MergesAt;
    hide BlocksNeeded;
    hide AllFull;
    hide Descends;
    hide LeafAnswer;
    NoneUsed(s0, Owned(B0, R0.depth, R0.slots));
    if l < MAX_BLOCKS {
      CreatedMeans(Flat(B0, R0.depth, R0.slots), Flat(B, R.depth, R.slots), l, s0[0]);
    }
    LinkedSound(B, R);
    DeepIsRefused(R);
    SoundDepth(B0, R0);
    PlainIsSorted(Flat(B, R.depth, R.slots));
  }

  lemma CreatedByInsert(B0: Blocks, R0: Node, B: Blocks, R: Node, s: seq<Phys>, s0: seq<Phys>, path: seq<Step>, l: u32)
    requires Sound(B0, R0) && Plain(Flat(B0, R0.depth, R0.slots)) && LeadsTo(B0, R0, path, l)
    requires Usable(s0, Owned(B0, R0.depth, R0.slots)) && s0 != [] && !MergesAt(B0, R0, s0, path, l)
    requires |s0[1..]| >= BlocksNeeded(B0, R0, path) && s == s0[1..][BlocksNeeded(B0, R0, path)..]
    requires Linked(B, R) && Gains(Flat(B0, R0.depth, R0.slots), Flat(B, R.depth, R.slots), NewExtent(l, s0[0]))
    requires Owned(B, R.depth, R.slots) == Owned(B0, R0.depth, R0.slots) + FirstOf(s0[1..], BlocksNeeded(B0, R0, path))
    requires R.depth == R0.depth + (if AllFull(B0, R0, path) then 1 else 0)
    ensures Created(B0, R0, s0, path, l, B, R, s)
  {
    hide Flat;
    hide Owned;
    hide Forest;
    hide Mapped;
    hide Gains;
    hide Plain;
    hide Linked;
    hide Usable;
    hide MergesAt;
    hide BlocksNeeded;
    hide AllFull;
    hide Descends;
    hide LeafAnswer;
    SomeUsed(s0, Owned(B0, R0.depth, R0.slots), BlocksNeeded(B0, R0, path));
    CreatedMeans(Flat(B0, R0.depth, R0.slots), Flat(B, R.depth, R.slots), l, s0[0]);
    LinkedSound(B, R);
    DeepIsRefused(R);
    PlainIsSorted(Flat(B, R.depth, R.slots));
  }

  lemma DeepIsRefused(R: Node)
    ensures R.depth > MAX_EXTENT_DEPTH ==> !WellKept(R, ROOT_CAPACITY)
  {
  }

  lemma SoundDepth(B: Blocks, R: Node)
    requires Sound(B, R)
    ensures R.depth <= MAX_EXTENT_DEPTH
  {
  }

  lemma PlainIsSorted(extents: seq<Slot>)
    ensures Plain(extents) ==> Sorted(extents)
  {
  }

  /** What is lost when the allocator runs dry. */
  lemma LossMeans(before: seq<Slot>, after: seq<Slot>, l: u32, p: Phys, lost: seq<Slot>, B: Blocks, R: Node)
    requires Plain(before) && Tears(before, after, NewExtent(l, p), lost) && |lost| >= 2
    requires Linked(B, R) && after == Flat(B, R.depth, R.slots) && R.depth <= MAX_EXTENT_DEPTH && l < MAX_BLOCKS
    ensures Sound(B, R) && Plain(after)
    ensures forall m: int :: Mapped(after, m) == if CoveredBy(lost, m) then None else if m == l then Some(p as nat)
                             else Mapped(before, m)
    ensures exists m: int :: m != l && Mapped(before, m).Some? && Mapped(after, m) == None
  {
    hide Flat;
    hide Forest;
    hide Mapped;
    hide Plain;
    hide Linked;
    hide Tears;
    hide CoveredBy;
    hide NewExtent;
    NewExtentFacts(l, p);
    forall m: int
      ensures Mapped(after, m) == if CoveredBy(lost, m) then None else if m == l then Some(p as nat)
              else Mapped(before, m)
    {
      TearsMaps(before, after, NewExtent(l, p), lost, m);
    }
    TearsMaps(before, after, NewExtent(l, p), lost, l);
    var m := BlockLost(before, after, NewExtent(l, p), lost);
    LinkedSound(B, R);
    PlainIsSorted(after);
  }

  /** The allocator ran dry: the tree that is left is sound and has gained the
      new block, but exactly the extents below the pending entries are lost, of
      which at least one was mapped before. */
  ghost predicate RanDry(B0: Blocks, R0: Node, s0: seq<Phys>, B: Blocks, R: Node, s: seq<Phys>, l: u32, trail: Trail) {
    && s0 != [] && s == [] && Linked(B, R) && R.depth == R0.depth && trail.level < |trail.path|
    && StoppedAt(B0, R0, B, R, s0[1..], trail.path, trail.level, trail.pending, NewExtent(l, s0[0]))
    && trail.lost == Flat(B, At(B, R, trail.path, trail.level).depth, trail.pending) && |trail.lost| >= 2
    && var before, after := Flat(B0, R0.depth, R0.slots), Flat(B, R.depth, R.slots);
       && Tears(before, after, NewExtent(l, s0[0]), trail.lost)
       && (l < MAX_BLOCKS ==> Sound(B, R) && Plain(after) && MapsBut(before, after, l, s0[0], trail.lost))
  }

  lemma LostWhenDry(B0: Blocks, R0: Node, s0: seq<Phys>, B: Blocks, R: Node, s: seq<Phys>, l: u32, trail: Trail)
    requires Sound(B0, R0) && Plain(Flat(B0, R0.depth, R0.slots))
    requires s0 != [] && s == [] && Linked(B, R) && R.depth == R0.depth && trail.level < |trail.path|
    requires StoppedAt(B0, R0, B, R, s0[1..], trail.path, trail.level, trail.pending, NewExtent(l, s0[0]))
    requires trail.lost == Flat(B, At(B, R, trail.path, trail.level).depth, trail.pending) && |trail.lost| >= 2
    requires Tears(Flat(B0, R0.depth, R0.slots), Flat(B, R.depth, R.slots), NewExtent(l, s0[0]), trail.lost)
    ensures RanDry(B0, R0, s0, B, R, s, l, trail)
  {
    hide Flat;
    hide Forest;
    hide Mapped;
    hide Plain;
    hide Linked;
    hide Sound;
    hide Tears;
    hide CoveredBy;
    hide StoppedAt;
    hide NewExtent;
    SoundDepth(B0, R0);
    if l < MAX_BLOCKS {
      LossMeans(Flat(B0, R0.depth, R0.slots), Flat(B, R.depth, R.slots), l, s0[0], trail.lost, B, R);
    }
  }
}
