/** What an extent tree means: the list of extents at its leaves and the map
    they define.  A list of entries of one depth is read as a forest, so that a
    node, the two halves of a split node, and the children to the left and
    right of a path are all described by the same functions. */
module ExtentForest {
  import opened Bytes
  import opened ExtentNode

  type Blocks = map<nat, Node>

  function Kid(blocks: Blocks, b: nat): Node {
    if b in blocks then blocks[b] else Node(0, 0, [])
  }

  /** The extents below these entries, in order. */
  ghost function Flat(blocks: Blocks, depth: nat, slots: seq<Slot>): seq<Slot>
    decreases depth, |slots|
  {
    if depth == 0 then slots
    else if slots == [] then []
    else
      var n := |slots| - 1;
      Flat(blocks, depth, slots[..n]) + Flat(blocks, depth - 1, Kid(blocks, slots[n].target).slots)
  }

  /** The tree blocks below these entries. */
  ghost function Owned(blocks: Blocks, depth: nat, slots: seq<Slot>): set<nat>
    decreases depth, |slots|
  {
    if depth == 0 || slots == [] then {}
    else
      var n := |slots| - 1;
      Owned(blocks, depth, slots[..n]) + {slots[n].target as nat}
      + Owned(blocks, depth - 1, Kid(blocks, slots[n].target).slots)
  }

  /** `s` is an index entry for a sound child of the given depth: its key is the
      first key of the child. */
  ghost predicate IndexEntry(blocks: Blocks, depth: nat, s: Slot) {
    && s.target != 0 && s.target in blocks
    && var kid := blocks[s.target];
    && kid.depth == depth
    && 0 < |kid.slots| <= kid.max == BLOCK_CAPACITY
    && kid.slots[0].key == s.key
  }

  /** Sound children, no block used twice. */
  ghost predicate Forest(blocks: Blocks, depth: nat, slots: seq<Slot>)
    decreases depth, |slots|
  {
    depth == 0 || slots == [] ||
    (var n := |slots| - 1;
     var s := slots[n];
     var kid := Kid(blocks, s.target);
     && Forest(blocks, depth, slots[..n])
     && IndexEntry(blocks, depth - 1, s)
     && Forest(blocks, depth - 1, kid.slots)
     && s.target !in Owned(blocks, depth, slots[..n])
     && s.target !in Owned(blocks, depth - 1, kid.slots)
     && Owned(blocks, depth, slots[..n]) !! Owned(blocks, depth - 1, kid.slots))
  }

  lemma Concat(blocks: Blocks, depth: nat, a: seq<Slot>, b: seq<Slot>)
    ensures Flat(blocks, depth, a + b) == Flat(blocks, depth, a) + Flat(blocks, depth, b)
    ensures Owned(blocks, depth, a + b) == Owned(blocks, depth, a) + Owned(blocks, depth, b)
    ensures Forest(blocks, depth, a + b)
            <==> Forest(blocks, depth, a) && Forest(blocks, depth, b)
                 && Owned(blocks, depth, a) !! Owned(blocks, depth, b)
  {
    hide *;
    FlatConcat(blocks, depth, a, b);
    OwnedConcat(blocks, depth, a, b);
    ForestConcat(blocks, depth, a, b);
  }

  lemma {:induction false} FlatConcat(blocks: Blocks, depth: nat, a: seq<Slot>, b: seq<Slot>)
    ensures Flat(blocks, depth, a + b) == Flat(blocks, depth, a) + Flat(blocks, depth, b)
    decreases |b|
  {
    if b == [] {
      assert a + b == a;
    } else if depth > 0 {
      var n := |b| - 1;
      assert (a + b)[..|a + b| - 1] == a + b[..n];
      FlatConcat(blocks, depth, a, b[..n]);
      Join(Flat(blocks, depth, a), Flat(blocks, depth, b[..n]),
           Flat(blocks, depth - 1, Kid(blocks, b[n].target).slots));
    }
  }

  lemma {:induction false} OwnedConcat(blocks: Blocks, depth: nat, a: seq<Slot>, b: seq<Slot>)
    ensures Owned(blocks, depth, a + b) == Owned(blocks, depth, a) + Owned(blocks, depth, b)
    decreases |b|
  {
    if b == [] {
      assert a + b == a;
    } else if depth > 0 {
      assert (a + b)[..|a + b| - 1] == a + b[..|b| - 1];
      OwnedConcat(blocks, depth, a, b[..|b| - 1]);
    }
  }

  lemma {:induction false} ForestConcat(blocks: Blocks, depth: nat, a: seq<Slot>, b: seq<Slot>)
    ensures Forest(blocks, depth, a + b)
            <==> Forest(blocks, depth, a) && Forest(blocks, depth, b)
                 && Owned(blocks, depth, a) !! Owned(blocks, depth, b)
    decreases |b|
  {
    hide IndexEntry;
    hide Flat;
    if b == [] {
      assert a + b == a;
      assert Owned(blocks, depth, b) == {};
    } else if depth > 0 {
      assert (a + b)[..|a + b| - 1] == a + b[..|b| - 1];
      ForestConcat(blocks, depth, a, b[..|b| - 1]);
      OwnedConcat(blocks, depth, a, b[..|b| - 1]);
    }
  }

  lemma Join<T>(a: seq<T>, b: seq<T>, c: seq<T>)
    ensures a + b + c == a + (b + c)
  {
  }

  lemma One(blocks: Blocks, depth: nat, s: Slot)
    requires depth > 0
    ensures var kid := Kid(blocks, s.target).slots;
            && Flat(blocks, depth, [s]) == Flat(blocks, depth - 1, kid)
            && Owned(blocks, depth, [s]) == {s.target as nat} + Owned(blocks, depth - 1, kid)
            && (Forest(blocks, depth, [s]) <==>
                  && IndexEntry(blocks, depth - 1, s)
                  && Forest(blocks, depth - 1, kid)
                  && s.target !in Owned(blocks, depth - 1, kid))
  {
    assert [s][..0] == [];
    assert Flat(blocks, depth, []) == [];
    assert Owned(blocks, depth, []) == {};
  }

  ghost predicate Agree(a: Blocks, b: Blocks, on: set<nat>) {
    forall t :: t in on ==> (t in a <==> t in b) && (t in a ==> a[t] == b[t])
  }

  /** A forest only depends on the blocks it owns. */
  lemma Frame(a: Blocks, b: Blocks, depth: nat, slots: seq<Slot>)
    requires Agree(a, b, Owned(a, depth, slots))
    ensures Flat(b, depth, slots) == Flat(a, depth, slots)
    ensures Owned(b, depth, slots) == Owned(a, depth, slots)
    ensures Forest(b, depth, slots) == Forest(a, depth, slots)
  {
    hide *;
    FrameOwned(a, b, depth, slots);
    FrameForest(a, b, depth, slots);
  }

  lemma {:induction false} FrameOwned(a: Blocks, b: Blocks, depth: nat, slots: seq<Slot>)
    requires Agree(a, b, Owned(a, depth, slots))
    ensures Owned(b, depth, slots) == Owned(a, depth, slots)
    ensures Flat(b, depth, slots) == Flat(a, depth, slots)
    decreases depth, |slots|
  {
    if depth > 0 && slots != [] {
      var n := |slots| - 1;
      FrameOwned(a, b, depth, slots[..n]);
      FrameOwned(a, b, depth - 1, Kid(a, slots[n].target).slots);
    }
  }

  lemma {:induction false} FrameForest(a: Blocks, b: Blocks, depth: nat, slots: seq<Slot>)
    requires Agree(a, b, Owned(a, depth, slots))
    ensures Forest(b, depth, slots) == Forest(a, depth, slots)
    decreases depth, |slots|
  {
    hide Flat;
    hide Owned;
    hide Forest;
    hide IndexEntry;
    if depth > 0 && slots != [] {
      var n := |slots| - 1;
      var kid := Kid(a, slots[n].target).slots;
      AgreeInside(a, b, depth, slots);
      ForestUnfolds(a, depth, slots);
      ForestUnfolds(b, depth, slots);
      FrameForest(a, b, depth, slots[..n]);
      FrameForest(a, b, depth - 1, kid);
      FrameOwned(a, b, depth, slots[..n]);
      FrameOwned(a, b, depth - 1, kid);
    } else {
      NoForest(a, depth, slots);
      NoForest(b, depth, slots);
    }
  }

  lemma AgreeInside(a: Blocks, b: Blocks, depth: nat, slots: seq<Slot>)
    requires depth > 0 && slots != [] && Agree(a, b, Owned(a, depth, slots))
    ensures var n := |slots| - 1;
            && Agree(a, b, Owned(a, depth, slots[..n]))
            && Agree(a, b, Owned(a, depth - 1, Kid(a, slots[n].target).slots))
            && Kid(b, slots[n].target) == Kid(a, slots[n].target)
            && IndexEntry(b, depth - 1, slots[n]) == IndexEntry(a, depth - 1, slots[n])
  {
  }

  lemma ForestUnfolds(blocks: Blocks, depth: nat, slots: seq<Slot>)
    requires depth > 0 && slots != []
    ensures var n := |slots| - 1;
            var s := slots[n];
            var kid := Kid(blocks, s.target).slots;
            Forest(blocks, depth, slots) <==>
              && Forest(blocks, depth, slots[..n]) && IndexEntry(blocks, depth - 1, s)
              && Forest(blocks, depth - 1, kid)
              && s.target !in Owned(blocks, depth, slots[..n]) && s.target !in Owned(blocks, depth - 1, kid)
              && Owned(blocks, depth, slots[..n]) !! Owned(blocks, depth - 1, kid)
  {
    hide IndexEntry;
    hide Owned;
  }

  lemma NoForest(blocks: Blocks, depth: nat, slots: seq<Slot>)
    ensures depth == 0 || slots == [] ==> Forest(blocks, depth, slots)
  {
  }

  /** Every index key is the first logical block below it. */
  lemma {:induction false} FirstKey(blocks: Blocks, depth: nat, slots: seq<Slot>)
    requires Forest(blocks, depth, slots) && slots != []
    ensures Flat(blocks, depth, slots) != [] && Flat(blocks, depth, slots)[0].key == slots[0].key
    decreases depth, |slots|
  {
    if depth > 0 {
      var n := |slots| - 1;
      if n == 0 {
        assert slots == [slots[0]];
        One(blocks, depth, slots[0]);
        FirstKey(blocks, depth - 1, Kid(blocks, slots[0].target).slots);
      } else {
        FirstKey(blocks, depth, slots[..n]);
      }
    }
  }

  lemma SortedParts(a: seq<Slot>, b: seq<Slot>)
    requires Sorted(a + b)
    ensures Sorted(a) && Sorted(b)
    ensures forall e, f :: e in a && f in b ==> e.End() <= f.key
  {
    var all := a + b;
    forall i | 0 <= i < |a| ensures a[i] == all[i] {}
    forall i | 0 <= i < |b| ensures b[i] == all[|a| + i] {}
    forall e, f | e in a && f in b
      ensures e.End() <= f.key
    {
      var i :| 0 <= i < |a| && a[i] == e;
      var j :| 0 <= j < |b| && b[j] == f;
      assert all[i].End() <= all[|a| + j].key;
    }
  }

  /** Cut a forest at entry `i`. */
  lemma CutAt(blocks: Blocks, depth: nat, slots: seq<Slot>, i: nat)
    requires i < |slots| && depth > 0 && Forest(blocks, depth, slots) && Sorted(Flat(blocks, depth, slots))
    ensures var s := slots[i];
            var kid := Kid(blocks, s.target).slots;
            var before, inside, after := Flat(blocks, depth, slots[..i]), Flat(blocks, depth - 1, kid),
                                         Flat(blocks, depth, slots[i + 1..]);
            && IndexEntry(blocks, depth - 1, s) && Forest(blocks, depth - 1, kid)
            && s.target !in Owned(blocks, depth - 1, kid)
            && Forest(blocks, depth, slots[..i]) && Forest(blocks, depth, slots[i + 1..])
            && Flat(blocks, depth, slots) == before + inside + after
            && Owned(blocks, depth, slots)
               == Owned(blocks, depth, slots[..i]) + ({s.target as nat} + Owned(blocks, depth - 1, kid))
                  + Owned(blocks, depth, slots[i + 1..])
            && Owned(blocks, depth, slots[..i]) !! ({s.target as nat} + Owned(blocks, depth - 1, kid))
            && Owned(blocks, depth, slots[..i])
               + ({s.target as nat} + Owned(blocks, depth - 1, kid)) !! Owned(blocks, depth, slots[i + 1..])
            && Sorted(before) && Sorted(inside) && Sorted(after)
            && inside != [] && inside[0].key == s.key
            && (forall e :: e in before ==> e.End() <= s.key)
            && (forall e :: e in after ==> s.key < e.key)
  {
    hide Flat;
    hide Owned;
    hide Forest;
    hide IndexEntry;
    var s := slots[i];
    var kid := Kid(blocks, s.target).slots;
    assert slots == slots[..i] + [s] + slots[i + 1..];
    Concat(blocks, depth, slots[..i] + [s], slots[i + 1..]);
    Concat(blocks, depth, slots[..i], [s]);
    One(blocks, depth, s);
    IndexFacts(blocks, depth - 1, s);
    FirstKey(blocks, depth - 1, kid);
    var before, inside, after := Flat(blocks, depth, slots[..i]), Flat(blocks, depth - 1, kid),
                                 Flat(blocks, depth, slots[i + 1..]);
    SortedAround(before, inside, after, s.key);
  }

  lemma SortedAround(before: seq<Slot>, inside: seq<Slot>, after: seq<Slot>, key: u32)
    requires Sorted(before + inside + after) && inside != [] && inside[0].key == key
    ensures Sorted(before) && Sorted(inside) && Sorted(after)
    ensures forall e :: e in before ==> e.End() <= key
    ensures forall e :: e in after ==> key < e.key
  {
    SortedParts(before + inside, after);
    SortedParts(before, inside);
    assert inside[0] in inside && inside[0] in before + inside;
  }

  lemma IndexFacts(blocks: Blocks, depth: nat, s: Slot)
    requires IndexEntry(blocks, depth, s)
    ensures s.target != 0 && s.target in blocks && Kid(blocks, s.target) == blocks[s.target]
    ensures blocks[s.target].depth == depth && 0 < |blocks[s.target].slots| <= blocks[s.target].max == BLOCK_CAPACITY
    ensures blocks[s.target].slots[0].key == s.key
  {
  }

  /** Index entries ascend because the extents do. */
  lemma KeysAscend(blocks: Blocks, depth: nat, slots: seq<Slot>)
    requires depth > 0 && Forest(blocks, depth, slots) && Sorted(Flat(blocks, depth, slots))
    ensures Ascending(slots)
  {
    hide Flat;
    hide Owned;
    hide Forest;
    forall i, j | 0 <= i < j < |slots|
      ensures slots[i].key < slots[j].key
    {
      CutAt(blocks, depth, slots, i);
      var rest := slots[i + 1..];
      assert rest[j - i - 1] == slots[j];
      assert rest == rest[..j - i - 1] + [slots[j]] + rest[j - i..];
      InLaterPart(blocks, depth, rest, j - i - 1);
    }
  }

  lemma InLaterPart(blocks: Blocks, depth: nat, slots: seq<Slot>, j: nat)
    requires depth > 0 && j < |slots| && Forest(blocks, depth, slots) && Sorted(Flat(blocks, depth, slots))
    ensures exists e :: e in Flat(blocks, depth, slots) && e.key == slots[j].key
  {
    hide Flat;
    hide Owned;
    hide Forest;
    CutAt(blocks, depth, slots, j);
    var inside := Flat(blocks, depth - 1, Kid(blocks, slots[j].target).slots);
    assert inside[0] in inside;
    assert inside[0] in Flat(blocks, depth, slots);
  }

  // ---- The map -------------------------------------------------------------------

  /** Where the extents put logical block `l`. */
  ghost function Mapped(extents: seq<Slot>, l: int): Option<nat>
    decreases |extents|
  {
    if extents == [] then None
    else
      var e := extents[|extents| - 1];
      if e.Covers(l) && !e.Unwritten() then Some(e.target + (l - e.key))
      else Mapped(extents[..|extents| - 1], l)
  }

  lemma {:induction false} MappedConcat(a: seq<Slot>, b: seq<Slot>, l: int)
    ensures Mapped(a + b, l) == if Mapped(b, l).Some? then Mapped(b, l) else Mapped(a, l)
    decreases |b|
  {
    if b == [] {
      assert a + b == a;
    } else {
      assert (a + b)[..|a + b| - 1] == a + b[..|b| - 1];
      MappedConcat(a, b[..|b| - 1], l);
    }
  }

  lemma {:induction false} MappedNowhere(extents: seq<Slot>, l: int)
    requires forall e :: e in extents ==> !e.Covers(l) || e.Unwritten()
    ensures Mapped(extents, l) == None
    decreases |extents|
  {
    if extents != [] {
      assert extents[|extents| - 1] in extents;
      MappedNowhere(extents[..|extents| - 1], l);
    }
  }

  /** Only the part between `before` and `after` can map `l`. */
  lemma MappedInside(before: seq<Slot>, inside: seq<Slot>, after: seq<Slot>, l: int)
    requires forall e :: e in before ==> e.End() <= l
    requires forall e :: e in after ==> l < e.key
    ensures Mapped(before + inside + after, l) == Mapped(inside, l)
  {
    MappedConcat(before + inside, after, l);
    MappedConcat(before, inside, l);
    MappedNowhere(before, l);
    MappedNowhere(after, l);
  }

  lemma MappedAt(extents: seq<Slot>, i: nat, l: int)
    requires i < |extents| && Sorted(extents) && extents[i].Covers(l)
    ensures Mapped(extents, l) == if extents[i].Unwritten() then None
            else Some(extents[i].target + (l - extents[i].key))
  {
    hide Mapped;
    var e := extents[i];
    assert extents == extents[..i] + [e] + extents[i + 1..];
    MappedInside(extents[..i], [e], extents[i + 1..], l);
    MappedOne(e, l);
  }

  lemma MappedOne(e: Slot, l: int)
    ensures Mapped([e], l) == if e.Covers(l) && !e.Unwritten() then Some(e.target + (l - e.key)) else None
  {
    assert [e][..0] == [];
    assert Mapped([], l) == None;
  }

  // ---- Gaining one block -----------------------------------------------------------

  function Merged(e: Slot, x: Slot): Slot
    requires CanAppend(e, x)
  {
    e.(count := e.Len() + x.Len())
  }

  /** `x` goes at position `p`: as an extent of its own, or, unless it is empty,
      at the end of its predecessor. */
  ghost predicate GainsAt(before: seq<Slot>, after: seq<Slot>, x: Slot, p: nat) {
    && p <= |before|
    && (forall i :: 0 <= i < p ==> before[i].End() <= x.key)
    && (forall i :: p <= i < |before| ==> x.key < before[i].key)
    && (|| after == Inserted(before, x, p)
        || (p > 0 && x.Len() > 0 && CanAppend(before[p - 1], x) && after == before[p - 1 := Merged(before[p - 1], x)]))
  }

  ghost predicate Gains(before: seq<Slot>, after: seq<Slot>, x: Slot) {
    exists p :: GainsAt(before, after, x, p)
  }

  lemma GainsByInsert(left: seq<Slot>, x: Slot, right: seq<Slot>)
    requires forall e :: e in left ==> e.End() <= x.key
    requires forall e :: e in right ==> x.key < e.key
    ensures Gains(left + right, left + [x] + right, x)
  {
    var whole := left + right;
    assert left + [x] + right == Inserted(whole, x, |left|);
    assert GainsAt(whole, left + [x] + right, x, |left|);
  }

  lemma GainsByMerge(left: seq<Slot>, e: Slot, x: Slot, right: seq<Slot>)
    requires CanAppend(e, x) && x.Len() > 0
    requires forall f :: f in left ==> f.End() <= x.key
    requires forall f :: f in right ==> x.key < f.key
    ensures Gains(left + [e] + right, left + [Merged(e, x)] + right, x)
  {
    var whole := left + [e] + right;
    assert left + [Merged(e, x)] + right == whole[|left| := Merged(e, x)];
    assert GainsAt(whole, left + [Merged(e, x)] + right, x, |left| + 1);
  }

  /** The position at which `x` goes. */
  lemma GainsPosition(before: seq<Slot>, after: seq<Slot>, x: Slot)
    returns (left: seq<Slot>, right: seq<Slot>, merged: Option<Slot>)
    requires Gains(before, after, x)
    ensures forall e :: e in right ==> x.key < e.key
    ensures forall e :: e in left ==> e.End() <= x.key
    ensures merged.None? ==> before == left + right && after == left + [x] + right
    ensures merged.Some? ==>
              && CanAppend(merged.value, x) && x.Len() > 0
              && before == left + [merged.value] + right && after == left + [Merged(merged.value, x)] + right
  {
    hide CanAppend;
    var p: nat :| GainsAt(before, after, x, p);
    right := before[p..];
    if after == Inserted(before, x, p) {
      left, merged := before[..p], None;
    } else {
      left, merged := before[..p - 1], Some(before[p - 1]);
    }
  }

  lemma Embed<T>(l: seq<T>, a: seq<T>, m: seq<T>, b: seq<T>, r: seq<T>)
    ensures l + (a + m + b) + r == (l + a) + m + (b + r)
    ensures l + (a + b) + r == (l + a) + (b + r)
  {
  }

  /** The same change seen from a larger list. */
  lemma GainsLifts(left: seq<Slot>, before: seq<Slot>, after: seq<Slot>, right: seq<Slot>, x: Slot)
    requires Gains(before, after, x)
    requires forall e :: e in left ==> e.End() <= x.key
    requires forall e :: e in right ==> x.key < e.key
    ensures Gains(left + before + right, left + after + right, x)
  {
    hide Gains;
    hide CanAppend;
    var l, r, merged := GainsPosition(before, after, x);
    if merged.None? {
      Embed(left, l, [x], r, right);
      GainsByInsert(left + l, x, r + right);
    } else {
      Embed(left, l, [merged.value], r, right);
      Embed(left, l, [Merged(merged.value, x)], r, right);
      GainsByMerge(left + l, merged.value, x, r + right);
    }
  }

  lemma GainsKeepsFirst(before: seq<Slot>, after: seq<Slot>, x: Slot)
    requires Gains(before, after, x) && before != [] && before[0].key <= x.key && before[0].Len() > 0
    ensures after != [] && after[0].key == before[0].key
  {
    var p :| GainsAt(before, after, x, p);
    assert p > 0;
  }

  lemma SortedJoin(a: seq<Slot>, b: seq<Slot>)
    requires Sorted(a) && Sorted(b) && forall e, f :: e in a && f in b ==> e.End() <= f.key
    ensures Sorted(a + b)
  {
    var all := a + b;
    forall i | 0 <= i < |all|
      ensures all[i].Len() > 0 && all[i].End() < U32_LIMIT
    {
      assert all[i] == if i < |a| then a[i] else b[i - |a|];
    }
    forall i, j | 0 <= i < j < |all|
      ensures all[i].End() <= all[j].key
    {
      assert all[i] == if i < |a| then a[i] else b[i - |a|];
      assert all[j] == if j < |a| then a[j] else b[j - |a|];
    }
  }

  lemma MappedSplit(left: seq<Slot>, right: seq<Slot>, l: int, key: int)
    requires forall f :: f in left ==> f.End() <= key
    requires forall f :: f in right ==> key <= f.key
    ensures Mapped(left + right, l) == if l < key then Mapped(left, l) else Mapped(right, l)
  {
    hide Mapped;
    MappedConcat(left, right, l);
    if l >= key {
      MappedNowhere(left, l);
    } else {
      MappedNowhere(right, l);
    }
  }

  /** Everything in `a` ends where, or before, everything in `b` begins. */
  ghost predicate Precedes(a: seq<Slot>, b: seq<Slot>) {
    forall e, f :: e in a && f in b ==> e.End() <= f.key
  }

  /** Sorted, and nothing unwritten. */
  ghost predicate Plain(extents: seq<Slot>) {
    Sorted(extents) && AllWritten(extents)
  }

  lemma PlainConcat(a: seq<Slot>, b: seq<Slot>)
    ensures Plain(a + b) <==> Plain(a) && Plain(b) && Precedes(a, b)
  {
    if Plain(a + b) {
      SortedParts(a, b);
      assert forall e :: e in a ==> e in a + b;
      assert forall e :: e in b ==> e in a + b;
    }
    if Plain(a) && Plain(b) && Precedes(a, b) {
      SortedJoin(a, b);
    }
  }

  lemma PlainOne(e: Slot)
    ensures Plain([e]) <==> e.Len() > 0 && e.End() < U32_LIMIT && !e.Unwritten()
  {
    if !e.Unwritten() {
      assert AllWritten([e]);
    } else {
      assert e in [e];
    }
    assert [e][0] == e;
  }

  lemma PrecedesConcat(a: seq<Slot>, b: seq<Slot>, c: seq<Slot>)
    ensures Precedes(a + b, c) <==> Precedes(a, c) && Precedes(b, c)
    ensures Precedes(c, a + b) <==> Precedes(c, a) && Precedes(c, b)
  {
  }

  lemma PrecedesOne(a: seq<Slot>, e: Slot)
    ensures Precedes(a, [e]) <==> forall f :: f in a ==> f.End() <= e.key
    ensures Precedes([e], a) <==> forall f :: f in a ==> e.End() <= f.key
  {
    assert e in [e];
  }

  /** One mapping is added and every other one stays. */
  lemma GainsMaps(before: seq<Slot>, after: seq<Slot>, x: Slot, l: int)
    requires Gains(before, after, x) && Plain(before)
    requires x.Len() == 1 && !x.Unwritten() && x.End() < U32_LIMIT
    ensures Plain(after)
    ensures Mapped(after, l) == if l == x.key then Some(x.target as nat) else Mapped(before, l)
    ensures Mapped(before, x.key) == None
  {
    hide *;
    var left, right, merged := GainsPosition(before, after, x);
    if merged.None? {
      InsertedMaps(left, x, right, l);
    } else {
      MergedMaps(left, merged.value, x, right, l);
    }
  }

  lemma InsertedMaps(left: seq<Slot>, x: Slot, right: seq<Slot>, l: int)
    requires Plain(left + right)
    requires forall e :: e in left ==> e.End() <= x.key
    requires forall e :: e in right ==> x.key < e.key
    requires x.Len() == 1 && !x.Unwritten() && x.End() < U32_LIMIT
    ensures Plain(left + [x] + right)
    ensures Mapped(left + [x] + right, l) == if l == x.key then Some(x.target as nat) else Mapped(left + right, l)
    ensures Mapped(left + right, x.key) == None
  {
    hide Mapped;
    hide Plain;
    hide Precedes;
    PlainConcat(left, right);
    PlainOne(x);
    PrecedesOne(left, x);
    PrecedesOne(right, x);
    PrecedesConcat(left, [x], right);
    PlainConcat(left, [x]);
    PlainConcat(left + [x], right);
    MappedSplit(left + [x], right, l, x.key + 1);
    MappedSplit(left, [x], l, x.key);
    MappedOne(x, l);
    MappedSplit(left, right, l, x.key + 1);
    MappedSplit(left, right, x.key, x.key);
    MappedNowhere(right, x.key);
    if l == x.key {
      MappedNowhere(left, l);
    }
  }

  lemma MergedMaps(left: seq<Slot>, e: Slot, x: Slot, right: seq<Slot>, l: int)
    requires Plain(left + [e] + right)
    requires CanAppend(e, x) && forall f :: f in right ==> x.key < f.key
    requires x.Len() == 1 && !x.Unwritten() && x.End() < U32_LIMIT
    ensures var m := Merged(e, x);
            && Plain(left + [m] + right)
            && Mapped(left + [m] + right, l)
               == (if l == x.key then Some(x.target as nat) else Mapped(left + [e] + right, l))
            && Mapped(left + [e] + right, x.key) == None
  {
    hide Mapped;
    hide Plain;
    hide Precedes;
    var m := Merged(e, x);
    PlainConcat(left + [e], right);
    PlainConcat(left, [e]);
    PlainOne(e);
    MergedShape(e, x);
    PlainOne(m);
    PrecedesOne(left, e);
    PrecedesOne(left, m);
    PrecedesOne(right, m);
    PrecedesConcat(left, [e], right);
    PrecedesConcat(left, [m], right);
    PlainConcat(left, [m]);
    PlainConcat(left + [m], right);
    MappedSplit(left + [m], right, l, x.key + 1);
    MappedSplit(left, [m], l, e.key);
    MappedAfter(left, e, l);
    MappedAfter(left, e, x.key);
    MappedSplit(left + [e], right, l, x.key);
    MappedSplit(left + [e], right, x.key, x.key);
    MappedSplit(left, [e], l, e.key);
    MappedOne(e, l);
    MappedOne(m, l);
    MappedNowhere(right, x.key);
  }

  lemma MergedShape(e: Slot, x: Slot)
    requires CanAppend(e, x) && !e.Unwritten() && x.Len() == 1
    ensures var m := Merged(e, x);
            m.key == e.key && m.target == e.target && m.Len() == e.Len() + 1 && m.End() == x.key + 1 && !m.Unwritten()
            && e.End() == x.key && x.target == e.target + e.Len()
  {
  }

  lemma MappedAfter(left: seq<Slot>, e: Slot, l: int)
    requires forall f :: f in left ==> f.End() <= e.key
    ensures l >= e.End() ==> Mapped(left + [e], l) == None
    ensures forall f :: f in left + [e] ==> f.End() <= e.End()
  {
    if l >= e.End() {
      MappedNowhere(left + [e], l);
    }
  }
}
