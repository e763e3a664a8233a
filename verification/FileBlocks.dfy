/** All files together: no block belongs to two of them, except that several may
    share a block of attributes, which counts them; and what one of them gives
    up is released without touching the others. */
module FileBlocks {
  import opened Bytes
  import opened RangeIndex
  import opened Allocator
  import opened ExtentNode
  import opened ExtentForest
  import opened ExtentPath
  import opened ExtentTree
  import opened Reclaim
  import XattrRelease

  /** The part of an inode that tells which blocks it owns, and its attribute
      block, or zero. */
  datatype File = File(root: Node, nodes: Blocks, count: nat, size: nat, attr: nat)
  {
    ghost function Extents(): seq<Slot> {
      Flat(nodes, root.depth, root.slots)
    }

    ghost function Owns(): set<nat> {
      Data(Extents()) + Owned(nodes, root.depth, root.slots)
    }

    /** What the block count counts beyond that. */
    ghost function Surplus(): int {
      count - Count(Extents()) - |Owned(nodes, root.depth, root.slots)|
    }
  }

  /** All inodes, the attribute blocks, and the allocation metadata. */
  datatype Store = Store(files: map<nat, File>, images: map<nat, Block>, space: Space)

  /** The attribute block of the file, if it has one, passes the check before
      its release. */
  ghost predicate AttrFine(st: Store, n: nat) {
    n in st.files && st.files[n].attr != 0 ==>
      var b := st.files[n].attr; b in st.images && XattrRelease.Detaches(st.images[b])
  }

  /** How the code refuses it otherwise. */
  ghost function AttrError(st: Store, n: nat): ErrCode {
    if n in st.files && st.files[n].attr in st.images && XattrRelease.Releases(st.images[st.files[n].attr]) then ENOTSUP
    else EIO
  }

  /** The attribute blocks pass the check as they did. */
  ghost predicate SameChecks(was: map<nat, Block>, now: map<nat, Block>) {
    && now.Keys == was.Keys
    && forall b :: b in was ==> (XattrRelease.Detaches(now[b]) <==> XattrRelease.Detaches(was[b]))
  }

  lemma SameChecksTwice(a: map<nat, Block>, b: map<nat, Block>, c: map<nat, Block>)
    requires SameChecks(a, b) && SameChecks(b, c)
    ensures SameChecks(a, c)
  {
    hide XattrRelease.Detaches;
  }

  lemma AttrStillFine(was: Store, now: Store, n: nat)
    requires SameChecks(was.images, now.images) && (n in was.files <==> n in now.files)
    requires n in was.files ==> now.files[n].attr == was.files[n].attr
    ensures AttrFine(now, n) <==> AttrFine(was, n)
  {
    hide XattrRelease.Detaches;
  }

  function StateOf(f: File, space: Space): State {
    State(f.root, f.nodes, space, f.count, f.size)
  }

  function FileOf(s: State, attr: nat): File {
    File(s.root, s.nodes, s.count, s.size, attr)
  }

  lemma SameOwner(f: File, s: State)
    requires FileOf(s, f.attr) == f
    ensures s.Owns() == f.Owns() && s.Extents() == f.Extents() && StateOf(f, s.space) == s
    ensures s.Surplus() == f.Surplus()
  {
  }

  ghost function OwnedBlocks(files: map<nat, File>): set<nat> {
    set n, b | n in files && b in files[n].Owns() :: b
  }

  ghost function AttrBlocks(files: map<nat, File>): set<nat> {
    set n | n in files && files[n].attr != 0 :: files[n].attr
  }

  ghost function AllBlocks(files: map<nat, File>): set<nat> {
    OwnedBlocks(files) + AttrBlocks(files)
  }

  ghost function Users(files: map<nat, File>, b: nat): set<nat> {
    set n | n in files && files[n].attr == b
  }

  ghost predicate Apart(files: map<nat, File>) {
    forall n, m :: n in files && m in files && n != m ==> files[n].Owns() !! files[m].Owns()
  }

  /** A block belongs to one file at most. */
  lemma ApartMeans(files: map<nat, File>)
    ensures Apart(files) <==>
              forall n, m, b :: n in files && m in files && b in files[n].Owns() && b in files[m].Owns() ==> n == m
  {
    hide File.Owns;
  }

  /** The attribute block counts its users, if it is one, and is nobody's data. */
  ghost predicate AttrKept(lay: Layout, original: seq<RangeIndex.Range>, journal: set<nat>, st: Store, b: nat)
    requires Fits(lay, st.space)
  {
    && b in st.images
    && (XattrRelease.Releases(st.images[b]) ==> XattrRelease.RefCount(st.images[b]) == |Users(st.files, b)|)
    && Releasable(lay, original, journal, st.space, b) && b !in OwnedBlocks(st.files)
  }

  /** Every file is sane and owns its blocks alone. */
  ghost predicate Housed(lay: Layout, original: seq<RangeIndex.Range>, journal: set<nat>, st: Store) {
    && Balanced(lay, st.space) && Fits(lay, st.space) && Apart(st.files)
    && (forall n :: n in st.files ==> Sane(lay, original, journal, StateOf(st.files[n], st.space)))
    && (forall b :: b in AttrBlocks(st.files) ==> AttrKept(lay, original, journal, st, b))
  }

  /** Exactly the blocks that no file owns or uses any more were released. */
  ghost predicate Freed(lay: Layout, was: Store, now: Store)
    requires Fits(lay, was.space) && Fits(lay, now.space)
  {
    && AllBlocks(now.files) <= AllBlocks(was.files)
    && forall b: nat :: lay.InRange(b) ==>
         InUse(lay, now.space, b) == (InUse(lay, was.space, b) && b !in AllBlocks(was.files) - AllBlocks(now.files))
  }

  lemma FreedNothing(lay: Layout, st: Store)
    requires Fits(lay, st.space)
    ensures Freed(lay, st, st)
  {
  }

  lemma FreedComposes(lay: Layout, a: Store, b: Store, c: Store)
    requires Fits(lay, a.space) && Fits(lay, b.space) && Fits(lay, c.space)
    requires Freed(lay, a, b) && Freed(lay, b, c)
    ensures Freed(lay, a, c)
  {
    hide InUse;
    hide AllBlocks;
  }

  lemma HousedFits(lay: Layout, original: seq<RangeIndex.Range>, journal: set<nat>, st: Store)
    requires Housed(lay, original, journal, st)
    ensures Fits(lay, st.space) && Balanced(lay, st.space)
  {
  }

  lemma HousedOne(lay: Layout, original: seq<RangeIndex.Range>, journal: set<nat>, st: Store, n: nat)
    requires Housed(lay, original, journal, st) && n in st.files
    ensures Sane(lay, original, journal, StateOf(st.files[n], st.space))
  {
    hide Sane;
  }

  lemma AttrGone(f: File)
    ensures f.(attr := 0).Owns() == f.Owns() && f.(attr := 0).Surplus() == f.Surplus()
  {
  }

  /** A block count of zero leaves nothing to own. */
  lemma NothingCounted(lay: Layout, original: seq<RangeIndex.Range>, journal: set<nat>, st: Store, n: nat)
    requires Housed(lay, original, journal, st) && n in st.files && st.files[n].count == 0
    ensures st.files[n].Owns() == {} && st.files[n].Surplus() == 0
  {
    hide InUse;
    hide Covered;
    hide Balanced;
    hide Sound;
    hide Flat;
    hide Owned;
    HousedOne(lay, original, journal, st, n);
    var s := StateOf(st.files[n], st.space);
    SameOwner(st.files[n], s);
    if s.Extents() != [] {
      LastIsSound(s);
    }
  }

  lemma FilesFit(lay: Layout, original: seq<RangeIndex.Range>, journal: set<nat>, st: Store, n: nat)
    requires Housed(lay, original, journal, st) && n in st.files
    ensures st.files[n].Surplus() >= 0
    ensures st.files[n].Owns() == {} ==> st.files[n].count == st.files[n].Surplus()
  {
    hide InUse;
    hide Covered;
    hide Balanced;
    hide Sound;
    hide Flat;
    hide Owned;
    HousedOne(lay, original, journal, st, n);
    var s := StateOf(st.files[n], st.space);
    SameOwner(st.files[n], s);
    if s.Extents() != [] {
      OwnsLast(lay, original, journal, s);
    }
  }

  lemma OwnsLast(lay: Layout, original: seq<RangeIndex.Range>, journal: set<nat>, s: State)
    requires Sane(lay, original, journal, s) && s.Extents() != []
    ensures Last(s).target in s.Owns()
  {
    hide InUse;
    hide Covered;
    hide Balanced;
    hide Sound;
    hide Flat;
    hide Owned;
    LastIsSound(s);
    DataFacts(s.Extents());
    SpanMembers(Last(s).target, Last(s).Len());
  }

  // ---- Releasing what a file owns alone --------------------------------------------------

  /** One file loses blocks. */
  lemma FileBlocksWithout(files: map<nat, File>, n: nat, f: File)
    requires n in files && Apart(files) && f.Owns() <= files[n].Owns() && f.attr == files[n].attr
    ensures Apart(files[n := f])
    ensures OwnedBlocks(files[n := f]) == OwnedBlocks(files) - (files[n].Owns() - f.Owns())
    ensures AttrBlocks(files[n := f]) == AttrBlocks(files)
    ensures files[n].Owns() <= OwnedBlocks(files)
  {
    hide File.Owns;
    var now := files[n := f];
    forall b: nat
      ensures b in OwnedBlocks(now) <==> b in OwnedBlocks(files) && b !in files[n].Owns() - f.Owns()
    {
      if b in f.Owns() {
        assert n in now && b in now[n].Owns();
        assert n in files && b in files[n].Owns();
      }
      if b in OwnedBlocks(now) {
        var m :| m in now && b in now[m].Owns();
        assert m in files && b in files[m].Owns();
      }
      if b in OwnedBlocks(files) && b !in files[n].Owns() {
        var m :| m in files && b in files[m].Owns();
        assert m in now && b in now[m].Owns();
      }
    }
    AttrsUnchanged(files, n, f);
  }

  lemma AttrsUnchanged(files: map<nat, File>, n: nat, f: File)
    requires n in files && f.attr == files[n].attr
    ensures AttrBlocks(files[n := f]) == AttrBlocks(files)
    ensures forall b :: Users(files[n := f], b) == Users(files, b)
  {
    var now := files[n := f];
    forall b: nat
      ensures b in AttrBlocks(now) <==> b in AttrBlocks(files)
    {
      if b in AttrBlocks(now) {
        var m :| m in now && now[m].attr == b != 0;
        assert m in files && files[m].attr == b;
      }
      if b in AttrBlocks(files) {
        var m :| m in files && files[m].attr == b != 0;
        assert m in now && now[m].attr == b;
      }
    }
  }

  /** What one file releases concerns no other. */
  lemma OneFileReleased(lay: Layout, original: seq<RangeIndex.Range>, journal: set<nat>, st: Store, n: nat, s: State)
    requires Housed(lay, original, journal, st) && n in st.files && Sane(lay, original, journal, s)
    requires Fits(lay, st.space) && Fits(lay, s.space) && Released(lay, StateOf(st.files[n], st.space), s)
    ensures var now := Store(st.files[n := FileOf(s, st.files[n].attr)], st.images, s.space);
            Housed(lay, original, journal, now) && Freed(lay, st, now)
  {
    hide InUse;
    hide Sane;
    hide State.Owns;
    hide File.Owns;
    hide OwnedBlocks;
    hide AttrBlocks;
    hide Users;
    hide Balanced;
    var f := FileOf(s, st.files[n].attr);
    var now := Store(st.files[n := f], st.images, s.space);
    SameOwner(st.files[n], StateOf(st.files[n], st.space));
    SameOwner(f, s);
    FileBlocksWithout(st.files, n, f);
    AttrsUnchanged(st.files, n, f);
    SaneFacts(lay, original, journal, s);
    AttrsApart(lay, original, journal, st);
    forall m | m in now.files
      ensures Sane(lay, original, journal, StateOf(now.files[m], now.space))
    {
      if m != n {
        SameOwner(st.files[m], StateOf(st.files[m], st.space));
        OtherStaysSane(lay, original, journal, st.files[m], st.space, s.space, st.files[n].Owns() - f.Owns());
      }
    }
  }

  lemma AttrsApart(lay: Layout, original: seq<RangeIndex.Range>, journal: set<nat>, st: Store)
    requires Housed(lay, original, journal, st)
    ensures AttrBlocks(st.files) !! OwnedBlocks(st.files)
  {
    hide OwnedBlocks;
    hide AttrBlocks;
  }

  lemma OtherStaysSane(lay: Layout, original: seq<RangeIndex.Range>, journal: set<nat>, f: File, before: Space,
                       after: Space, gone: set<nat>)
    requires Sane(lay, original, journal, StateOf(f, before)) && Balanced(lay, after) && Fits(lay, before)
             && Fits(lay, after)
    requires forall b: nat :: lay.InRange(b) ==> InUse(lay, after, b) == (InUse(lay, before, b) && b !in gone)
    requires f.Owns() !! gone
    ensures Sane(lay, original, journal, StateOf(f, after))
  {
    hide InUse;
    hide Data;
    hide Flat;
    hide Owned;
    hide Covered;
    hide Balanced;
    hide Count;
    hide DataApart;
    var s, t := StateOf(f, before), StateOf(f, after);
    assert s.Owns() == t.Owns() == f.Owns();
    forall b | b in t.Owns()
      ensures Releasable(lay, original, journal, after, b)
    {
      assert Releasable(lay, original, journal, before, b);
    }
  }

  // ---- Letting go of an attribute block ------------------------------------------------------

  /** The block of attributes that the file used, after it let go of it. */
  function WithoutAttr(files: map<nat, File>, n: nat): map<nat, File>
    requires n in files
  {
    files[n := files[n].(attr := 0)]
  }

  /** One user less; the block is in use as long as there is another. */
  lemma UserLeaves(files: map<nat, File>, n: nat)
    requires n in files && files[n].attr != 0
    ensures var b, now := files[n].attr, WithoutAttr(files, n);
            && Users(now, b) == Users(files, b) - {n} && n in Users(files, b)
            && (forall c :: c != b && c != 0 ==> Users(now, c) == Users(files, c))
            && AttrBlocks(now) == (if |Users(files, b)| > 1 then AttrBlocks(files) else AttrBlocks(files) - {b})
            && b in AttrBlocks(files) && b !in AttrBlocks(files) - {b}
  {
    var b, now := files[n].attr, WithoutAttr(files, n);
    assert |Users(files, b) - {n}| == |Users(files, b)| - 1;
    assert Users(now, b) == Users(files, b) - {n};
    forall c: nat
      ensures c in AttrBlocks(now) <==> c != 0 && Users(now, c) != {}
      ensures c in AttrBlocks(files) <==> c != 0 && Users(files, c) != {}
    {
      AttrHasUser(now, c);
      AttrHasUser(files, c);
    }
    forall c: nat | c != b && c != 0
      ensures Users(now, c) == Users(files, c)
    {
    }
  }

  lemma AttrHasUser(files: map<nat, File>, c: nat)
    ensures c in AttrBlocks(files) <==> c != 0 && Users(files, c) != {}
  {
    if c in AttrBlocks(files) {
      var m :| m in files && files[m].attr == c != 0;
      assert m in Users(files, c);
    }
    if c != 0 && Users(files, c) != {} {
      var m :| m in Users(files, c);
      assert m in files && files[m].attr == c;
    }
  }

  lemma SameFileBlocks(files: map<nat, File>, n: nat)
    requires n in files
    ensures OwnedBlocks(WithoutAttr(files, n)) == OwnedBlocks(files) && (Apart(files) ==> Apart(WithoutAttr(files, n)))
  {
    var now := WithoutAttr(files, n);
    assert now[n].Owns() == files[n].Owns();
    hide File.Owns;
    forall b: nat
      ensures b in OwnedBlocks(now) <==> b in OwnedBlocks(files)
    {
      if b in OwnedBlocks(now) {
        var m :| m in now && b in now[m].Owns();
        assert m in files && b in files[m].Owns();
      }
      if b in OwnedBlocks(files) {
        var m :| m in files && b in files[m].Owns();
        assert m in now && b in now[m].Owns();
      }
    }
  }

  /** A block that others still use is only counted down. */
  lemma SharedAttrReleased(lay: Layout, original: seq<RangeIndex.Range>, journal: set<nat>, st: Store, n: nat,
                           sum: u32)
    requires Housed(lay, original, journal, st) && n in st.files && st.files[n].attr != 0 && AttrFine(st, n)
    requires XattrRelease.RefCount(st.images[st.files[n].attr]) > 1
    ensures var b := st.files[n].attr;
            var image := XattrRelease.CountedDown(st.images[b], sum);
            var now := Store(WithoutAttr(st.files, n), st.images[b := image], st.space);
            Housed(lay, original, journal, now) && Freed(lay, st, now) && SameChecks(st.images, now.images)
  {
    hide InUse;
    hide Sane;
    hide File.Owns;
    hide OwnedBlocks;
    hide AttrBlocks;
    hide Users;
    hide Balanced;
    hide Apart;
    hide Releasable;
    hide XattrRelease.Releases;
    hide XattrRelease.RefCount;
    hide XattrRelease.CountedDown;
    var b := st.files[n].attr;
    UserLeaves(st.files, n);
    SameFileBlocks(st.files, n);
    assert AttrKept(lay, original, journal, st, b);
    XattrRelease.CountedDownSame(st.images[b], sum);
    var now := Store(WithoutAttr(st.files, n), st.images[b := XattrRelease.CountedDown(st.images[b], sum)], st.space);
    forall c | c in AttrBlocks(now.files)
      ensures AttrKept(lay, original, journal, now, c)
    {
      AttrHasUser(now.files, c);
      assert AttrKept(lay, original, journal, st, c);
    }
  }

  /** The last user releases the block. */
  lemma LastAttrReleased(lay: Layout, original: seq<RangeIndex.Range>, journal: set<nat>, st: Store, n: nat,
                         after: Space)
    requires Housed(lay, original, journal, st) && n in st.files && st.files[n].attr != 0
    requires AttrFine(st, n) && XattrRelease.RefCount(st.images[st.files[n].attr]) <= 1
    requires Balanced(lay, after) && Fits(lay, after) && Fits(lay, st.space)
    requires forall c: nat :: lay.InRange(c) ==>
               InUse(lay, after, c) == (InUse(lay, st.space, c) && c != st.files[n].attr)
    ensures var now := Store(WithoutAttr(st.files, n), st.images, after);
            Housed(lay, original, journal, now) && Freed(lay, st, now)
  {
    hide InUse;
    hide Sane;
    hide File.Owns;
    hide OwnedBlocks;
    hide AttrBlocks;
    hide Users;
    hide Balanced;
    hide Apart;
    hide XattrRelease.Releases;
    hide XattrRelease.RefCount;
    var b := st.files[n].attr;
    UserLeaves(st.files, n);
    SameFileBlocks(st.files, n);
    AttrsApart(lay, original, journal, st);
    assert AttrKept(lay, original, journal, st, b);
    var now := Store(WithoutAttr(st.files, n), st.images, after);
    forall c | c in AttrBlocks(now.files)
      ensures AttrKept(lay, original, journal, now, c)
    {
      AttrHasUser(now.files, c);
      assert AttrKept(lay, original, journal, st, c);
    }
    forall m | m in now.files
      ensures Sane(lay, original, journal, StateOf(now.files[m], after))
    {
      OwnsInside(st.files, m);
      OtherStaysSane(lay, original, journal, st.files[m], st.space, after, {b});
    }
  }

  lemma OwnsInside(files: map<nat, File>, m: nat)
    requires m in files
    ensures files[m].Owns() <= OwnedBlocks(files)
  {
    hide File.Owns;
  }

  /** The attribute block of a file can be released. */
  lemma AttrAllowed(lay: Layout, guard: DataGuard, st: Store, n: nat)
    requires guard.Valid() && Housed(lay, guard.original, guard.journal, st) && n in st.files && st.files[n].attr != 0
    ensures var b := st.files[n].attr;
            && b in st.images && Fits(lay, st.space)
            && b >= lay.firstData && b + 1 <= lay.blockCount && lay.blockCount < U64_LIMIT && InUse(lay, st.space, b)
            && lay.GroupOf(b) == lay.GroupOf(b + 1 - 1)
            && !AnyOverlap(guard.original, RangeIndex.Range(b, b + 1))
            && !guard.JournalOwns(RangeIndex.Range(b, b + 1))
  {
    hide InUse;
    hide Sane;
    hide Covered;
    hide AnyOverlap;
    hide Users;
    var b := st.files[n].attr;
    assert b in AttrBlocks(st.files);
    assert AttrKept(lay, guard.original, guard.journal, st, b);
    assert Set([b][..0]) == {};
    EachAllowed(lay, guard, st.space, st.space, [b], 0);
  }

  /** What the check before the release says. */
  lemma AttrVerdict(lay: Layout, original: seq<RangeIndex.Range>, journal: set<nat>, st: Store, n: nat)
    requires Housed(lay, original, journal, st) && n in st.files && st.files[n].attr != 0
    ensures var b := st.files[n].attr;
            && b in st.images
            && (AttrFine(st, n) <==>
                  XattrRelease.Releases(st.images[b]) && !XattrRelease.Entries(st.images[b]).value.foreign)
  {
    hide InUse;
    hide Sane;
    hide Covered;
    hide Users;
    hide Releasable;
    hide XattrRelease.Releases;
    hide XattrRelease.Entries;
    assert st.files[n].attr in AttrBlocks(st.files);
    assert AttrKept(lay, original, journal, st, st.files[n].attr);
  }
}
