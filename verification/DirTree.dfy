/** The directory tree: names, ".." entries and link counts, and why removing,
    moving, replacing, exchanging and adding a name keep it one. */
module DirTree {
  import opened Bytes

  const ROOT: nat := ROOT_INODE

  /** An inode, with the entries of a directory other than "." and "..". */
  datatype Inode = Inode(isDir: bool, links: nat, dotdot: nat, entries: map<string, nat>)

  type Fs = map<nat, Inode>

  predicate PlainName(name: string) {
    name != "." && name != ".." && |name| <= 255
  }

  // ---- What a tree is --------------------------------------------------------------

  predicate Live(fs: Fs, d: nat) {
    d in fs && fs[d].isDir && fs[d].links > 0
  }

  predicate HasName(fs: Fs, d: nat, n: string) {
    d in fs && n in fs[d].entries
  }

  /** What a lookup of the name finds. */
  function Lookup(fs: Fs, d: nat, n: string): Option<nat> {
    if HasName(fs, d, n) then Some(fs[d].entries[n]) else None
  }

  /** From `fs` to `gs`, these names get new meanings, and no others. */
  ghost predicate Rebinds(fs: Fs, gs: Fs, changes: map<(nat, string), Option<nat>>) {
    forall d: nat, n: string ::
      Lookup(gs, d, n) == if (d, n) in changes then changes[(d, n)] else Lookup(fs, d, n)
  }

  /** All names of an inode. */
  ghost function Names(fs: Fs, c: nat): set<(nat, string)> {
    set d, n | d in fs && n in fs[d].entries && fs[d].entries[n] == c :: (d, n)
  }

  predicate IsDir(fs: Fs, c: nat) {
    c in fs && fs[c].isDir
  }

  /** The entries of `d` that are directories. */
  ghost function Subs(fs: Fs, d: nat): set<string> {
    if d in fs then set n | n in fs[d].entries && IsDir(fs, fs[d].entries[n]) else {}
  }

  /** The number of names an inode must have: a directory that has not been
      removed has one, except the root. */
  function Expected(fs: Fs, c: nat): nat
    requires c in fs
  {
    if fs[c].isDir then (if c == ROOT || fs[c].links == 0 then 0 else 1) else fs[c].links
  }

  ghost predicate Rooted(fs: Fs) {
    Live(fs, ROOT) && fs[ROOT].dotdot == ROOT
  }

  /** Names are in live directories and of live inodes, and the ".." of a
      directory is the directory that names it. */
  ghost predicate Named(fs: Fs) {
    forall d, n :: HasName(fs, d, n) ==> Live(fs, d) && NamedWell(fs, d, fs[d].entries[n])
  }

  predicate NamedWell(fs: Fs, d: nat, c: nat) {
    c in fs && fs[c].links > 0 && c != ROOT && (fs[c].isDir ==> fs[c].dotdot == d)
  }

  ghost predicate Counted(fs: Fs) {
    forall c :: c in fs ==> CountedAt(fs, c)
  }

  ghost predicate CountedAt(fs: Fs, c: nat)
    requires c in fs
  {
    && |Names(fs, c)| == Expected(fs, c)
    && (Live(fs, c) ==> fs[c].links == 2 + |Subs(fs, c)|)
  }

  /** Following ".." from `d` leads to the root. */
  ghost predicate Climbs(fs: Fs, d: nat, path: seq<nat>) {
    && path != [] && path[0] == d && path[|path| - 1] == ROOT
    && (forall i :: 0 <= i < |path| ==> Live(fs, path[i]))
    && (forall i :: 0 <= i < |path| - 1 ==> path[i] != ROOT && fs[path[i]].dotdot == path[i + 1])
  }

  ghost predicate Rises(fs: Fs, d: nat) {
    exists path :: Climbs(fs, d, path)
  }

  ghost predicate Acyclic(fs: Fs) {
    forall d :: Live(fs, d) ==> Rises(fs, d)
  }

  /** The way up from `d` does not pass `c`. */
  ghost predicate Avoids(fs: Fs, d: nat, c: nat) {
    exists path :: Climbs(fs, d, path) && c !in path
  }

  ghost predicate Tree(fs: Fs) {
    Rooted(fs) && Named(fs) && Counted(fs) && Acyclic(fs)
  }

  /** A root directory on its own is a tree. */
  lemma RootAlone()
    ensures Tree(map[ROOT := Inode(true, 2, ROOT, map[])])
  {
    var fs := map[ROOT := Inode(true, 2, ROOT, map[])];
    assert Names(fs, ROOT) == {} && Subs(fs, ROOT) == {};
    assert Climbs(fs, ROOT, [ROOT]);
  }

  // ---- Elementary changes ------------------------------------------------------------

  function SetEntry(fs: Fs, d: nat, n: string, c: nat): Fs {
    if d in fs then fs[d := fs[d].(entries := fs[d].entries[n := c])] else fs
  }

  function DropEntry(fs: Fs, d: nat, n: string): Fs {
    if d in fs then fs[d := fs[d].(entries := fs[d].entries - {n})] else fs
  }

  function SetDotdot(fs: Fs, c: nat, d: nat): Fs {
    if c in fs then fs[c := fs[c].(dotdot := d)] else fs
  }

  function SetLinks(fs: Fs, c: nat, links: nat): Fs {
    if c in fs then fs[c := fs[c].(links := links)] else fs
  }

  function LinksOf(fs: Fs, c: nat): nat {
    if c in fs then fs[c].links else 0
  }

  function Lower(fs: Fs, c: nat): Fs {
    SetLinks(fs, c, if LinksOf(fs, c) > 0 then LinksOf(fs, c) - 1 else 0)
  }

  function Raise(fs: Fs, c: nat): Fs {
    SetLinks(fs, c, LinksOf(fs, c) + 1)
  }

  lemma NamesSet(fs: Fs, d: nat, n: string, c: nat, x: nat)
    requires d in fs
    ensures Names(SetEntry(fs, d, n, c), x) == Names(fs, x) - {(d, n)} + (if x == c then {(d, n)} else {})
  {
    var gs := SetEntry(fs, d, n, c);
    forall e: nat, m: string
      ensures (e, m) in Names(gs, x) <==> (e, m) in Names(fs, x) - {(d, n)} + (if x == c then {(d, n)} else {})
    {
    }
  }

  lemma NamesDrop(fs: Fs, d: nat, n: string, x: nat)
    requires d in fs
    ensures Names(DropEntry(fs, d, n), x) == Names(fs, x) - {(d, n)}
  {
    var gs := DropEntry(fs, d, n);
    forall e: nat, m: string
      ensures (e, m) in Names(gs, x) <==> (e, m) in Names(fs, x) - {(d, n)}
    {
    }
  }

  /** Same inodes with the same entries. */
  ghost predicate SameEntries(fs: Fs, gs: Fs) {
    && fs.Keys == gs.Keys
    && forall c :: c in fs ==> fs[c].entries == gs[c].entries && fs[c].isDir == gs[c].isDir
  }

  lemma SameNames(fs: Fs, gs: Fs, x: nat)
    requires SameEntries(fs, gs)
    ensures Names(gs, x) == Names(fs, x) && Subs(gs, x) == Subs(fs, x)
  {
    forall e: nat, m: string
      ensures (e, m) in Names(gs, x) <==> (e, m) in Names(fs, x)
    {
    }
  }

  lemma SubsSet(fs: Fs, d: nat, n: string, c: nat, x: nat)
    requires d in fs
    ensures Subs(SetEntry(fs, d, n, c), x) ==
            if x != d then Subs(fs, x) else Subs(fs, d) - {n} + (if IsDir(fs, c) then {n} else {})
  {
    var gs := SetEntry(fs, d, n, c);
    assert forall y :: IsDir(gs, y) == IsDir(fs, y);
  }

  lemma SubsDrop(fs: Fs, d: nat, n: string, x: nat)
    requires d in fs
    ensures Subs(DropEntry(fs, d, n), x) == if x != d then Subs(fs, x) else Subs(fs, d) - {n}
  {
    var gs := DropEntry(fs, d, n);
    assert forall y :: IsDir(gs, y) == IsDir(fs, y);
  }

  // ---- Climbing --------------------------------------------------------------------

  lemma {:induction false} OneWayUp(fs: Fs, d: nat, p: seq<nat>, q: seq<nat>)
    requires Climbs(fs, d, p) && Climbs(fs, d, q)
    ensures p == q
    decreases |p|
  {
    if d != ROOT {
      assert |p| > 1 && |q| > 1;
      OneWayUp(fs, p[1], p[1..], q[1..]);
      assert p == [d] + p[1..] && q == [d] + q[1..];
    } else {
      assert p == [d] && q == [d];
    }
  }

  /** No directory but the root is its own parent. */
  lemma {:induction false} NotOwnParent(fs: Fs, d: nat, p: seq<nat>)
    requires Climbs(fs, d, p)
    ensures d != ROOT ==> fs[d].dotdot != d
    decreases |p|
  {
    if d != ROOT {
      assert |p| > 1;
      if fs[d].dotdot == d {
        OneWayUp(fs, d, p, p[1..]);
        assert false;
      }
    }
  }

  lemma ClimbsMore(fs: Fs, d: nat, p: seq<nat>)
    requires Live(fs, d) && d != ROOT && Climbs(fs, fs[d].dotdot, p)
    ensures Climbs(fs, d, [d] + p)
  {
    var q := [d] + p;
    forall i | 0 <= i < |q| - 1
      ensures q[i] != ROOT && fs[q[i]].dotdot == q[i + 1]
    {
      if i > 0 {
        assert q[i] == p[i - 1] && q[i + 1] == p[i];
      }
    }
  }

  /** The inodes in `moved` got new parents that do not lie below any of them;
      everybody else kept a live parent. */
  ghost predicate Moves(fs: Fs, gs: Fs, moved: set<nat>) {
    && ROOT !in moved && Live(gs, ROOT)
    && (forall x :: x in moved ==> Live(gs, x) && Live(gs, gs[x].dotdot) && AvoidsAll(fs, gs[x].dotdot, moved))
    && (forall x :: Live(gs, x) && x !in moved ==> KeptParent(fs, gs, x))
  }

  predicate KeptParent(fs: Fs, gs: Fs, x: nat) {
    Live(fs, x) && x in gs && gs[x].dotdot == fs[x].dotdot && (x != ROOT ==> Live(gs, gs[x].dotdot))
  }

  ghost predicate AvoidsAll(fs: Fs, d: nat, moved: set<nat>) {
    exists path :: Climbs(fs, d, path) && forall i :: 0 <= i < |path| ==> path[i] !in moved
  }

  /** A way up that avoids the moved inodes is still one. */
  lemma {:induction false} StillClimbs(fs: Fs, gs: Fs, moved: set<nat>, d: nat, p: seq<nat>)
    requires Moves(fs, gs, moved) && Live(gs, d) && Climbs(fs, d, p) && forall i :: 0 <= i < |p| ==> p[i] !in moved
    ensures Climbs(gs, d, p)
    decreases |p|
  {
    hide AvoidsAll;
    assert d == p[0];
    if |p| > 1 {
      StillClimbs(fs, gs, moved, p[1], p[1..]);
      ClimbsMore(gs, d, p[1..]);
      assert p == [d] + p[1..];
    }
  }

  lemma {:induction false} ClimbAgain(fs: Fs, gs: Fs, moved: set<nat>, d: nat, p: seq<nat>)
    requires Moves(fs, gs, moved) && Live(gs, d) && d !in moved && Climbs(fs, d, p)
    ensures Rises(gs, d)
    decreases |p|
  {
    hide AvoidsAll;
    if d == ROOT {
      assert Climbs(gs, d, [d]);
    } else {
      var up := fs[d].dotdot;
      assert |p| > 1 && p[1] == up;
      if up in moved {
        MovedRises(fs, gs, moved, up);
      } else {
        ClimbAgain(fs, gs, moved, up, p[1..]);
      }
      var q :| Climbs(gs, up, q);
      ClimbsMore(gs, d, q);
    }
  }

  lemma MovedRises(fs: Fs, gs: Fs, moved: set<nat>, x: nat)
    requires Moves(fs, gs, moved) && x in moved
    ensures Rises(gs, x)
  {
    var up := gs[x].dotdot;
    var p :| Climbs(fs, up, p) && forall i :: 0 <= i < |p| ==> p[i] !in moved;
    StillClimbs(fs, gs, moved, up, p);
    ClimbsMore(gs, x, p);
  }

  /** Moving whole subtrees makes no cycle. */
  lemma AcyclicAfter(fs: Fs, gs: Fs, moved: set<nat>)
    requires Acyclic(fs) && Moves(fs, gs, moved)
    ensures Acyclic(gs)
  {
    forall d | Live(gs, d)
      ensures Rises(gs, d)
    {
      if d in moved {
        MovedRises(fs, gs, moved, d);
      } else {
        assert Live(fs, d) && Rises(fs, d);
        var p :| Climbs(fs, d, p);
        ClimbAgain(fs, gs, moved, d, p);
      }
    }
  }

  // ---- Removing a name ---------------------------------------------------------------

  /** What holds of a name in a tree. */
  lemma NameFacts(fs: Fs, d: nat, n: string)
    requires Tree(fs) && HasName(fs, d, n)
    ensures var c := fs[d].entries[n];
            && Live(fs, d) && c in fs && fs[c].links > 0 && c != ROOT && c != d
            && (d, n) in Names(fs, c) && |Names(fs, c)| == Expected(fs, c)
            && (fs[c].isDir ==> fs[c].dotdot == d && Names(fs, c) == {(d, n)} && n in Subs(fs, d) && fs[d].links >= 3)
            && (!fs[c].isDir ==> n !in Subs(fs, d))
  {
    var c := fs[d].entries[n];
    assert (d, n) in Names(fs, c);
    assert NamedWell(fs, d, c) && CountedAt(fs, c) && CountedAt(fs, d);
    if fs[c].isDir {
      OnlyOne(Names(fs, c), (d, n));
      assert n in Subs(fs, d);
      NotEmpty(Subs(fs, d), n);
      assert Rises(fs, c);
      var p :| Climbs(fs, c, p);
      NotOwnParent(fs, c, p);
    }
  }

  lemma OnlyOne<T>(s: set<T>, x: T)
    requires x in s && |s| == 1
    ensures s == {x}
  {
    assert |s - {x}| == 0;
  }

  lemma NotEmpty<T>(s: set<T>, x: T)
    requires x in s
    ensures |s| >= 1
  {
  }

  lemma TwoOf<T>(s: set<T>, x: T, y: T)
    requires x in s && y in s && x != y
    ensures |s| >= 2
  {
    assert |s - {x}| == |s| - 1;
    NotEmpty(s - {x}, y);
  }

  lemma OneLess<T>(s: set<T>, x: T)
    ensures |s - {x}| == if x in s then |s| - 1 else |s|
  {
    if x !in s {
      assert s - {x} == s;
    }
  }

  lemma OneMore<T>(s: set<T>, x: T)
    ensures |s + {x}| == if x in s then |s| else |s| + 1
  {
    if x in s {
      assert s + {x} == s;
    }
  }

  /** A directory that loses its name is gone for good; a file loses one of its
      names. */
  predicate RemovalIsFinal(isDir: bool, links: nat) {
    isDir || links <= 1
  }

  /** Without the name `m` in `q`. */
  function Unlinked(fs: Fs, q: nat, m: string): Fs
    requires HasName(fs, q, m)
  {
    var e := fs[q].entries[m];
    var gs := DropEntry(fs, q, m);
    if RemovalIsFinal(IsDir(fs, e), LinksOf(fs, e)) then SetLinks(if IsDir(fs, e) then Lower(gs, q) else gs, e, 0)
    else Lower(gs, e)
  }

  lemma UnlinkedNames(fs: Fs, q: nat, m: string, x: nat)
    requires HasName(fs, q, m)
    ensures Names(Unlinked(fs, q, m), x) == Names(fs, x) - {(q, m)}
    ensures Subs(Unlinked(fs, q, m), x) == if x != q then Subs(fs, x) else Subs(fs, q) - {m}
  {
    var gs := DropEntry(fs, q, m);
    NamesDrop(fs, q, m, x);
    SubsDrop(fs, q, m, x);
    SameNames(gs, Unlinked(fs, q, m), x);
  }

  /** The inodes after a removal. */
  lemma UnlinkedInodes(fs: Fs, q: nat, m: string)
    requires Tree(fs) && HasName(fs, q, m)
    ensures var e, gs := fs[q].entries[m], Unlinked(fs, q, m);
            && gs.Keys == fs.Keys && e != q
            && (forall x :: x in fs ==>
                  && gs[x].isDir == fs[x].isDir && gs[x].dotdot == fs[x].dotdot
                  && gs[x].entries == (if x == q then fs[x].entries - {m} else fs[x].entries)
                  && gs[x].links == (if x == e then (if fs[e].isDir then 0 else fs[e].links - 1)
                                     else if x == q && fs[e].isDir then fs[q].links - 1
                                     else fs[x].links))
  {
    hide Names;
    hide Subs;
    hide Acyclic;
    hide Counted;
    hide Named;
    NameFacts(fs, q, m);
    var e := fs[q].entries[m];
    var bare := DropEntry(fs, q, m);
    var lowered := if IsDir(fs, e) then Lower(bare, q) else bare;
    assert lowered[e].links == fs[e].links;
  }

  /** Removing a file name, or the name of an empty directory, keeps the tree. */
  lemma UnlinkKeepsTree(fs: Fs, q: nat, m: string)
    requires Tree(fs) && HasName(fs, q, m)
    requires var e := fs[q].entries[m]; IsDir(fs, e) ==> fs[e].entries == map[]
    ensures Tree(Unlinked(fs, q, m))
  {
    hide Unlinked;
    hide Names;
    hide Subs;
    hide Acyclic;
    hide Counted;
    hide Named;
    var gs := Unlinked(fs, q, m);
    UnlinkedInodes(fs, q, m);
    NameFacts(fs, q, m);
    UnlinkNamed(fs, q, m);
    forall c | c in gs
      ensures CountedAt(gs, c)
    {
      UnlinkCounted(fs, q, m, c);
    }
    assert Counted(gs) by { CountedAll(gs); }
    UnlinkMoves(fs, q, m);
    AcyclicAfter(fs, gs, {});
  }

  lemma CountedAll(fs: Fs)
    requires forall c :: c in fs ==> CountedAt(fs, c)
    ensures Counted(fs)
  {
  }

  lemma UnlinkNamed(fs: Fs, q: nat, m: string)
    requires Tree(fs) && HasName(fs, q, m)
    requires var e := fs[q].entries[m]; IsDir(fs, e) ==> fs[e].entries == map[]
    ensures Named(Unlinked(fs, q, m))
  {
    hide Unlinked;
    hide Names;
    hide Subs;
    hide Acyclic;
    hide Counted;
    var e, gs := fs[q].entries[m], Unlinked(fs, q, m);
    UnlinkedInodes(fs, q, m);
    NameFacts(fs, q, m);
    forall d, n | HasName(gs, d, n)
      ensures Live(gs, d) && NamedWell(gs, d, gs[d].entries[n])
    {
      assert HasName(fs, d, n) && (d, n) != (q, m);
      NameFacts(fs, d, n);
      if fs[d].entries[n] == e {
        TwoOf(Names(fs, e), (d, n), (q, m));
      }
    }
  }

  lemma UnlinkCounted(fs: Fs, q: nat, m: string, c: nat)
    requires Tree(fs) && HasName(fs, q, m) && c in Unlinked(fs, q, m)
    requires var e := fs[q].entries[m]; IsDir(fs, e) ==> fs[e].entries == map[]
    ensures CountedAt(Unlinked(fs, q, m), c)
  {
    hide Unlinked;
    hide Names;
    hide Subs;
    hide Acyclic;
    hide Named;
    var e, gs := fs[q].entries[m], Unlinked(fs, q, m);
    UnlinkedInodes(fs, q, m);
    NameFacts(fs, q, m);
    UnlinkedNames(fs, q, m, c);
    assert CountedAt(fs, c);
    OneLess(Names(fs, c), (q, m));
    OneLess(Subs(fs, q), m);
    NameOfOne(fs, q, m, c);
  }

  lemma NameOfOne(fs: Fs, d: nat, n: string, c: nat)
    requires HasName(fs, d, n)
    ensures (d, n) in Names(fs, c) <==> c == fs[d].entries[n]
  {
  }

  lemma UnlinkMoves(fs: Fs, q: nat, m: string)
    requires Tree(fs) && HasName(fs, q, m)
    requires var e := fs[q].entries[m]; IsDir(fs, e) ==> fs[e].entries == map[]
    ensures Moves(fs, Unlinked(fs, q, m), {})
  {
    hide Unlinked;
    hide Names;
    hide Subs;
    hide Named;
    hide Acyclic;
    hide Counted;
    var e, gs := fs[q].entries[m], Unlinked(fs, q, m);
    UnlinkedInodes(fs, q, m);
    NameFacts(fs, q, m);
    forall x | Live(gs, x) && x != ROOT
      ensures Live(gs, gs[x].dotdot)
    {
      ParentNames(fs, x);
    }
  }

  /** The parent of a directory has an entry for it. */
  lemma ParentNames(fs: Fs, c: nat)
    requires Tree(fs) && Live(fs, c) && c != ROOT
    ensures var d := fs[c].dotdot; Live(fs, d) && fs[d].entries != map[]
    ensures exists n :: HasName(fs, fs[c].dotdot, n) && fs[fs[c].dotdot].entries[n] == c
  {
    assert CountedAt(fs, c);
    assert |Names(fs, c)| == 1;
    var x :| x in Names(fs, c);
    assert HasName(fs, x.0, x.1);
    assert NamedWell(fs, x.0, c);
  }

  // ---- Moving a name -----------------------------------------------------------------

  /** The name `n` in `p` becomes the name `m` in `q`. */
  function Renamed(fs: Fs, p: nat, n: string, q: nat, m: string): Fs
    requires HasName(fs, p, n)
  {
    var c := fs[p].entries[n];
    var gs := DropEntry(SetEntry(fs, q, m, c), p, n);
    if IsDir(fs, c) && p != q then Raise(Lower(SetDotdot(gs, c, q), p), q) else gs
  }

  /** The move is possible: the new name is free, and a directory does not go
      below itself. */
  ghost predicate CanMove(fs: Fs, p: nat, n: string, q: nat, m: string) {
    && Tree(fs) && HasName(fs, p, n) && Live(fs, q) && !HasName(fs, q, m)
    && (IsDir(fs, fs[p].entries[n]) && p != q ==> Avoids(fs, q, fs[p].entries[n]))
  }

  lemma RenamedNames(fs: Fs, p: nat, n: string, q: nat, m: string, x: nat)
    requires HasName(fs, p, n) && q in fs
    ensures var c, gs := fs[p].entries[n], Renamed(fs, p, n, q, m);
            && Names(gs, x) == Names(fs, x) - {(q, m)} + (if x == c then {(q, m)} else {}) - {(p, n)}
            && Subs(gs, x)
               == (if x == q then Subs(fs, q) - {m} + (if IsDir(fs, c) then {m} else {})
                   else Subs(fs, x)) - (if x == p then {n} else {})
  {
    hide Names;
    hide Subs;
    hide SetEntry;
    hide DropEntry;
    hide Renamed;
    var c := fs[p].entries[n];
    var one := SetEntry(fs, q, m, c);
    assert p in one by { SetKeys(fs, q, m, c); }
    NamesSet(fs, q, m, c, x);
    SubsSet(fs, q, m, c, x);
    NamesDrop(one, p, n, x);
    SubsDrop(one, p, n, x);
    RenamedEntries(fs, p, n, q, m);
    SameNames(DropEntry(one, p, n), Renamed(fs, p, n, q, m), x);
  }

  lemma RenamedEntries(fs: Fs, p: nat, n: string, q: nat, m: string)
    requires HasName(fs, p, n)
    ensures SameEntries(DropEntry(SetEntry(fs, q, m, fs[p].entries[n]), p, n), Renamed(fs, p, n, q, m))
  {
    hide SetEntry;
    hide DropEntry;
    var c := fs[p].entries[n];
    RelinkedEntries(DropEntry(SetEntry(fs, q, m, c), p, n), c, p, q);
  }

  lemma RelinkedEntries(gs: Fs, c: nat, p: nat, q: nat)
    ensures SameEntries(gs, gs) && SameEntries(gs, Raise(Lower(SetDotdot(gs, c, q), p), q))
  {
    var one := SetDotdot(gs, c, q);
    assert SameEntries(gs, one);
    assert SameEntries(one, Lower(one, p));
    assert SameEntries(Lower(one, p), Raise(Lower(one, p), q));
  }

  lemma SetKeys(fs: Fs, d: nat, n: string, c: nat)
    ensures SetEntry(fs, d, n, c).Keys == fs.Keys
  {
  }

  /** A moved inode is neither its old nor its new directory. */
  lemma MovedApart(fs: Fs, p: nat, n: string, q: nat, m: string)
    requires CanMove(fs, p, n, q, m)
    ensures var c := fs[p].entries[n]; c in fs && q in fs && c != p && c != q && c != ROOT && (p, n) != (q, m)
  {
    hide Names;
    hide Subs;
    NameFacts(fs, p, n);
  }

  lemma RenamedInodes(fs: Fs, p: nat, n: string, q: nat, m: string)
    requires HasName(fs, p, n) && q in fs && (p, n) != (q, m)
    requires var c := fs[p].entries[n]; c in fs && c != p && c != q
    ensures var c, gs := fs[p].entries[n], Renamed(fs, p, n, q, m);
            var far := fs[c].isDir && p != q;
            && gs.Keys == fs.Keys
            && (forall x :: x in fs ==>
                  && gs[x].isDir == fs[x].isDir
                  && gs[x].dotdot == (if far && x == c then q else fs[x].dotdot)
                  && gs[x].entries
                     == (if x == q then fs[x].entries[m := c] else fs[x].entries) - (if x == p then {n} else {})
                  && gs[x].links == (if far && x == p then (if fs[p].links > 0 then fs[p].links - 1 else 0)
                                     else if far && x == q then fs[q].links + 1
                                     else fs[x].links))
  {
    var c := fs[p].entries[n];
    var one := SetEntry(fs, q, m, c);
    var two := DropEntry(one, p, n);
    assert two.Keys == fs.Keys;
    forall x | x in fs
      ensures two[x].entries == (if x == q then fs[x].entries[m := c] else fs[x].entries) - (if x == p then {n} else {})
    {
      NothingRemoved(fs[x].entries);
      NothingRemoved(fs[x].entries[m := c]);
    }
  }

  lemma NothingRemoved(e: map<string, nat>)
    ensures e - {} == e
  {
  }

  lemma RenameNamed(fs: Fs, p: nat, n: string, q: nat, m: string)
    requires CanMove(fs, p, n, q, m)
    ensures Named(Renamed(fs, p, n, q, m))
  {
    hide Renamed;
    hide Names;
    hide Subs;
    hide Acyclic;
    hide Counted;
    hide Avoids;
    var c, gs := fs[p].entries[n], Renamed(fs, p, n, q, m);
    MovedApart(fs, p, n, q, m);
    NameFacts(fs, p, n);
    RenamedInodes(fs, p, n, q, m);
    forall d, k | HasName(gs, d, k)
      ensures Live(gs, d) && NamedWell(gs, d, gs[d].entries[k])
    {
      if (d, k) != (q, m) {
        assert HasName(fs, d, k) && (d, k) != (p, n);
        NameFacts(fs, d, k);
        assert fs[d].entries[k] == c && fs[c].isDir ==> (d, k) in Names(fs, c);
      }
    }
  }

  lemma RenameKeepsCounts(fs: Fs, p: nat, n: string, q: nat, m: string, x: nat)
    requires CanMove(fs, p, n, q, m)
    ensures var c, gs := fs[p].entries[n], Renamed(fs, p, n, q, m);
            && |Names(gs, x)| == |Names(fs, x)|
            && |Subs(gs, x)| == |Subs(fs, x)|
               + (if IsDir(fs, c) && x == q then 1 else 0) - (if IsDir(fs, c) && x == p then 1 else 0)
  {
    hide Renamed;
    hide Names;
    hide Subs;
    hide Tree;
    hide Avoids;
    var c := fs[p].entries[n];
    MovedApart(fs, p, n, q, m);
    NameFacts(fs, p, n);
    RenamedNames(fs, p, n, q, m, x);
    NameOfOne(fs, p, n, x);
    NoSuchName(fs, q, m, x);
    MovedCard(Names(fs, x), (p, n), (q, m), x == c);
    var s := if x == q then Subs(fs, q) - {m} + (if IsDir(fs, c) then {m} else {}) else Subs(fs, x);
    if x == q {
      Entered(Subs(fs, q), m, IsDir(fs, c), n);
    }
    Left(s, n, x == p);
  }

  lemma RenameCounted(fs: Fs, p: nat, n: string, q: nat, m: string, x: nat)
    requires CanMove(fs, p, n, q, m) && x in Renamed(fs, p, n, q, m)
    ensures CountedAt(Renamed(fs, p, n, q, m), x)
  {
    hide Renamed;
    hide Names;
    hide Subs;
    hide Acyclic;
    hide Named;
    hide Avoids;
    MovedApart(fs, p, n, q, m);
    NameFacts(fs, p, n);
    RenamedInodes(fs, p, n, q, m);
    RenameKeepsCounts(fs, p, n, q, m, x);
    assert CountedAt(fs, x);
  }

  lemma NoSuchName(fs: Fs, q: nat, m: string, x: nat)
    requires !HasName(fs, q, m)
    ensures (q, m) !in Names(fs, x) && m !in Subs(fs, q)
  {
  }

  lemma MovedCard<T>(s: set<T>, from: T, to: T, it: bool)
    requires to !in s && from != to && (from in s <==> it)
    ensures |s - {to} + (if it then {to} else {}) - {from}| == |s|
  {
    assert s - {to} == s;
    if it {
      OneMore(s, to);
      OneLess(s + {to}, from);
    } else {
      assert s + {} - {from} == s;
    }
  }

  lemma Entered<T>(s: set<T>, m: T, dir: bool, n: T)
    requires m !in s
    ensures var a := s - {m} + (if dir then {m} else {});
            && |a| == |s| + (if dir then 1 else 0)
            && (n != m ==> (n in a <==> n in s))
  {
    assert s - {m} == s;
    OneMore(s, m);
    assert s + {} == s;
  }

  lemma Left<T>(s: set<T>, n: T, out: bool)
    ensures |s - (if out then {n} else {})| == |s| - (if out && n in s then 1 else 0)
  {
    OneLess(s, n);
    assert s - {} == s;
  }

  function MovedDirs(fs: Fs, p: nat, c: nat, q: nat): set<nat> {
    if IsDir(fs, c) && p != q then {c} else {}
  }

  lemma RenameMoves(fs: Fs, p: nat, n: string, q: nat, m: string)
    requires CanMove(fs, p, n, q, m)
    ensures Moves(fs, Renamed(fs, p, n, q, m), MovedDirs(fs, p, fs[p].entries[n], q))
  {
    hide Renamed;
    hide Names;
    hide Subs;
    hide Named;
    hide Acyclic;
    hide Counted;
    hide Climbs;
    hide Avoids;
    hide AvoidsAll;
    hide Live;
    var c, gs := fs[p].entries[n], Renamed(fs, p, n, q, m);
    var moved := MovedDirs(fs, p, c, q);
    MovedApart(fs, p, n, q, m);
    forall x | Live(gs, x) && x !in moved
      ensures KeptParent(fs, gs, x)
    {
      RenameKeepsParent(fs, p, n, q, m, x);
    }
    RenameKeepsLive(fs, p, n, q, m, ROOT);
    assert Rooted(fs);
    if IsDir(fs, c) && p != q {
      RenameKeepsLive(fs, p, n, q, m, q);
      RenameKeepsLive(fs, p, n, q, m, c);
      MovedIsLive(fs, p, n);
      AvoidsOne(fs, q, c);
      MovedParent(fs, p, n, q, m);
    }
  }

  lemma MovedParent(fs: Fs, p: nat, n: string, q: nat, m: string)
    requires CanMove(fs, p, n, q, m) && IsDir(fs, fs[p].entries[n]) && p != q
    ensures var c, gs := fs[p].entries[n], Renamed(fs, p, n, q, m); c in gs && gs[c].dotdot == q
  {
    hide Renamed;
    hide Names;
    hide Subs;
    hide Tree;
    hide Avoids;
    MovedApart(fs, p, n, q, m);
    RenamedInodes(fs, p, n, q, m);
  }

  lemma RenameKeepsParent(fs: Fs, p: nat, n: string, q: nat, m: string, x: nat)
    requires CanMove(fs, p, n, q, m) && Live(Renamed(fs, p, n, q, m), x) && x !in MovedDirs(fs, p, fs[p].entries[n], q)
    ensures KeptParent(fs, Renamed(fs, p, n, q, m), x)
  {
    hide Renamed;
    hide Names;
    hide Subs;
    hide Tree;
    hide Avoids;
    MovedApart(fs, p, n, q, m);
    RenamedInodes(fs, p, n, q, m);
    RenameKeepsLive(fs, p, n, q, m, x);
  }

  lemma MovedIsLive(fs: Fs, p: nat, n: string)
    requires Tree(fs) && HasName(fs, p, n)
    ensures IsDir(fs, fs[p].entries[n]) ==> Live(fs, fs[p].entries[n])
  {
    NameFacts(fs, p, n);
  }

  lemma RenameKeepsLive(fs: Fs, p: nat, n: string, q: nat, m: string, x: nat)
    requires CanMove(fs, p, n, q, m)
    ensures Live(Renamed(fs, p, n, q, m), x) <==> Live(fs, x)
    ensures Live(fs, x) ==> x in fs && x in Renamed(fs, p, n, q, m)
    ensures Live(fs, x) && x != ROOT ==> Live(Renamed(fs, p, n, q, m), fs[x].dotdot)
  {
    hide Renamed;
    hide Names;
    hide Subs;
    hide Named;
    hide Acyclic;
    hide Counted;
    hide Avoids;
    MovedApart(fs, p, n, q, m);
    NameFacts(fs, p, n);
    RenamedInodes(fs, p, n, q, m);
    if Live(fs, x) && x != ROOT {
      ParentNames(fs, x);
    }
  }

  lemma AvoidsOne(fs: Fs, q: nat, c: nat)
    requires Avoids(fs, q, c)
    ensures AvoidsAll(fs, q, {c})
  {
  }

  /** Moving a name keeps the tree. */
  lemma RenameKeepsTree(fs: Fs, p: nat, n: string, q: nat, m: string)
    requires CanMove(fs, p, n, q, m)
    ensures Tree(Renamed(fs, p, n, q, m))
  {
    hide Renamed;
    hide Names;
    hide Subs;
    hide Acyclic;
    hide Counted;
    hide Named;
    hide Avoids;
    var gs := Renamed(fs, p, n, q, m);
    MovedApart(fs, p, n, q, m);
    NameFacts(fs, p, n);
    RenamedInodes(fs, p, n, q, m);
    RenameNamed(fs, p, n, q, m);
    forall x | x in gs
      ensures CountedAt(gs, x)
    {
      RenameCounted(fs, p, n, q, m, x);
    }
    CountedAll(gs);
    RenameMoves(fs, p, n, q, m);
    AcyclicAfter(fs, gs, MovedDirs(fs, p, fs[p].entries[n], q));
  }

  /** The way up from a directory does not pass its own entries. */
  lemma ChildNotAbove(fs: Fs, c: nat, path: seq<nat>)
    requires Live(fs, c) && c != ROOT && Climbs(fs, fs[c].dotdot, path)
    ensures c !in path
  {
    if c in path {
      var i :| 0 <= i < |path| && path[i] == c;
      ClimbsMore(fs, c, path);
      OneWayUp(fs, c, path[i..], [c] + path);
      assert false;
    }
  }

  /** The two ways up agree until they come to `c`. */
  lemma {:induction false} SameUntil(fs: Fs, gs: Fs, c: nat, d: nat, path: seq<nat>, other: seq<nat>, k: nat)
    requires Climbs(fs, d, path) && Climbs(gs, d, other) && k < |path| && forall i :: 0 <= i < k ==> path[i] != c
    requires forall x :: x in path && Live(fs, x) && Live(gs, x) && x != c ==> fs[x].dotdot == gs[x].dotdot
    ensures k < |other| && other[k] == path[k]
    decreases k
  {
    if k > 0 {
      SameUntil(fs, gs, c, d, path, other, k - 1);
      assert path[k - 1] != ROOT;
      assert other[k - 1] != other[|other| - 1];
    }
  }

  /** The ancestor check is needed: without it the moved directory and what
      lies below it would hang on themselves. */
  lemma RenameNeedsCheck(fs: Fs, p: nat, n: string, q: nat, m: string)
    requires Tree(fs) && HasName(fs, p, n) && Live(fs, q) && !HasName(fs, q, m)
    requires IsDir(fs, fs[p].entries[n]) && p != q && !Avoids(fs, q, fs[p].entries[n])
    ensures !Tree(Renamed(fs, p, n, q, m))
  {
    hide Names;
    hide Subs;
    hide Counted;
    hide Named;
    var c, gs := fs[p].entries[n], Renamed(fs, p, n, q, m);
    NameFacts(fs, p, n);
    RenamedDotdots(fs, p, n, q, m);
    assert Rises(fs, q);
    var path :| Climbs(fs, q, path);
    assert c in path;
    GoesRound(fs, gs, c, q, path);
  }

  lemma GoesRound(fs: Fs, gs: Fs, c: nat, q: nat, path: seq<nat>)
    requires Climbs(fs, q, path) && c in path && c != ROOT
    requires forall x :: x in path && Live(fs, x) && Live(gs, x) && x != c ==> fs[x].dotdot == gs[x].dotdot
    requires c in gs && gs[c].dotdot == q
    ensures !Rises(gs, q)
  {
    var k := FirstAt(path, c);
    forall other | Climbs(gs, q, other)
      ensures false
    {
      SameUntil(fs, gs, c, q, path, other, k);
      assert other[k] == c;
      var rest := other[k + 1..];
      assert Climbs(gs, q, rest);
      OneWayUp(gs, q, other, rest);
      assert false;
    }
  }

  lemma {:induction false} FirstAt(s: seq<nat>, x: nat) returns (k: nat)
    requires x in s
    ensures k < |s| && s[k] == x && forall i :: 0 <= i < k ==> s[i] != x
  {
    if s[0] == x {
      k := 0;
    } else {
      var rest := s[1..];
      k := FirstAt(rest, x);
      k := k + 1;
      forall i | 0 <= i < k
        ensures s[i] != x
      {
        if i > 0 {
          assert s[i] == rest[i - 1];
        }
      }
    }
  }

  lemma RenamedDotdots(fs: Fs, p: nat, n: string, q: nat, m: string)
    requires HasName(fs, p, n) && q in fs && p != q
    requires var c := fs[p].entries[n]; IsDir(fs, c) && c != p && fs[q].isDir && fs[p].links > 1 && fs[q].links > 0
    ensures var c, gs := fs[p].entries[n], Renamed(fs, p, n, q, m);
            && c in gs && gs[c].dotdot == q && Live(gs, q)
            && forall x :: Live(fs, x) && Live(gs, x) && x != c ==> fs[x].dotdot == gs[x].dotdot
  {
  }

  // ---- Replacing and exchanging --------------------------------------------------------

  /** The name `m` in `q` comes to mean what `n` in `p` meant, which goes; what
      it meant before loses a name. */
  function Replaced(fs: Fs, p: nat, n: string, q: nat, m: string): Fs
    requires HasName(fs, p, n) && HasName(fs, q, m)
  {
    var c, e := fs[p].entries[n], fs[q].entries[m];
    var a := SetEntry(fs, q, m, c);
    var b := DropEntry(if IsDir(fs, e) then Lower(a, q) else a, p, n);
    var d := if IsDir(fs, c) && p != q then Raise(Lower(SetDotdot(b, c, q), p), q) else b;
    if RemovalIsFinal(IsDir(fs, e), LinksOf(fs, e)) then SetLinks(d, e, 0) else Lower(d, e)
  }

  /** The rename may replace what is there. */
  ghost predicate CanReplace(fs: Fs, p: nat, n: string, q: nat, m: string) {
    && Tree(fs) && HasName(fs, p, n) && HasName(fs, q, m)
    && var c, e := fs[p].entries[n], fs[q].entries[m];
       && c != e && IsDir(fs, c) == IsDir(fs, e)
       && (IsDir(fs, e) ==> fs[e].entries == map[])
       && (IsDir(fs, c) && p != q ==> Avoids(fs, q, c))
  }

  lemma ReplaceApart(fs: Fs, p: nat, n: string, q: nat, m: string)
    requires CanReplace(fs, p, n, q, m)
    ensures var c, e := fs[p].entries[n], fs[q].entries[m];
            && c in fs && e in fs && c != p && c != q && e != q && e != p && c != ROOT && (p, n) != (q, m)
            && Live(fs, q) && (fs[e].isDir ==> fs[q].links >= 3) && fs[e].links > 0
            && (fs[c].isDir ==> fs[p].links >= 3)
  {
    hide Names;
    hide Subs;
    NameFacts(fs, p, n);
    NameFacts(fs, q, m);
  }

  /** After the old name is removed, the rename is a plain one. */
  lemma ReplaceCanMove(fs: Fs, p: nat, n: string, q: nat, m: string)
    requires CanReplace(fs, p, n, q, m)
    ensures var gs := Unlinked(fs, q, m); CanMove(gs, p, n, q, m) && gs[p].entries[n] == fs[p].entries[n]
  {
    hide Unlinked;
    hide Names;
    hide Subs;
    hide Acyclic;
    hide Counted;
    hide Named;
    hide Avoids;
    var c, gs := fs[p].entries[n], Unlinked(fs, q, m);
    ReplaceApart(fs, p, n, q, m);
    UnlinkKeepsTree(fs, q, m);
    UnlinkedInodes(fs, q, m);
    if IsDir(fs, c) && p != q {
      UnlinkMoves(fs, q, m);
      StillAvoids(fs, gs, {}, q, c);
    }
  }

  lemma StillAvoids(fs: Fs, gs: Fs, moved: set<nat>, q: nat, c: nat)
    requires Moves(fs, gs, moved) && Live(gs, q) && Avoids(fs, q, c)
    requires forall path, x :: Climbs(fs, q, path) && x in moved ==> x !in path
    ensures Avoids(gs, q, c)
  {
    var path :| Climbs(fs, q, path) && c !in path;
    StillClimbs(fs, gs, moved, q, path);
  }

  lemma ReplacedInodes(fs: Fs, p: nat, n: string, q: nat, m: string)
    requires HasName(fs, p, n) && HasName(fs, q, m) && (p, n) != (q, m)
    requires var c, e := fs[p].entries[n], fs[q].entries[m];
             c in fs && e in fs && c != p && c != q && e != q && e != p && c != e
    requires var e := fs[q].entries[m]; fs[e].isDir ==> fs[q].links > 0
    ensures var c, e, gs := fs[p].entries[n], fs[q].entries[m], Replaced(fs, p, n, q, m);
            var far := fs[c].isDir && p != q;
            && gs.Keys == fs.Keys
            && (forall x :: x in fs ==>
                  && gs[x].isDir == fs[x].isDir
                  && gs[x].dotdot == (if far && x == c then q else fs[x].dotdot)
                  && gs[x].entries
                     == (if x == q then fs[x].entries[m := c] else fs[x].entries) - (if x == p then {n} else {})
                  && gs[x].links == ReplacedLinks(fs, p, q, c, e, x))
  {
    var c, e := fs[p].entries[n], fs[q].entries[m];
    var a := SetEntry(fs, q, m, c);
    var a' := if IsDir(fs, e) then Lower(a, q) else a;
    var b := DropEntry(a', p, n);
    assert b.Keys == fs.Keys;
    forall x | x in fs
      ensures b[x].entries == (if x == q then fs[x].entries[m := c] else fs[x].entries) - (if x == p then {n} else {})
      ensures b[x].links == if x == q && fs[e].isDir then fs[q].links - 1 else fs[x].links
      ensures b[x].isDir == fs[x].isDir && b[x].dotdot == fs[x].dotdot
    {
      NothingRemoved(fs[x].entries);
      NothingRemoved(fs[x].entries[m := c]);
    }
    ReplacedRest(fs, b, p, q, c, e);
  }

  function ReplacedLinks(fs: Fs, p: nat, q: nat, c: nat, e: nat, x: nat): int
    requires c in fs && e in fs && x in fs
  {
    var far := fs[c].isDir && p != q;
    if x == e then (if fs[e].isDir || fs[e].links == 0 then 0 else fs[e].links - 1)
    else if x == q then fs[q].links - (if fs[e].isDir then 1 else 0) + (if far then 1 else 0)
    else if x == p && far then (if fs[p].links > 0 then fs[p].links - 1 else 0)
    else fs[x].links
  }

  lemma ReplacedRest(fs: Fs, b: Fs, p: nat, q: nat, c: nat, e: nat)
    requires b.Keys == fs.Keys && p in fs && q in fs && c in fs && e in fs
    requires c != p && c != q && e != q && e != p && c != e && (fs[e].isDir ==> fs[q].links > 0)
    requires forall x :: x in fs ==> b[x].isDir == fs[x].isDir && b[x].dotdot == fs[x].dotdot
    requires forall x :: x in fs ==> b[x].links == if x == q && fs[e].isDir then fs[q].links - 1 else fs[x].links
    ensures var d := if IsDir(fs, c) && p != q then Raise(Lower(SetDotdot(b, c, q), p), q) else b;
            var gs := if RemovalIsFinal(IsDir(fs, e), LinksOf(fs, e)) then SetLinks(d, e, 0) else Lower(d, e);
            && gs.Keys == fs.Keys
            && forall x :: x in fs ==>
                 && gs[x].isDir == fs[x].isDir && gs[x].entries == b[x].entries
                 && gs[x].dotdot == (if fs[c].isDir && p != q && x == c then q else fs[x].dotdot)
                 && gs[x].links == ReplacedLinks(fs, p, q, c, e, x)
  {
    hide Raise;
    hide Lower;
    hide SetDotdot;
    var far := IsDir(fs, c) && p != q;
    if far {
      Relinked(b, c, p, q);
    }
    var d := if far then Raise(Lower(SetDotdot(b, c, q), p), q) else b;
    assert d.Keys == fs.Keys && LinksOf(d, e) == fs[e].links;
    Lowered(d, e);
  }

  /** A directory gets a new parent, which the link counts of both show. */
  lemma Relinked(b: Fs, c: nat, p: nat, q: nat)
    requires p in b && q in b && c in b && p != q
    ensures var gs := Raise(Lower(SetDotdot(b, c, q), p), q);
            && gs.Keys == b.Keys
            && forall x :: x in b ==>
                 && gs[x].isDir == b[x].isDir && gs[x].entries == b[x].entries
                 && gs[x].dotdot == (if x == c then q else b[x].dotdot)
                 && gs[x].links == (if x == p then (if b[p].links > 0 then b[p].links - 1 else 0)
                                    else if x == q then b[q].links + 1
                                    else b[x].links)
  {
  }

  lemma Lowered(b: Fs, e: nat)
    requires e in b
    ensures Lower(b, e) == SetLinks(b, e, if b[e].links > 0 then b[e].links - 1 else 0)
  {
  }

  /** Replacing is removing the old name and then moving. */
  lemma ReplaceIsRemoveThenMove(fs: Fs, p: nat, n: string, q: nat, m: string)
    requires CanReplace(fs, p, n, q, m)
    ensures Tree(Replaced(fs, p, n, q, m))
    ensures HasName(Unlinked(fs, q, m), p, n) && Replaced(fs, p, n, q, m) == Renamed(Unlinked(fs, q, m), p, n, q, m)
  {
    hide Unlinked;
    hide Renamed;
    hide Replaced;
    hide Names;
    hide Subs;
    hide Acyclic;
    hide Counted;
    hide Named;
    hide Avoids;
    var c, e := fs[p].entries[n], fs[q].entries[m];
    var gs := Unlinked(fs, q, m);
    ReplaceApart(fs, p, n, q, m);
    ReplaceCanMove(fs, p, n, q, m);
    MovedApart(gs, p, n, q, m);
    RenameKeepsTree(gs, p, n, q, m);
    UnlinkedInodes(fs, q, m);
    RenamedInodes(gs, p, n, q, m);
    ReplacedInodes(fs, p, n, q, m);
    var one, two := Replaced(fs, p, n, q, m), Renamed(gs, p, n, q, m);
    forall x | x in fs
      ensures one[x] == two[x]
    {
      if x == q {
        DropAndPut(fs[q].entries, m, c);
      }
    }
    assert one == two;
  }

  lemma DropAndPut(e: map<string, nat>, m: string, c: nat)
    ensures (e - {m})[m := c] == e[m := c]
  {
  }

  /** Both names change what they mean. */
  function Exchanged(fs: Fs, p: nat, n: string, q: nat, m: string): Fs
    requires HasName(fs, p, n) && HasName(fs, q, m)
  {
    var c, e := fs[p].entries[n], fs[q].entries[m];
    var a := SetEntry(SetEntry(fs, p, n, e), q, m, c);
    var b := if IsDir(fs, c) && p != q then Raise(Lower(SetDotdot(a, c, q), p), q) else a;
    if IsDir(fs, e) && p != q then Raise(Lower(SetDotdot(b, e, p), q), p) else b
  }

  ghost predicate CanExchange(fs: Fs, p: nat, n: string, q: nat, m: string) {
    && Tree(fs) && HasName(fs, p, n) && HasName(fs, q, m)
    && var c, e := fs[p].entries[n], fs[q].entries[m];
       && c != e
       && (p != q && IsDir(fs, c) ==> Avoids(fs, q, c))
       && (p != q && IsDir(fs, e) ==> Avoids(fs, p, e))
  }

  lemma ExchangeApart(fs: Fs, p: nat, n: string, q: nat, m: string)
    requires CanExchange(fs, p, n, q, m)
    ensures var c, e := fs[p].entries[n], fs[q].entries[m];
            && c in fs && e in fs && c != p && c != q && e != q && e != p && c != ROOT && e != ROOT && (p, n) != (q, m)
            && Live(fs, p) && Live(fs, q)
            && (fs[e].isDir ==> fs[q].links >= 3) && (fs[c].isDir ==> fs[p].links >= 3)
  {
    hide Names;
    hide Subs;
    NameFacts(fs, p, n);
    NameFacts(fs, q, m);
  }

  lemma ExchangedInodes(fs: Fs, p: nat, n: string, q: nat, m: string)
    requires HasName(fs, p, n) && HasName(fs, q, m) && (p, n) != (q, m)
    requires var c, e := fs[p].entries[n], fs[q].entries[m];
             c in fs && e in fs && c != p && c != q && e != q && e != p && c != e
    requires var c, e := fs[p].entries[n], fs[q].entries[m];
             (fs[e].isDir ==> fs[q].links > 0) && (fs[c].isDir ==> fs[p].links > 0)
    ensures var c, e, gs := fs[p].entries[n], fs[q].entries[m], Exchanged(fs, p, n, q, m);
            && gs.Keys == fs.Keys
            && (forall x :: x in fs ==>
                  && gs[x].isDir == fs[x].isDir
                  && gs[x].dotdot == ExchangedDotdot(fs, p, q, c, e, x)
                  && gs[x].entries == ExchangedEntries(fs, p, n, q, m, x)
                  && gs[x].links == ExchangedLinks(fs, p, q, c, e, x))
  {
    hide Raise;
    hide Lower;
    hide SetDotdot;
    var c, e := fs[p].entries[n], fs[q].entries[m];
    var a := SetEntry(SetEntry(fs, p, n, e), q, m, c);
    assert a.Keys == fs.Keys;
    forall x | x in fs
      ensures a[x].entries == ExchangedEntries(fs, p, n, q, m, x)
      ensures a[x].links == fs[x].links && a[x].isDir == fs[x].isDir && a[x].dotdot == fs[x].dotdot
    {
    }
    ExchangedRest(fs, a, p, q, c, e);
  }

  lemma ExchangedRest(fs: Fs, a: Fs, p: nat, q: nat, c: nat, e: nat)
    requires a.Keys == fs.Keys && p in fs && q in fs && c in fs && e in fs
    requires c != p && c != q && e != q && e != p && c != e
    requires (fs[e].isDir ==> fs[q].links > 0) && (fs[c].isDir ==> fs[p].links > 0)
    requires forall x :: x in fs ==>
               a[x].links == fs[x].links && a[x].isDir == fs[x].isDir && a[x].dotdot == fs[x].dotdot
    ensures var b := if IsDir(fs, c) && p != q then Raise(Lower(SetDotdot(a, c, q), p), q) else a;
            var gs := if IsDir(fs, e) && p != q then Raise(Lower(SetDotdot(b, e, p), q), p) else b;
            && gs.Keys == fs.Keys
            && (forall x :: x in fs ==>
                  && gs[x].isDir == fs[x].isDir
                  && gs[x].dotdot == ExchangedDotdot(fs, p, q, c, e, x)
                  && gs[x].entries == a[x].entries
                  && gs[x].links == ExchangedLinks(fs, p, q, c, e, x))
  {
    hide Raise;
    hide Lower;
    hide SetDotdot;
    var far := p != q;
    if IsDir(fs, c) && far {
      Relinked(a, c, p, q);
    }
    var b := if IsDir(fs, c) && far then Raise(Lower(SetDotdot(a, c, q), p), q) else a;
    assert b.Keys == fs.Keys;
    if IsDir(fs, e) && far {
      Relinked(b, e, q, p);
    }
  }

  function ExchangedEntries(fs: Fs, p: nat, n: string, q: nat, m: string, x: nat): map<string, nat>
    requires HasName(fs, p, n) && HasName(fs, q, m) && x in fs
  {
    var one := if x == p then fs[x].entries[n := fs[q].entries[m]] else fs[x].entries;
    if x == q then one[m := fs[p].entries[n]] else one
  }

  function ExchangedDotdot(fs: Fs, p: nat, q: nat, c: nat, e: nat, x: nat): nat
    requires c in fs && e in fs && x in fs
  {
    if p != q && x == c && fs[c].isDir then q else if p != q && x == e && fs[e].isDir then p else fs[x].dotdot
  }

  function ExchangedLinks(fs: Fs, p: nat, q: nat, c: nat, e: nat, x: nat): int
    requires c in fs && e in fs && x in fs
  {
    fs[x].links
    - (if p != q && fs[c].isDir && x == p then 1 else 0) + (if p != q && fs[c].isDir && x == q then 1 else 0)
    - (if p != q && fs[e].isDir && x == q then 1 else 0) + (if p != q && fs[e].isDir && x == p then 1 else 0)
  }

  /** A name longer than all others. */
  lemma {:induction false} FreshName(names: set<string>) returns (t: string)
    ensures forall k :: k in names ==> |k| < |t|
    decreases |names|
  {
    if names == {} {
      t := "x";
    } else {
      var k :| k in names;
      t := FreshName(names - {k});
      t := t + k + "x";
    }
  }

  function Meaning(fs: Fs, d: nat, n: string): nat {
    if HasName(fs, d, n) then fs[d].entries[n] else 0
  }

  lemma FirstMove(fs: Fs, p: nat, n: string, q: nat, m: string, t: string)
    requires CanExchange(fs, p, n, q, m) && !HasName(fs, q, t) && (p == q ==> t != n) && t != m
    ensures CanMove(fs, p, n, q, t)
    ensures var one := Renamed(fs, p, n, q, t);
            CanMove(one, q, m, p, n) && Meaning(one, q, m) == Meaning(fs, q, m)
            && Meaning(one, q, t) == Meaning(fs, p, n)
            && HasName(one, q, t)
  {
    hide Renamed;
    hide Names;
    hide Subs;
    hide Acyclic;
    hide Counted;
    hide Named;
    hide Avoids;
    var c, e, one := fs[p].entries[n], fs[q].entries[m], Renamed(fs, p, n, q, t);
    ExchangeApart(fs, p, n, q, m);
    assert CanMove(fs, p, n, q, t);
    RenameKeepsTree(fs, p, n, q, t);
    RenamedInodes(fs, p, n, q, t);
    RenameKeepsLive(fs, p, n, q, t, p);
    if IsDir(fs, e) && p != q {
      RenameMoves(fs, p, n, q, t);
      if IsDir(fs, c) {
        AboveAvoidsChild(fs, p, n);
      }
      StillAvoids(fs, one, MovedDirs(fs, p, c, q), p, e);
    }
  }

  lemma AboveAvoidsChild(fs: Fs, p: nat, n: string)
    requires Tree(fs) && HasName(fs, p, n) && IsDir(fs, fs[p].entries[n])
    ensures forall path :: Climbs(fs, p, path) ==> fs[p].entries[n] !in path
  {
    hide Names;
    hide Subs;
    var c := fs[p].entries[n];
    NameFacts(fs, p, n);
    forall path | Climbs(fs, p, path)
      ensures c !in path
    {
      ChildNotAbove(fs, c, path);
    }
  }

  lemma SecondMove(fs: Fs, p: nat, n: string, q: nat, m: string, t: string)
    requires CanExchange(fs, p, n, q, m) && !HasName(fs, q, t) && (p == q ==> t != n) && t != m
    requires var one := Renamed(fs, p, n, q, t);
             CanMove(one, q, m, p, n) && Meaning(one, q, m) == Meaning(fs, q, m)
             && Meaning(one, q, t) == Meaning(fs, p, n)
             && HasName(one, q, t)
    ensures var two := Renamed(Renamed(fs, p, n, q, t), q, m, p, n);
            CanMove(two, q, t, q, m) && Meaning(two, q, t) == Meaning(fs, p, n)
  {
    hide Renamed;
    hide Names;
    hide Subs;
    hide Acyclic;
    hide Counted;
    hide Named;
    hide Avoids;
    var one := Renamed(fs, p, n, q, t);
    ExchangeApart(fs, p, n, q, m);
    MovedApart(one, q, m, p, n);
    NameFacts(one, q, m);
    RenameKeepsTree(one, q, m, p, n);
    RenamedInodes(one, q, m, p, n);
    RenameKeepsLive(one, q, m, p, n, q);
  }

  /** One inode after a move of `c`. */
  function MovedAt(i: Inode, x: nat, p: nat, n: string, q: nat, m: string, c: nat, far: bool): Inode {
    Inode(i.isDir,
          if far && x == p then (if i.links > 0 then i.links - 1 else 0) else if far && x == q then i.links + 1
             else i.links,
          if far && x == c then q else i.dotdot,
          (if x == q then i.entries[m := c] else i.entries) - (if x == p then {n} else {}))
  }

  lemma RenamedAt(fs: Fs, p: nat, n: string, q: nat, m: string, x: nat)
    requires CanMove(fs, p, n, q, m) && x in fs
    ensures var c, gs := Meaning(fs, p, n), Renamed(fs, p, n, q, m);
            gs.Keys == fs.Keys && c in fs && gs[x] == MovedAt(fs[x], x, p, n, q, m, c, fs[c].isDir && p != q)
  {
    hide Renamed;
    MovedApart(fs, p, n, q, m);
    RenamedInodes(fs, p, n, q, m);
  }

  function SwappedAt(i: Inode, x: nat, p: nat, n: string, q: nat, m: string, c: nat, e: nat, farC: bool,
                     farE: bool): Inode {
    var i' := i.(entries := if x == p then i.entries[n := e] else i.entries);
    var i'' := i'.(entries := if x == q then i'.entries[m := c] else i'.entries);
    var links := i.links - (if farC && x == p then 1 else 0) + (if farC && x == q then 1 else 0)
                 - (if farE && x == q then 1 else 0) + (if farE && x == p then 1 else 0);
    Inode(i.isDir, if links >= 0 then links else 0, if farC && x == c then q else if farE && x == e then p
          else i.dotdot, i''.entries)
  }

  lemma ExchangedAt(fs: Fs, p: nat, n: string, q: nat, m: string, x: nat)
    requires CanExchange(fs, p, n, q, m) && x in fs
    ensures var c, e, gs := Meaning(fs, p, n), Meaning(fs, q, m), Exchanged(fs, p, n, q, m);
            && gs.Keys == fs.Keys && c in fs && e in fs
            && gs[x] == SwappedAt(fs[x], x, p, n, q, m, c, e, fs[c].isDir && p != q, fs[e].isDir && p != q)
  {
    hide Exchanged;
    hide Tree;
    hide Avoids;
    ExchangeApart(fs, p, n, q, m);
    ExchangedInodes(fs, p, n, q, m);
  }

  /** The three moves do to each inode what the exchange does. */
  lemma ThriceAt(i: Inode, x: nat, p: nat, n: string, q: nat, m: string, t: string, c: nat, e: nat, farC: bool,
                 farE: bool)
    requires t != m && (p == q ==> t != n && n != m) && (p == q ==> !farC && !farE)
    requires (x == p ==> n in i.entries && i.entries[n] == c)
             && (x == q ==> m in i.entries && i.entries[m] == e && t !in i.entries)
    requires (farC && x == p ==> i.links > 0) && (farE && x == q ==> i.links > 0) && c != e
    ensures var one := MovedAt(i, x, p, n, q, t, c, farC);
            var two := MovedAt(one, x, q, m, p, n, e, farE);
            MovedAt(two, x, q, t, q, m, c, false) == SwappedAt(i, x, p, n, q, m, c, e, farC, farE)
  {
    var one := MovedAt(i, x, p, n, q, t, c, farC);
    var two := MovedAt(one, x, q, m, p, n, e, farE);
    var three := MovedAt(two, x, q, t, q, m, c, false);
    assert three.entries == SwappedAt(i, x, p, n, q, m, c, e, farC, farE).entries;
  }

  /** An exchange is three moves over a name that nobody uses. */
  lemma ExchangeIsThreeMoves(fs: Fs, p: nat, n: string, q: nat, m: string, t: string)
    requires CanExchange(fs, p, n, q, m) && !HasName(fs, q, t) && (p == q ==> t != n) && t != m
    ensures CanMove(fs, p, n, q, t)
    ensures var one := Renamed(fs, p, n, q, t); CanMove(one, q, m, p, n)
    ensures var two := Renamed(Renamed(fs, p, n, q, t), q, m, p, n);
            CanMove(two, q, t, q, m) && Exchanged(fs, p, n, q, m) == Renamed(two, q, t, q, m)
  {
    hide Renamed;
    hide Exchanged;
    hide CanMove;
    hide CanExchange;
    hide MovedAt;
    hide SwappedAt;
    FirstMove(fs, p, n, q, m, t);
    SecondMove(fs, p, n, q, m, t);
    CanMoveFacts(fs, p, n, q, t);
    var one := Renamed(fs, p, n, q, t);
    CanMoveFacts(one, q, m, p, n);
    var two := Renamed(one, q, m, p, n);
    CanMoveFacts(two, q, t, q, m);
    ExchangeFacts(fs, p, n, q, m);
    var three, once := Renamed(two, q, t, q, m), Exchanged(fs, p, n, q, m);
    forall x | x in fs
      ensures x in one && x in two && x in three && x in once && once[x] == three[x]
    {
      ExchangeAt(fs, p, n, q, m, t, x);
    }
    ExchangeKeys(fs, p, n, q, m, t);
    assert once == three;
  }

  lemma ExchangeKeys(fs: Fs, p: nat, n: string, q: nat, m: string, t: string)
    requires CanExchange(fs, p, n, q, m)
    requires CanMove(fs, p, n, q, t)
    requires var one := Renamed(fs, p, n, q, t); CanMove(one, q, m, p, n)
    requires var two := Renamed(Renamed(fs, p, n, q, t), q, m, p, n); CanMove(two, q, t, q, m)
    ensures var two := Renamed(Renamed(fs, p, n, q, t), q, m, p, n);
            Exchanged(fs, p, n, q, m).Keys == fs.Keys && Renamed(two, q, t, q, m).Keys == fs.Keys
  {
    hide Renamed;
    hide Exchanged;
    hide CanMove;
    hide CanExchange;
    hide MovedAt;
    hide SwappedAt;
    CanMoveFacts(fs, p, n, q, t);
    var one := Renamed(fs, p, n, q, t);
    CanMoveFacts(one, q, m, p, n);
    var two := Renamed(one, q, m, p, n);
    CanMoveFacts(two, q, t, q, m);
    RenamedAt(fs, p, n, q, t, q);
    RenamedAt(one, q, m, p, n, q);
    RenamedAt(two, q, t, q, m, q);
    ExchangedAt(fs, p, n, q, m, q);
  }

  lemma ExchangeAt(fs: Fs, p: nat, n: string, q: nat, m: string, t: string, x: nat)
    requires CanExchange(fs, p, n, q, m) && !HasName(fs, q, t) && (p == q ==> t != n) && t != m && x in fs
    requires CanMove(fs, p, n, q, t)
    requires var one := Renamed(fs, p, n, q, t);
             CanMove(one, q, m, p, n) && Meaning(one, q, m) == Meaning(fs, q, m)
    requires var two := Renamed(Renamed(fs, p, n, q, t), q, m, p, n);
             CanMove(two, q, t, q, m) && Meaning(two, q, t) == Meaning(fs, p, n)
    ensures var one := Renamed(fs, p, n, q, t);
            var two := Renamed(one, q, m, p, n);
            var three, once := Renamed(two, q, t, q, m), Exchanged(fs, p, n, q, m);
            x in one && x in two && x in three && x in once && once[x] == three[x]
  {
    hide Renamed;
    hide Exchanged;
    hide CanMove;
    hide CanExchange;
    hide MovedAt;
    hide SwappedAt;
    ExchangeApart(fs, p, n, q, m);
    ExchangeFacts(fs, p, n, q, m);
    var c, e := Meaning(fs, p, n), Meaning(fs, q, m);
    RenamedAt(fs, p, n, q, t, x);
    RenamedAt(fs, p, n, q, t, e);
    var one := Renamed(fs, p, n, q, t);
    CanMoveFacts(one, q, m, p, n);
    MovedIsDir(fs[e], e, p, n, q, t, c, fs[c].isDir && p != q);
    RenamedAt(one, q, m, p, n, x);
    var two := Renamed(one, q, m, p, n);
    RenamedAt(two, q, t, q, m, x);
    ExchangedAt(fs, p, n, q, m, x);
    ThriceAt(fs[x], x, p, n, q, m, t, c, e, fs[c].isDir && p != q, fs[e].isDir && p != q);
  }

  lemma MovedIsDir(i: Inode, x: nat, p: nat, n: string, q: nat, m: string, c: nat, far: bool)
    ensures MovedAt(i, x, p, n, q, m, c, far).isDir == i.isDir
  {
  }

  lemma CanMoveFacts(fs: Fs, p: nat, n: string, q: nat, m: string)
    requires CanMove(fs, p, n, q, m)
    ensures HasName(fs, p, n) && q in fs && (p, n) != (q, m)
    ensures var c := fs[p].entries[n]; c in fs && c != p && c != q
  {
    MovedApart(fs, p, n, q, m);
  }

  lemma ExchangeFacts(fs: Fs, p: nat, n: string, q: nat, m: string)
    requires CanExchange(fs, p, n, q, m)
    ensures HasName(fs, p, n) && HasName(fs, q, m) && fs[p].entries[n] != fs[q].entries[m]
  {
  }

  /** An exchange keeps the tree. */
  lemma ExchangeKeepsTree(fs: Fs, p: nat, n: string, q: nat, m: string)
    requires CanExchange(fs, p, n, q, m)
    ensures Tree(Exchanged(fs, p, n, q, m))
  {
    hide Renamed;
    hide Exchanged;
    hide Tree;
    hide CanMove;
    var names := if q in fs then fs[q].entries.Keys + {n, m} else {};
    var t := FreshName(names);
    ExchangeIsThreeMoves(fs, p, n, q, m, t);
    CanMoveFacts(fs, p, n, q, t);
    CanMoveFacts(Renamed(fs, p, n, q, t), q, m, p, n);
    var two := Renamed(Renamed(fs, p, n, q, t), q, m, p, n);
    RenameKeepsTree(two, q, t, q, m);
  }

  // ---- Adding a name -----------------------------------------------------------------

  /** The name `n` in `p` for an inode: a file gets one more name, a directory
      its first. */
  function Attached(fs: Fs, p: nat, n: string, c: nat): Fs {
    var gs := if IsDir(fs, c) then SetLinks(Raise(SetDotdot(fs, c, p), p), c, 2) else Raise(fs, c);
    SetEntry(gs, p, n, c)
  }

  ghost predicate CanAttach(fs: Fs, p: nat, n: string, c: nat) {
    Tree(fs) && p in fs && fs[p].isDir && p != c && !HasName(fs, p, n) && c in fs && c != ROOT
    && (fs[c].isDir ==> fs[c].links == 0)
  }

  lemma AttachedNames(fs: Fs, p: nat, n: string, c: nat, x: nat)
    requires p in fs
    ensures Names(Attached(fs, p, n, c), x) == Names(fs, x) - {(p, n)} + (if x == c then {(p, n)} else {})
    ensures Subs(Attached(fs, p, n, c), x) == if x != p then Subs(fs, x)
            else Subs(fs, p) - {n} + (if IsDir(fs, c) then {n} else {})
  {
    hide Names;
    hide Subs;
    hide SetEntry;
    var gs := if IsDir(fs, c) then SetLinks(Raise(SetDotdot(fs, c, p), p), c, 2) else Raise(fs, c);
    AttachLinks(fs, c, p);
    SameNames(fs, gs, x);
    SameNames(fs, gs, p);
    NamesSet(gs, p, n, c, x);
    SubsSet(gs, p, n, c, x);
  }

  lemma AttachLinks(fs: Fs, c: nat, p: nat)
    ensures SameEntries(fs, SetLinks(Raise(SetDotdot(fs, c, p), p), c, 2)) && SameEntries(fs, Raise(fs, c))
  {
    var one := SetDotdot(fs, c, p);
    assert SameEntries(fs, one);
    assert SameEntries(one, Raise(one, p));
  }

  lemma AttachedInodes(fs: Fs, p: nat, n: string, c: nat)
    requires p in fs && c in fs && p != c
    ensures var gs := Attached(fs, p, n, c);
            && gs.Keys == fs.Keys
            && forall x :: x in fs ==>
                 && gs[x].isDir == fs[x].isDir
                 && gs[x].dotdot == (if fs[c].isDir && x == c then p else fs[x].dotdot)
                 && gs[x].entries == (if x == p then fs[x].entries[n := c] else fs[x].entries)
                 && gs[x].links == (if x == c then (if fs[c].isDir then 2 else fs[c].links + 1)
                                    else if x == p && fs[c].isDir then fs[p].links + 1
                                    else fs[x].links)
  {
  }

  /** An inode that has no name is in no directory and has no entries. */
  lemma Nameless(fs: Fs, c: nat)
    requires Tree(fs) && c in fs && fs[c].isDir && fs[c].links == 0
    ensures Names(fs, c) == {} && fs[c].entries == map[] && Subs(fs, c) == {}
  {
    assert CountedAt(fs, c);
    if n :| n in fs[c].entries {
      assert HasName(fs, c, n);
      assert false;
    }
  }

  lemma AttachNamed(fs: Fs, p: nat, n: string, c: nat)
    requires CanAttach(fs, p, n, c) && Live(fs, p)
    ensures Named(Attached(fs, p, n, c))
  {
    hide Attached;
    hide Names;
    hide Subs;
    hide Acyclic;
    hide Counted;
    var gs := Attached(fs, p, n, c);
    AttachedInodes(fs, p, n, c);
    forall d, k | HasName(gs, d, k)
      ensures Live(gs, d) && NamedWell(gs, d, gs[d].entries[k])
    {
      if (d, k) != (p, n) {
        assert HasName(fs, d, k);
        NameFacts(fs, d, k);
      }
    }
  }

  lemma AttachFacts(fs: Fs, p: nat, n: string, c: nat, x: nat)
    requires CanAttach(fs, p, n, c) && x in fs
    ensures Tree(fs) && p in fs && fs[p].isDir && p != c && c in fs && c != ROOT
    ensures (fs[c].isDir ==> fs[c].links == 0) && CountedAt(fs, x) && !HasName(fs, p, n)
  {
    hide Acyclic;
    hide Named;
    hide CountedAt;
    hide HasName;
  }

  lemma CountChild(fs: Fs, gs: Fs, c: nat, name: (nat, string))
    requires c in fs && c in gs && c != ROOT && CountedAt(fs, c) && name !in Names(fs, c)
    requires gs[c].isDir == fs[c].isDir && gs[c].links == if fs[c].isDir then 2 else fs[c].links + 1
    requires Names(gs, c) == Names(fs, c) - {name} + {name} && Subs(gs, c) == Subs(fs, c)
    requires fs[c].isDir ==> fs[c].links == 0 && Subs(fs, c) == {}
    ensures CountedAt(gs, c)
  {
    hide Names;
    hide Subs;
    Entered(Names(fs, c), name, true, name);
  }

  lemma CountParent(fs: Fs, gs: Fs, p: nat, n: string, dir: bool)
    requires p in fs && p in gs && CountedAt(fs, p) && n !in Subs(fs, p)
    requires Live(fs, p) && gs[p].isDir == fs[p].isDir && gs[p].links == fs[p].links + (if dir then 1 else 0)
    requires Names(gs, p) == Names(fs, p) && Subs(gs, p) == Subs(fs, p) - {n} + (if dir then {n} else {})
    ensures CountedAt(gs, p)
  {
    hide Names;
    hide Subs;
    Entered(Subs(fs, p), n, dir, n);
  }

  lemma CountOther(fs: Fs, gs: Fs, x: nat)
    requires x in fs && x in gs && CountedAt(fs, x)
    requires gs[x].isDir == fs[x].isDir && gs[x].links == fs[x].links
    requires Names(gs, x) == Names(fs, x) && Subs(gs, x) == Subs(fs, x)
    ensures CountedAt(gs, x)
  {
    hide Names;
    hide Subs;
  }

  lemma AttachCounted(fs: Fs, p: nat, n: string, c: nat, x: nat)
    requires CanAttach(fs, p, n, c) && Live(fs, p) && x in Attached(fs, p, n, c)
    ensures CountedAt(Attached(fs, p, n, c), x)
  {
    hide Attached;
    hide Names;
    hide Subs;
    hide Tree;
    hide HasName;
    hide CanAttach;
    hide CountedAt;
    AttachFacts(fs, p, n, c, p);
    var gs := Attached(fs, p, n, c);
    AttachedInodes(fs, p, n, c);
    AttachFacts(fs, p, n, c, x);
    AttachedNames(fs, p, n, c, x);
    NoSuchName(fs, p, n, x);
    if x == c {
      if fs[c].isDir {
        Nameless(fs, c);
      }
      CountChild(fs, gs, c, (p, n));
    } else {
      NothingTaken(Names(fs, x), (p, n));
      if x == p {
        CountParent(fs, gs, p, n, fs[c].isDir);
      } else {
        CountOther(fs, gs, x);
      }
    }
  }

  lemma NothingTaken<T>(s: set<T>, m: T)
    requires m !in s
    ensures s - {m} + {} == s
  {
  }

  lemma AttachMoves(fs: Fs, p: nat, n: string, c: nat)
    requires CanAttach(fs, p, n, c) && Live(fs, p)
    ensures Moves(fs, Attached(fs, p, n, c), if fs[c].isDir then {c} else {})
  {
    hide Attached;
    hide Names;
    hide Subs;
    hide Counted;
    hide Named;
    var gs := Attached(fs, p, n, c);
    AttachedInodes(fs, p, n, c);
    forall x | Live(gs, x) && x != c
      ensures KeptParent(fs, gs, x)
    {
      if x != ROOT {
        ParentNames(fs, x);
      }
    }
    if fs[c].isDir {
      assert Rises(fs, p);
      var path :| Climbs(fs, p, path);
      assert forall i :: 0 <= i < |path| ==> path[i] != c;
      assert AvoidsAll(fs, p, {c});
    }
  }

  /** Adding a name keeps the tree exactly if the directory has not been
      removed; a removed directory must not be given entries. */
  lemma AttachKeepsTree(fs: Fs, p: nat, n: string, c: nat)
    requires CanAttach(fs, p, n, c)
    ensures Tree(Attached(fs, p, n, c)) <==> Live(fs, p)
  {
    hide Attached;
    hide Names;
    hide Subs;
    hide Acyclic;
    hide Counted;
    hide Named;
    hide Moves;
    var gs := Attached(fs, p, n, c);
    AttachedInodes(fs, p, n, c);
    if Live(fs, p) {
      AttachNamed(fs, p, n, c);
      forall x | x in gs
        ensures CountedAt(gs, x)
      {
        AttachCounted(fs, p, n, c, x);
      }
      CountedAll(gs);
      AttachMoves(fs, p, n, c);
      AcyclicAfter(fs, gs, if fs[c].isDir then {c} else {});
    } else {
      AttachedToRemoved(fs, p, n, c);
    }
  }

  lemma AttachedToRemoved(fs: Fs, p: nat, n: string, c: nat)
    requires CanAttach(fs, p, n, c) && !Live(fs, p)
    ensures !Tree(Attached(fs, p, n, c))
  {
    hide Attached;
    hide Acyclic;
    var gs := Attached(fs, p, n, c);
    AttachedInodes(fs, p, n, c);
    assert HasName(gs, p, n);
    assert !Live(gs, p) || !CountedAt(gs, p);
  }

  /** A fresh inode without a name. */
  function Fresh(fs: Fs, c: nat, isDir: bool): Fs {
    fs[c := Inode(isDir, 0, 0, map[])]
  }

  lemma FreshNames(fs: Fs, c: nat, isDir: bool, x: nat)
    requires Named(fs) && c !in fs
    ensures Names(Fresh(fs, c, isDir), x) == Names(fs, x)
    ensures x !in fs ==> Names(fs, x) == {}
  {
    var gs := Fresh(fs, c, isDir);
    forall d: nat, n: string
      ensures (d, n) in Names(gs, x) <==> (d, n) in Names(fs, x)
    {
    }
    forall d: nat, n: string | (d, n) in Names(fs, x)
      ensures x in fs
    {
      assert HasName(fs, d, n);
    }
  }

  lemma FreshSubs(fs: Fs, c: nat, isDir: bool, x: nat)
    requires Named(fs) && c !in fs && x in fs
    ensures Subs(Fresh(fs, c, isDir), x) == Subs(fs, x)
  {
    forall n | n in fs[x].entries
      ensures fs[x].entries[n] in fs
    {
      assert HasName(fs, x, n);
    }
  }

  lemma FreshNamed(fs: Fs, c: nat, isDir: bool)
    requires Named(fs) && c !in fs
    ensures Named(Fresh(fs, c, isDir))
  {
    var gs := Fresh(fs, c, isDir);
    forall d, n | HasName(gs, d, n)
      ensures Live(gs, d) && NamedWell(gs, d, gs[d].entries[n])
    {
      assert HasName(fs, d, n);
    }
  }

  lemma FreshCounted(fs: Fs, c: nat, isDir: bool, x: nat)
    requires Named(fs) && Counted(fs) && c !in fs && x in Fresh(fs, c, isDir)
    ensures CountedAt(Fresh(fs, c, isDir), x)
  {
    hide Names;
    hide Subs;
    hide Named;
    FreshNames(fs, c, isDir, x);
    if x in fs {
      assert CountedAt(fs, x);
      FreshSubs(fs, c, isDir, x);
    }
  }

  /** A new inode without a name leaves the tree alone. */
  lemma FreshKeepsTree(fs: Fs, c: nat, isDir: bool)
    requires Tree(fs) && c !in fs
    ensures Tree(Fresh(fs, c, isDir))
  {
    hide Names;
    hide Subs;
    hide Acyclic;
    hide Named;
    hide Counted;
    var gs := Fresh(fs, c, isDir);
    FreshNamed(fs, c, isDir);
    forall x | x in gs
      ensures CountedAt(gs, x)
    {
      FreshCounted(fs, c, isDir, x);
    }
    CountedAll(gs);
    forall x | Live(gs, x)
      ensures KeptParent(fs, gs, x)
    {
      if x != ROOT {
        ParentNames(fs, x);
      }
    }
    AcyclicAfter(fs, gs, {});
  }

  // ---- What lookups find afterwards ------------------------------------------------

  /** Changes of other fields leave all names alone. */
  lemma FieldsKeepEntries(fs: Fs, c: nat, v: nat)
    ensures SameEntries(fs, SetLinks(fs, c, v)) && SameEntries(fs, SetDotdot(fs, c, v))
    ensures SameEntries(fs, Lower(fs, c)) && SameEntries(fs, Raise(fs, c))
  {
  }

  lemma SameEntriesTwice(fs: Fs, gs: Fs, hs: Fs)
    requires SameEntries(fs, gs) && SameEntries(gs, hs)
    ensures SameEntries(fs, hs)
  {
  }

  lemma NewParentKeepsEntries(fs: Fs, c: nat, p: nat, q: nat)
    ensures SameEntries(fs, Raise(Lower(SetDotdot(fs, c, q), p), q))
  {
    hide *;
    var a := SetDotdot(fs, c, q);
    var b := Lower(a, p);
    FieldsKeepEntries(fs, c, q);
    FieldsKeepEntries(a, p, 0);
    FieldsKeepEntries(b, q, 0);
    SameEntriesTwice(fs, a, b);
    SameEntriesTwice(fs, b, Raise(b, q));
  }

  lemma SameEntriesRebind(fs: Fs, gs: Fs, hs: Fs, changes: map<(nat, string), Option<nat>>)
    requires Rebinds(fs, gs, changes) && SameEntries(gs, hs)
    ensures Rebinds(fs, hs, changes)
  {
    forall d: nat, n: string
      ensures Lookup(hs, d, n) == Lookup(gs, d, n)
    {
    }
  }

  lemma DropRebinds(fs: Fs, q: nat, m: string)
    requires q in fs
    ensures Rebinds(fs, DropEntry(fs, q, m), map[(q, m) := None])
  {
  }

  lemma SetRebinds(fs: Fs, q: nat, m: string, c: nat)
    requires q in fs
    ensures Rebinds(fs, SetEntry(fs, q, m, c), map[(q, m) := Some(c)]) && SetEntry(fs, q, m, c).Keys == fs.Keys
  {
  }

  lemma RebindsTwice(fs: Fs, gs: Fs, hs: Fs, p: nat, n: string, q: nat, m: string, v: Option<nat>, w: Option<nat>)
    requires Rebinds(fs, gs, map[(q, m) := v]) && Rebinds(gs, hs, map[(p, n) := w]) && (p, n) != (q, m)
    ensures Rebinds(fs, hs, map[(p, n) := w, (q, m) := v])
  {
    hide Lookup;
  }

  lemma UnlinkedRebinds(fs: Fs, q: nat, m: string)
    requires HasName(fs, q, m)
    ensures Rebinds(fs, Unlinked(fs, q, m), map[(q, m) := None])
  {
    hide Rebinds;
    hide SameEntries;
    hide DropEntry;
    hide SetLinks;
    hide Lower;
    hide IsDir;
    hide LinksOf;
    var e := fs[q].entries[m];
    var gs := DropEntry(fs, q, m);
    var lower := Lower(gs, q);
    DropRebinds(fs, q, m);
    FieldsKeepEntries(gs, q, 0);
    FieldsKeepEntries(gs, e, 0);
    FieldsKeepEntries(lower, e, 0);
    SameEntriesTwice(gs, lower, SetLinks(lower, e, 0));
    SameEntriesRebind(fs, gs, Unlinked(fs, q, m), map[(q, m) := None]);
  }

  lemma RenamedRebinds(fs: Fs, p: nat, n: string, q: nat, m: string)
    requires HasName(fs, p, n) && q in fs && (p, n) != (q, m)
    ensures Rebinds(fs, Renamed(fs, p, n, q, m), map[(p, n) := None, (q, m) := Some(fs[p].entries[n])])
  {
    hide Rebinds;
    hide SameEntries;
    hide SetEntry;
    hide DropEntry;
    hide SetDotdot;
    hide Lower;
    hide Raise;
    hide IsDir;
    var c := fs[p].entries[n];
    var changes: map<(nat, string), Option<nat>> := map[(p, n) := None, (q, m) := Some(c)];
    var one := SetEntry(fs, q, m, c);
    var gs := DropEntry(one, p, n);
    SetRebinds(fs, q, m, c);
    DropRebinds(one, p, n);
    RebindsTwice(fs, one, gs, p, n, q, m, Some(c), None);
    NewParentKeepsEntries(gs, c, p, q);
    SameEntriesRebind(fs, gs, Raise(Lower(SetDotdot(gs, c, q), p), q), changes);
  }

  lemma ReplacedRebinds(fs: Fs, p: nat, n: string, q: nat, m: string)
    requires HasName(fs, p, n) && HasName(fs, q, m) && (p, n) != (q, m)
    ensures Rebinds(fs, Replaced(fs, p, n, q, m), map[(p, n) := None, (q, m) := Some(fs[p].entries[n])])
  {
    hide Rebinds;
    hide SameEntries;
    hide SetEntry;
    hide DropEntry;
    hide SetDotdot;
    hide SetLinks;
    hide Lower;
    hide Raise;
    hide IsDir;
    hide LinksOf;
    var c, e := fs[p].entries[n], fs[q].entries[m];
    var changes: map<(nat, string), Option<nat>> := map[(p, n) := None, (q, m) := Some(c)];
    var a := SetEntry(fs, q, m, c);
    var a' := if IsDir(fs, e) then Lower(a, q) else a;
    SetRebinds(fs, q, m, c);
    FieldsKeepEntries(a, q, 0);
    KeysOf(a, a');
    if IsDir(fs, e) {
      SameEntriesRebind(fs, a, a', map[(q, m) := Some(c)]);
    }
    var b := DropEntry(a', p, n);
    DropRebinds(a', p, n);
    RebindsTwice(fs, a', b, p, n, q, m, Some(c), None);
    NewParentKeepsEntries(b, c, p, q);
    var moved := Raise(Lower(SetDotdot(b, c, q), p), q);
    var d := if IsDir(fs, c) && p != q then moved else b;
    if IsDir(fs, c) && p != q {
      SameEntriesRebind(fs, b, d, changes);
    }
    FieldsKeepEntries(d, e, 0);
    SameEntriesRebind(fs, d, Replaced(fs, p, n, q, m), changes);
  }

  lemma KeysOf(fs: Fs, gs: Fs)
    ensures fs == gs || SameEntries(fs, gs) ==> fs.Keys == gs.Keys
  {
  }

  lemma ExchangedRebinds(fs: Fs, p: nat, n: string, q: nat, m: string)
    requires HasName(fs, p, n) && HasName(fs, q, m) && (p, n) != (q, m)
    ensures Rebinds(fs, Exchanged(fs, p, n, q, m),
                    map[(p, n) := Some(fs[q].entries[m]), (q, m) := Some(fs[p].entries[n])])
  {
    hide Rebinds;
    hide SameEntries;
    hide SetEntry;
    hide SetDotdot;
    hide Lower;
    hide Raise;
    hide IsDir;
    var c, e := fs[p].entries[n], fs[q].entries[m];
    var changes: map<(nat, string), Option<nat>> := map[(p, n) := Some(e), (q, m) := Some(c)];
    var one := SetEntry(fs, p, n, e);
    var a := SetEntry(one, q, m, c);
    SetRebinds(fs, p, n, e);
    SetRebinds(one, q, m, c);
    RebindsTwice(fs, one, a, q, m, p, n, Some(e), Some(c));
    assert changes == map[(q, m) := Some(c), (p, n) := Some(e)];
    NewParentKeepsEntries(a, c, p, q);
    var b := if IsDir(fs, c) && p != q then Raise(Lower(SetDotdot(a, c, q), p), q) else a;
    if IsDir(fs, c) && p != q {
      SameEntriesRebind(fs, a, b, changes);
    }
    NewParentKeepsEntries(b, e, q, p);
    if IsDir(fs, e) && p != q {
      SameEntriesRebind(fs, b, Raise(Lower(SetDotdot(b, e, p), q), p), changes);
    }
  }

  lemma AttachedRebinds(fs: Fs, p: nat, n: string, c: nat)
    requires p in fs
    ensures Rebinds(fs, Attached(fs, p, n, c), map[(p, n) := Some(c)])
  {
    hide SetEntry;
    hide SetDotdot;
    hide SetLinks;
    hide Raise;
    hide IsDir;
    hide SameEntries;
    var one := SetDotdot(fs, c, p);
    var two := Raise(one, p);
    var gs := if IsDir(fs, c) then SetLinks(two, c, 2) else Raise(fs, c);
    FieldsKeepEntries(fs, c, p);
    FieldsKeepEntries(one, p, 0);
    FieldsKeepEntries(two, c, 2);
    SameEntriesTwice(fs, one, two);
    SameEntriesTwice(fs, two, SetLinks(two, c, 2));
    KeysOf(fs, gs);
    assert Rebinds(fs, fs, map[]);
    SameEntriesRebind(fs, fs, gs, map[]);
    SetRebinds(gs, p, n, c);
  }

  /** A new inode has no names in it. */
  lemma FreshRebinds(fs: Fs, p: nat, n: string, c: nat, isDir: bool)
    requires p in fs && c !in fs
    ensures Rebinds(fs, Attached(Fresh(fs, c, isDir), p, n, c), map[(p, n) := Some(c)])
  {
    hide Attached;
    AttachedRebinds(Fresh(fs, c, isDir), p, n, c);
    forall d: nat, k: string
      ensures Lookup(Fresh(fs, c, isDir), d, k) == Lookup(fs, d, k)
    {
    }
  }
}
