/** A commit without a journal writes block after block and undoes nothing.
    What it can leave when a write fails, and exactly when that is a tree. */
module TornCommit {
  import opened DirTree
  import opened NameWrites

  /** What is written separately: an entry, the parent of a directory, the link
      count of an inode.  Several may lie in one block, in any order. */
  datatype Item = Entry(dir: nat, name: string) | Parent(id: nat) | Links(id: nat)

  function MergeEntries(was: map<string, nat>, next: map<string, nat>, x: nat, done: set<Item>): map<string, nat> {
    map n | n in was.Keys + next.Keys && n in (if Entry(x, n) in done then next else was) ::
      (if Entry(x, n) in done then next else was)[n]
  }

  function MergeInode(was: Inode, next: Inode, x: nat, done: set<Item>): Inode {
    Inode(was.isDir, (if Links(x) in done then next else was).links,
          (if Parent(x) in done then next else was).dotdot, MergeEntries(was.entries, next.entries, x, done))
  }

  /** The items in `done` are there as in `next`, the others as before. */
  function Merge(was: Fs, next: Fs, done: set<Item>): Fs
    requires next.Keys == was.Keys
  {
    map x | x in was :: MergeInode(was[x], next[x], x, done)
  }

  /** Some of what was to be changed has been. */
  ghost predicate Torn(was: Fs, next: Fs, gs: Fs) {
    next.Keys == was.Keys && exists done: set<Item> :: gs == Merge(was, next, done)
  }

  /** Same inodes of the same kind. */
  predicate SameInodes(fs: Fs, gs: Fs) {
    gs.Keys == fs.Keys && forall x :: x in fs ==> gs[x].isDir == fs[x].isDir
  }

  predicate DiffersAt(a: map<string, nat>, b: map<string, nat>, n: string) {
    if n in a then n !in b || a[n] != b[n] else n in b
  }

  /** Everything that differs. */
  function Changed(was: Fs, next: Fs): set<Item>
    requires next.Keys == was.Keys
  {
    (set x | x in was && was[x].links != next[x].links :: Links(x))
    + (set x | x in was && was[x].dotdot != next[x].dotdot :: Parent(x))
    + (set x, n | x in was && n in was[x].entries.Keys + next[x].entries.Keys
                  && DiffersAt(was[x].entries, next[x].entries, n) :: Entry(x, n))
  }

  lemma ChangedAt(was: Fs, next: Fs, x: nat)
    requires next.Keys == was.Keys && x in was
    ensures was[x].links != next[x].links <==> Links(x) in Changed(was, next)
    ensures was[x].dotdot != next[x].dotdot <==> Parent(x) in Changed(was, next)
    ensures forall n :: DiffersAt(was[x].entries, next[x].entries, n) <==> Entry(x, n) in Changed(was, next)
  {
  }

  lemma EntriesUniform(was: map<string, nat>, next: map<string, nat>, x: nat, done: set<Item>, all: bool)
    requires forall n :: DiffersAt(was, next, n) ==> (Entry(x, n) in done <==> all)
    ensures MergeEntries(was, next, x, done) == if all then next else was
  {
  }

  /** With all that differs written, the commit is complete; with nothing of it,
      all is as before. */
  lemma MergeUniform(was: Fs, next: Fs, done: set<Item>, all: bool)
    requires SameInodes(was, next) && forall i :: i in Changed(was, next) ==> (i in done <==> all)
    ensures Merge(was, next, done) == if all then next else was
  {
    hide MergeEntries;
    hide Changed;
    hide DiffersAt;
    var goal := if all then next else was;
    forall x | x in was
      ensures MergeInode(was[x], next[x], x, done) == goal[x]
    {
      ChangedAt(was, next, x);
      EntriesUniform(was[x].entries, next[x].entries, x, done, all);
    }
  }

  /** What of inode `x` is there. */
  lemma MergedAt(was: Fs, next: Fs, done: set<Item>, x: nat)
    requires next.Keys == was.Keys && x in was
    ensures var gs := Merge(was, next, done);
            && x in gs && gs[x].isDir == was[x].isDir
            && gs[x].links == (if Links(x) in done then next else was)[x].links
            && gs[x].dotdot == (if Parent(x) in done then next else was)[x].dotdot
            && gs[x].entries == MergeEntries(was[x].entries, next[x].entries, x, done)
  {
  }

  lemma EntriesOne(was: map<string, nat>, m: string, x: nat, here: bool, done: set<Item>)
    ensures MergeEntries(was, if here then was - {m} else was, x, done)
            == if here && Entry(x, m) in done then was - {m} else was
  {
  }

  // ---- Name by name, count by count -----------------------------------------------------

  /** Each field and each name of the inode is as it was or as it should be. */
  ghost predicate EitherWay(was: Fs, next: Fs, gs: Fs, x: nat)
    requires x in was && x in next && x in gs
  {
    && gs[x].isDir == was[x].isDir
    && (gs[x].links == was[x].links || gs[x].links == next[x].links)
    && (gs[x].dotdot == was[x].dotdot || gs[x].dotdot == next[x].dotdot)
    && (forall n :: Lookup(gs, x, n) == Lookup(was, x, n) || Lookup(gs, x, n) == Lookup(next, x, n))
  }

  lemma LookupMerged(was: Fs, next: Fs, done: set<Item>, x: nat, n: string)
    requires next.Keys == was.Keys && x in was
    ensures Lookup(Merge(was, next, done), x, n)
            == if Entry(x, n) in done then Lookup(next, x, n) else Lookup(was, x, n)
  {
  }

  /** The items that are there. */
  function Landed(was: Fs, next: Fs, gs: Fs): set<Item>
    requires next.Keys == was.Keys == gs.Keys
  {
    (set x | x in was && gs[x].links == next[x].links :: Links(x))
    + (set x | x in was && gs[x].dotdot == next[x].dotdot :: Parent(x))
    + (set x, n | x in was && n in was[x].entries.Keys + next[x].entries.Keys
                  && Lookup(gs, x, n) == Lookup(next, x, n) :: Entry(x, n))
  }

  lemma LandedAt(was: Fs, next: Fs, gs: Fs, x: nat)
    requires next.Keys == was.Keys == gs.Keys && x in was
    ensures Links(x) in Landed(was, next, gs) <==> gs[x].links == next[x].links
    ensures Parent(x) in Landed(was, next, gs) <==> gs[x].dotdot == next[x].dotdot
    ensures forall n :: Entry(x, n) in Landed(was, next, gs) <==>
              n in was[x].entries.Keys + next[x].entries.Keys && Lookup(gs, x, n) == Lookup(next, x, n)
  {
  }

  lemma EntriesFromLookups(fs: Fs, gs: Fs, x: nat)
    requires x in fs && x in gs && forall n :: Lookup(fs, x, n) == Lookup(gs, x, n)
    ensures fs[x].entries == gs[x].entries
  {
    forall n
      ensures n in fs[x].entries <==> n in gs[x].entries
      ensures n in fs[x].entries ==> fs[x].entries[n] == gs[x].entries[n]
    {
      assert Lookup(fs, x, n) == Lookup(gs, x, n);
    }
  }

  lemma MergeLanded(was: Fs, next: Fs, gs: Fs, x: nat)
    requires next.Keys == was.Keys == gs.Keys && x in was && EitherWay(was, next, gs, x)
    ensures Merge(was, next, Landed(was, next, gs))[x] == gs[x]
  {
    hide Landed;
    hide Merge;
    hide MergeEntries;
    var done := Landed(was, next, gs);
    var merged := Merge(was, next, done);
    MergedAt(was, next, done, x);
    LandedAt(was, next, gs, x);
    forall n
      ensures Lookup(merged, x, n) == Lookup(gs, x, n)
    {
      LookupMerged(was, next, done, x, n);
    }
    EntriesFromLookups(merged, gs, x);
  }

  /** Any combination of written and unwritten fields and names can be left, and
      nothing else. */
  lemma TornIff(was: Fs, next: Fs, gs: Fs)
    requires SameInodes(was, next)
    ensures Torn(was, next, gs) <==> gs.Keys == was.Keys && forall x :: x in was ==> EitherWay(was, next, gs, x)
  {
    hide MergeEntries;
    hide MergeInode;
    if Torn(was, next, gs) {
      var done :| gs == Merge(was, next, done);
      forall x | x in was
        ensures EitherWay(was, next, gs, x)
      {
        MergedAt(was, next, done, x);
        forall n
          ensures Lookup(gs, x, n) == Lookup(was, x, n) || Lookup(gs, x, n) == Lookup(next, x, n)
        {
          LookupMerged(was, next, done, x, n);
        }
      }
    }
    if gs.Keys == was.Keys && forall x :: x in was ==> EitherWay(was, next, gs, x) {
      var merged := Merge(was, next, Landed(was, next, gs));
      forall x | x in was
        ensures merged[x] == gs[x]
      {
        MergeLanded(was, next, gs, x);
      }
      assert merged == gs;
    }
  }

  // ---- Removing the last name --------------------------------------------------------

  /** The entries that are left. */
  lemma RemovalEntries(fs: Fs, q: nat, m: string, done: set<Item>)
    requires Tree(fs) && HasName(fs, q, m)
    ensures SameInodes(fs, Unlinked(fs, q, m))
    ensures var gs := Merge(fs, Unlinked(fs, q, m), done);
            SameEntries(gs, if Entry(q, m) in done then DropEntry(fs, q, m) else fs)
  {
    hide Unlinked;
    hide Tree;
    hide Merge;
    hide MergeEntries;
    UnlinkedInodes(fs, q, m);
    var next := Unlinked(fs, q, m);
    var gs := Merge(fs, next, done);
    MergeKeys(fs, next, done);
    forall x | x in fs
      ensures gs[x].isDir == fs[x].isDir
      ensures gs[x].entries == if x == q && Entry(q, m) in done then fs[x].entries - {m} else fs[x].entries
    {
      MergedAt(fs, next, done, x);
      EntriesOne(fs[x].entries, m, x, x == q, done);
    }
  }

  lemma RemovalChanges(fs: Fs, q: nat, m: string)
    requires Tree(fs) && HasName(fs, q, m) && SameInodes(fs, Unlinked(fs, q, m))
    ensures var e := fs[q].entries[m];
            forall i :: i in Changed(fs, Unlinked(fs, q, m)) ==>
              i == Entry(q, m) || i == Links(e) || (i == Links(q) && IsDir(fs, e))
  {
    hide Unlinked;
    hide Tree;
    UnlinkedInodes(fs, q, m);
    NameFacts(fs, q, m);
    var next := Unlinked(fs, q, m);
    forall i | i in Changed(fs, next)
      ensures i == Entry(q, m) || i == Links(fs[q].entries[m]) || (i == Links(q) && IsDir(fs, fs[q].entries[m]))
    {
      match i
      case Entry(x, n) => assert DiffersAt(fs[x].entries, next[x].entries, n);
      case Parent(x) =>
      case Links(x) =>
    }
  }

  /** In a tree, all of the removal is there or nothing. */
  lemma RemovalTogether(fs: Fs, q: nat, m: string, done: set<Item>)
    requires Tree(fs) && HasName(fs, q, m) && SameInodes(fs, Unlinked(fs, q, m))
    requires var e := fs[q].entries[m]; RemovalIsFinal(IsDir(fs, e), LinksOf(fs, e))
    requires Tree(Merge(fs, Unlinked(fs, q, m), done))
    ensures var e := fs[q].entries[m];
            && (Entry(q, m) in done <==> Links(e) in done)
            && (IsDir(fs, e) ==> (Entry(q, m) in done <==> Links(q) in done))
  {
    hide Unlinked;
    hide Names;
    hide Subs;
    hide Merge;
    hide Acyclic;
    hide Named;
    hide SameEntries;
    hide DropEntry;
    UnlinkedInodes(fs, q, m);
    NameFacts(fs, q, m);
    var e, next := fs[q].entries[m], Unlinked(fs, q, m);
    var gs := Merge(fs, next, done);
    RemovalEntries(fs, q, m, done);
    MergedAt(fs, next, done, e);
    MergedAt(fs, next, done, q);
    var kept := if Entry(q, m) in done then DropEntry(fs, q, m) else fs;
    SameNames(gs, kept, e);
    SameNames(gs, kept, q);
    NamesDrop(fs, q, m, e);
    SubsDrop(fs, q, m, q);
    OneLess(Names(fs, e), (q, m));
    OneLess(Subs(fs, q), m);
    CountedOne(fs, e);
    CountedOne(fs, q);
    CountedOne(gs, e);
    CountedOne(gs, q);
  }

  /** With one item changed of two that belong together, no tree is left. */
  lemma TornRemoval(fs: Fs, q: nat, m: string, done: set<Item>)
    requires Tree(fs) && HasName(fs, q, m)
    requires var e := fs[q].entries[m];
             && RemovalIsFinal(IsDir(fs, e), LinksOf(fs, e)) && (IsDir(fs, e) ==> fs[e].entries == map[])
    ensures SameInodes(fs, Unlinked(fs, q, m))
    ensures var gs := Merge(fs, Unlinked(fs, q, m), done);
            Tree(gs) <==> gs == fs || gs == Unlinked(fs, q, m)
  {
    hide Unlinked;
    hide Tree;
    hide Merge;
    hide SameEntries;
    UnlinkKeepsTree(fs, q, m);
    RemovalEntries(fs, q, m, done);
    if Tree(Merge(fs, Unlinked(fs, q, m), done)) {
      RemovalTogether(fs, q, m, done);
      RemovalChanges(fs, q, m);
      MergeUniform(fs, Unlinked(fs, q, m), done, Entry(q, m) in done);
    }
  }

  // ---- Replacing a name ----------------------------------------------------------------

  lemma EntriesTwo(was: map<string, nat>, n: string, m: string, c: nat, x: nat, p: nat, q: nat, done: set<Item>)
    requires (p, n) != (q, m)
    ensures MergeEntries(was, (if x == q then was[m := c] else was) - (if x == p then {n} else {}), x, done)
            == (if x == q && Entry(x, m) in done then was[m := c] else was)
               - (if x == p && Entry(x, n) in done then {n} else {})
  {
  }

  /** What a replacement demands, except that it may make a circle. */
  ghost predicate MayReplace(fs: Fs, p: nat, n: string, q: nat, m: string) {
    && Tree(fs) && HasName(fs, p, n) && HasName(fs, q, m)
    && var c, e := fs[p].entries[n], fs[q].entries[m];
       && c != e && c != q && IsDir(fs, c) == IsDir(fs, e)
       && (IsDir(fs, e) ==> fs[e].entries == map[])
  }

  lemma MayReplaceApart(fs: Fs, p: nat, n: string, q: nat, m: string)
    requires MayReplace(fs, p, n, q, m)
    ensures var c, e := fs[p].entries[n], fs[q].entries[m];
            && c in fs && e in fs && p in fs && q in fs && c != p && c != q && e != q && e != p
            && c != ROOT && e != ROOT && c != e && (p, n) != (q, m) && Live(fs, q) && Live(fs, p)
            && (fs[e].isDir ==> fs[q].links >= 3) && fs[e].links > 0 && fs[c].links > 0
            && (fs[c].isDir ==> fs[p].links >= 3) && fs[c].isDir == fs[e].isDir
            && (fs[c].isDir ==> fs[c].dotdot == p)
  {
    hide Names;
    hide Subs;
    NameFacts(fs, p, n);
    NameFacts(fs, q, m);
  }

  /** The entries at some point of the replacement. */
  function Renames(fs: Fs, p: nat, n: string, q: nat, m: string, done: set<Item>): Fs
    requires HasName(fs, p, n)
  {
    var a := if Entry(q, m) in done then SetEntry(fs, q, m, fs[p].entries[n]) else fs;
    if Entry(p, n) in done then DropEntry(a, p, n) else a
  }

  lemma RenamesAt(fs: Fs, p: nat, n: string, q: nat, m: string, done: set<Item>, x: nat)
    requires HasName(fs, p, n) && x in fs && q in fs
    ensures var c, b := fs[p].entries[n], Renames(fs, p, n, q, m, done);
            && b.Keys == fs.Keys && b[x].isDir == fs[x].isDir
            && b[x].entries == (if x == q && Entry(x, m) in done then fs[x].entries[m := c] else fs[x].entries)
                               - (if x == p && Entry(x, n) in done then {n} else {})
  {
    NothingRemoved(fs[x].entries);
    NothingRemoved(fs[x].entries[m := fs[p].entries[n]]);
  }

  lemma ReplaceEntriesAt(fs: Fs, p: nat, n: string, q: nat, m: string, done: set<Item>, x: nat)
    requires MayReplace(fs, p, n, q, m) && x in fs
    ensures SameInodes(fs, Replaced(fs, p, n, q, m))
    ensures var gs, b := Merge(fs, Replaced(fs, p, n, q, m), done), Renames(fs, p, n, q, m, done);
            gs.Keys == b.Keys == fs.Keys && gs[x].isDir == b[x].isDir && gs[x].entries == b[x].entries
  {
    hide Replaced;
    hide MayReplace;
    hide Merge;
    hide MergeEntries;
    hide Renames;
    MayReplaceApart(fs, p, n, q, m);
    MayReplaceFacts(fs, p, n, q, m);
    ReplacedInodes(fs, p, n, q, m);
    MergeKeys(fs, Replaced(fs, p, n, q, m), done);
    MergedAt(fs, Replaced(fs, p, n, q, m), done, x);
    EntriesTwo(fs[x].entries, n, m, fs[p].entries[n], x, p, q, done);
    RenamesAt(fs, p, n, q, m, done, x);
  }

  lemma ReplaceEntries(fs: Fs, p: nat, n: string, q: nat, m: string, done: set<Item>)
    requires MayReplace(fs, p, n, q, m)
    ensures SameInodes(fs, Replaced(fs, p, n, q, m))
    ensures SameEntries(Merge(fs, Replaced(fs, p, n, q, m), done), Renames(fs, p, n, q, m, done))
  {
    hide Replaced;
    hide Merge;
    hide Renames;
    hide Tree;
    forall x | x in fs
      ensures SameInodes(fs, Replaced(fs, p, n, q, m))
      ensures var gs, b := Merge(fs, Replaced(fs, p, n, q, m), done), Renames(fs, p, n, q, m, done);
              gs.Keys == b.Keys == fs.Keys && gs[x].isDir == b[x].isDir && gs[x].entries == b[x].entries
    {
      ReplaceEntriesAt(fs, p, n, q, m, done, x);
    }
    assert p in fs;
  }

  lemma MayReplaceFacts(fs: Fs, p: nat, n: string, q: nat, m: string)
    requires MayReplace(fs, p, n, q, m)
    ensures Tree(fs) && HasName(fs, p, n) && HasName(fs, q, m)
  {
  }

  lemma MergeKeys(was: Fs, next: Fs, done: set<Item>)
    requires next.Keys == was.Keys
    ensures Merge(was, next, done).Keys == was.Keys
  {
  }

  lemma ReplaceChanges(fs: Fs, p: nat, n: string, q: nat, m: string)
    requires MayReplace(fs, p, n, q, m) && SameInodes(fs, Replaced(fs, p, n, q, m))
    ensures var c, e := fs[p].entries[n], fs[q].entries[m];
            forall i :: i in Changed(fs, Replaced(fs, p, n, q, m)) ==>
              || i == Entry(q, m) || i == Entry(p, n) || i == Links(e)
              || (fs[c].isDir && p != q && (i == Parent(c) || i == Links(p)))
              || (fs[c].isDir && p == q && i == Links(q))
  {
    hide Replaced;
    hide Tree;
    MayReplaceApart(fs, p, n, q, m);
    ReplacedInodes(fs, p, n, q, m);
    var c, e, next := fs[p].entries[n], fs[q].entries[m], Replaced(fs, p, n, q, m);
    forall i | i in Changed(fs, next)
      ensures || i == Entry(q, m) || i == Entry(p, n) || i == Links(e)
              || (fs[c].isDir && p != q && (i == Parent(c) || i == Links(p)))
              || (fs[c].isDir && p == q && i == Links(q))
    {
      match i
      case Entry(x, k) => assert DiffersAt(fs[x].entries, next[x].entries, k);
      case Parent(x) =>
      case Links(x) =>
    }
  }

  /** The names of one inode at some point of the replacement. */
  lemma RenamesNames(fs: Fs, p: nat, n: string, q: nat, m: string, done: set<Item>, x: nat)
    requires HasName(fs, p, n) && q in fs
    ensures var c, b := fs[p].entries[n], Renames(fs, p, n, q, m, done);
            var one := if Entry(q, m) in done then Names(fs, x) - {(q, m)} + (if x == c then {(q, m)} else {})
                       else Names(fs, x);
            Names(b, x) == if Entry(p, n) in done then one - {(p, n)} else one
    ensures var c, b := fs[p].entries[n], Renames(fs, p, n, q, m, done);
            var one := if Entry(q, m) in done && x == q then Subs(fs, q) - {m} + (if IsDir(fs, c) then {m} else {})
                       else Subs(fs, x);
            Subs(b, x) == if Entry(p, n) in done && x == p then one - {n} else one
  {
    hide Names;
    hide Subs;
    hide SetEntry;
    hide DropEntry;
    var c := fs[p].entries[n];
    NamesSet(fs, q, m, c, x);
    SubsSet(fs, q, m, c, x);
    var a := if Entry(q, m) in done then SetEntry(fs, q, m, c) else fs;
    SetKeys(fs, q, m, c);
    NamesDrop(a, p, n, x);
    SubsDrop(a, p, n, x);
  }

  /** The numbers of names that are left. */
  lemma RenamesCounts(fs: Fs, p: nat, n: string, q: nat, m: string, done: set<Item>)
    requires MayReplace(fs, p, n, q, m)
    ensures var c, e, b := fs[p].entries[n], fs[q].entries[m], Renames(fs, p, n, q, m, done);
            var entered, gone := if Entry(q, m) in done then 1 else 0, if Entry(p, n) in done then 1 else 0;
            && |Names(b, c)| == |Names(fs, c)| + entered - gone
            && |Names(b, e)| == |Names(fs, e)| - entered
  {
    hide Names;
    hide Subs;
    hide Renames;
    hide Tree;
    var c, e := fs[p].entries[n], fs[q].entries[m];
    MayReplaceApart(fs, p, n, q, m);
    RenamesNames(fs, p, n, q, m, done, c);
    RenamesNames(fs, p, n, q, m, done, e);
    NameOfOne(fs, p, n, c);
    NameOfOne(fs, p, n, e);
    NameOfOne(fs, q, m, c);
    NameOfOne(fs, q, m, e);
    InAndOut(Names(fs, c), (q, m), (p, n));
    OneLess(Names(fs, e), (q, m));
    OneLess(Names(fs, e), (p, n));
    OneLess(Names(fs, e) - {(q, m)}, (p, n));
    assert Names(fs, e) - {(q, m)} + {} == Names(fs, e) - {(q, m)};
  }

  lemma InAndOut<T>(s: set<T>, a: T, b: T)
    requires a !in s && b in s
    ensures |s - {a} + {a}| == |s| + 1 && |s - {b}| == |s| - 1 && |s - {a} + {a} - {b}| == |s|
  {
    assert s - {a} == s;
    OneMore(s, a);
    OneLess(s, b);
    OneLess(s + {a}, b);
  }

  /** In a tree, the entries change together, with the count of the inode that
      lost its name. */
  lemma ReplaceTogether(fs: Fs, p: nat, n: string, q: nat, m: string, done: set<Item>)
    requires MayReplace(fs, p, n, q, m) && SameInodes(fs, Replaced(fs, p, n, q, m))
    requires Tree(Merge(fs, Replaced(fs, p, n, q, m), done))
    ensures Entry(p, n) in done <==> Entry(q, m) in done
    ensures Links(fs[q].entries[m]) in done <==> Entry(q, m) in done
  {
    hide Replaced;
    hide Names;
    hide Subs;
    hide Merge;
    hide Acyclic;
    hide Named;
    hide SameEntries;
    hide Renames;
    var c, e, next := fs[p].entries[n], fs[q].entries[m], Replaced(fs, p, n, q, m);
    var gs := Merge(fs, next, done);
    MayReplaceApart(fs, p, n, q, m);
    ReplacedInodes(fs, p, n, q, m);
    ReplaceEntries(fs, p, n, q, m, done);
    MergedAt(fs, next, done, c);
    MergedAt(fs, next, done, e);
    SameNames(gs, Renames(fs, p, n, q, m, done), c);
    SameNames(gs, Renames(fs, p, n, q, m, done), e);
    RenamesCounts(fs, p, n, q, m, done);
    CountedOne(fs, c);
    CountedOne(fs, e);
    CountedOne(gs, c);
    CountedOne(gs, e);
  }

  /** For directories, so do the counts of their parents. */
  lemma ReplaceSubs(fs: Fs, p: nat, n: string, q: nat, m: string, done: set<Item>)
    requires MayReplace(fs, p, n, q, m) && SameInodes(fs, Replaced(fs, p, n, q, m))
    requires Tree(Merge(fs, Replaced(fs, p, n, q, m), done)) && fs[fs[p].entries[n]].isDir
    requires Entry(p, n) in done <==> Entry(q, m) in done
    ensures p != q ==> (Links(p) in done <==> Entry(p, n) in done)
    ensures p == q ==> (Links(q) in done <==> Entry(p, n) in done)
  {
    hide Replaced;
    hide Names;
    hide Subs;
    hide Merge;
    hide Acyclic;
    hide Named;
    hide SameEntries;
    hide Renames;
    var c, next := fs[p].entries[n], Replaced(fs, p, n, q, m);
    var gs := Merge(fs, next, done);
    MayReplaceApart(fs, p, n, q, m);
    ReplacedInodes(fs, p, n, q, m);
    ReplaceEntries(fs, p, n, q, m, done);
    MergedAt(fs, next, done, p);
    SameNames(gs, Renames(fs, p, n, q, m, done), p);
    RenamesNames(fs, p, n, q, m, done, p);
    NameFacts(fs, p, n);
    NameFacts(fs, q, m);
    OneLess(Subs(fs, p), n);
    if p == q {
      assert Subs(fs, q) - {m} + {m} == Subs(fs, q);
    }
    CountedOne(fs, p);
    CountedOne(gs, p);
  }

  /** And ".." follows the name. */
  lemma ReplaceParent(fs: Fs, p: nat, n: string, q: nat, m: string, done: set<Item>)
    requires MayReplace(fs, p, n, q, m) && SameInodes(fs, Replaced(fs, p, n, q, m))
    requires Tree(Merge(fs, Replaced(fs, p, n, q, m), done)) && fs[fs[p].entries[n]].isDir && p != q
    requires Entry(p, n) in done <==> Entry(q, m) in done
    ensures Parent(fs[p].entries[n]) in done <==> Entry(q, m) in done
  {
    hide Replaced;
    hide Names;
    hide Subs;
    hide Merge;
    hide Acyclic;
    hide Counted;
    hide SameEntries;
    hide Renames;
    hide Named;
    var c, next := fs[p].entries[n], Replaced(fs, p, n, q, m);
    var gs := Merge(fs, next, done);
    MayReplaceApart(fs, p, n, q, m);
    ReplacedInodes(fs, p, n, q, m);
    ReplaceEntriesAt(fs, p, n, q, m, done, p);
    ReplaceEntriesAt(fs, p, n, q, m, done, q);
    RenamesAt(fs, p, n, q, m, done, p);
    RenamesAt(fs, p, n, q, m, done, q);
    MergedAt(fs, next, done, c);
    if Entry(q, m) in done {
      NameFacts(gs, q, m);
    } else {
      NameFacts(gs, p, n);
    }
  }

  /** Of a replacement, too, only all or nothing can be a tree. */
  lemma TornReplace(fs: Fs, p: nat, n: string, q: nat, m: string, done: set<Item>)
    requires MayReplace(fs, p, n, q, m)
    ensures SameInodes(fs, Replaced(fs, p, n, q, m))
    ensures var gs := Merge(fs, Replaced(fs, p, n, q, m), done);
            Tree(gs) ==> gs == fs || gs == Replaced(fs, p, n, q, m)
  {
    hide Replaced;
    hide MayReplace;
    hide Tree;
    hide Merge;
    hide SameEntries;
    hide Renames;
    MayReplaceFacts(fs, p, n, q, m);
    MayReplaceApart(fs, p, n, q, m);
    ReplaceEntries(fs, p, n, q, m, done);
    if Tree(Merge(fs, Replaced(fs, p, n, q, m), done)) {
      var c := fs[p].entries[n];
      ReplaceTogether(fs, p, n, q, m, done);
      if fs[c].isDir {
        ReplaceSubs(fs, p, n, q, m, done);
        if p != q {
          ReplaceParent(fs, p, n, q, m, done);
        }
      }
      ReplaceChanges(fs, p, n, q, m);
      MergeUniform(fs, Replaced(fs, p, n, q, m), done, Entry(q, m) in done);
    }
  }

  // ---- A new name for an inode without one ---------------------------------------------

  lemma RelinkAt(fs: Fs, p: nat, n: string, c: nat, done: set<Item>)
    requires p in fs && c in fs && p != c && !HasName(fs, p, n) && !fs[c].isDir && fs[c].links == 0
    ensures SameInodes(fs, Attached(fs, p, n, c))
    ensures var gs := Merge(fs, Attached(fs, p, n, c), done);
            && gs == (var one := if Links(c) in done then SetLinks(fs, c, 1) else fs;
                      if Entry(p, n) in done then SetEntry(one, p, n, c) else one)
    ensures Attached(fs, p, n, c) == SetEntry(SetLinks(fs, c, 1), p, n, c)
  {
    hide Merge;
    hide MergeEntries;
    var next := Attached(fs, p, n, c);
    var gs := Merge(fs, next, done);
    var one := if Links(c) in done then SetLinks(fs, c, 1) else fs;
    var goal := if Entry(p, n) in done then SetEntry(one, p, n, c) else one;
    assert next == SetEntry(SetLinks(fs, c, 1), p, n, c);
    MergeKeys(fs, next, done);
    forall x | x in fs
      ensures gs[x] == goal[x]
    {
      MergedAt(fs, next, done, x);
      EntriesNew(fs[x].entries, n, c, x, x == p, done);
    }
    assert gs == goal;
  }

  lemma EntriesNew(was: map<string, nat>, n: string, c: nat, x: nat, here: bool, done: set<Item>)
    requires here ==> n !in was
    ensures MergeEntries(was, if here then was[n := c] else was, x, done)
            == if here && Entry(x, n) in done then was[n := c] else was
  {
  }

  /** The name and the count belong together. */
  lemma TornRelink(fs: Fs, p: nat, n: string, c: nat, done: set<Item>)
    requires CanAttach(fs, p, n, c) && !fs[c].isDir && fs[c].links == 0
    ensures SameInodes(fs, Attached(fs, p, n, c))
    ensures var gs := Merge(fs, Attached(fs, p, n, c), done);
            Tree(gs) <==> gs == fs || (gs == Attached(fs, p, n, c) && Live(fs, p))
  {
    hide Tree;
    hide Attached;
    hide Merge;
    hide SetEntry;
    hide SetLinks;
    RelinkAt(fs, p, n, c, done);
    AttachKeepsTree(fs, p, n, c);
    LinkTooMany(fs, c);
    NameTooMany(fs, p, n, c);
  }

  /** The last name of a file is removed, and only one of the two writes is
      there. */
  lemma TornExample()
    ensures var fs := TwoFiles();
            && Tree(fs) && HasName(fs, ROOT, "a") && RemovalIsFinal(false, fs[11].links)
            && Torn(fs, Unlinked(fs, ROOT, "a"), DropEntry(fs, ROOT, "a")) && !Tree(DropEntry(fs, ROOT, "a"))
  {
    hide Tree;
    hide Merge;
    hide MergeEntries;
    hide Unlinked;
    hide Names;
    hide Subs;
    var fs, done := TwoFiles(), {Entry(ROOT, "a")};
    TwoFilesTree();
    DropLeavesNoTree(fs, ROOT, "a");
    UnlinkedInodes(fs, ROOT, "a");
    var next, goal := Unlinked(fs, ROOT, "a"), DropEntry(fs, ROOT, "a");
    var gs := Merge(fs, next, done);
    MergeKeys(fs, next, done);
    forall x | x in fs
      ensures gs[x] == goal[x]
    {
      MergedAt(fs, next, done, x);
      EntriesOne(fs[x].entries, "a", x, x == ROOT, done);
    }
    assert gs == goal;
  }
}
