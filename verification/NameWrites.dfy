/** The direct writes behind the operations on names, in order; what a failure
    among them leaves behind; and exactly when the outcome is still a tree. */
module NameWrites {
  import opened DirTree

  datatype Change =
    | Enter(dir: nat, name: string, id: nat)
    | Leave(dir: nat, name: string)
    | Reparent(id: nat, dir: nat)
    | Count(id: nat, links: nat)
    | CountDown(id: nat)
    | CountUp(id: nat)

  function Apply(fs: Fs, w: Change): Fs {
    match w
    case Enter(d, n, c) => SetEntry(fs, d, n, c)
    case Leave(d, n) => DropEntry(fs, d, n)
    case Reparent(c, d) => SetDotdot(fs, c, d)
    case Count(c, k) => SetLinks(fs, c, k)
    case CountDown(c) => Lower(fs, c)
    case CountUp(c) => Raise(fs, c)
  }

  function ApplyAll(fs: Fs, ws: seq<Change>): Fs {
    if ws == [] then fs else Apply(ApplyAll(fs, ws[..|ws| - 1]), ws[|ws| - 1])
  }

  /** The first few writes are there. */
  ghost predicate Partway(fs: Fs, ws: seq<Change>, gs: Fs) {
    exists k: nat :: k <= |ws| && gs == ApplyAll(fs, ws[..k])
  }

  /** One more write. */
  lemma NextWrite(fs: Fs, ws: seq<Change>, k: nat)
    requires k < |ws|
    ensures ApplyAll(fs, ws[..k + 1]) == Apply(ApplyAll(fs, ws[..k]), ws[k])
    ensures Partway(fs, ws, ApplyAll(fs, ws[..k])) && Partway(fs, ws, ApplyAll(fs, ws[..k + 1]))
  {
    assert ws[..k + 1][..k] == ws[..k];
  }

  lemma NoWrite(fs: Fs, ws: seq<Change>)
    ensures ApplyAll(fs, ws[..0]) == fs && Partway(fs, ws, fs)
    ensures ws[..|ws|] == ws
  {
  }

  lemma OneWrite(fs: Fs, ws: seq<Change>, w: Change)
    ensures ApplyAll(fs, ws + [w]) == Apply(ApplyAll(fs, ws), w)
  {
    assert (ws + [w])[..|ws|] == ws;
  }

  lemma TwoWrites(fs: Fs, ws: seq<Change>, a: Change, b: Change)
    ensures ApplyAll(fs, ws + [a, b]) == Apply(Apply(ApplyAll(fs, ws), a), b)
  {
    hide Apply;
    hide ApplyAll;
    assert ws + [a, b] == ws + [a] + [b];
    OneWrite(fs, ws, a);
    OneWrite(fs, ws + [a], b);
  }

  lemma ThreeWrites(fs: Fs, ws: seq<Change>, a: Change, b: Change, c: Change)
    ensures ApplyAll(fs, ws + [a, b, c]) == Apply(Apply(Apply(ApplyAll(fs, ws), a), b), c)
  {
    hide Apply;
    hide ApplyAll;
    assert ws + [a, b, c] == ws + [a, b] + [c];
    TwoWrites(fs, ws, a, b);
    OneWrite(fs, ws + [a, b], c);
  }

  // ---- Moving a name -----------------------------------------------------------------

  /** A directory gets a new parent. */
  function Relinks(fs: Fs, p: nat, c: nat, q: nat): seq<Change> {
    if IsDir(fs, c) && p != q then [Reparent(c, q), CountDown(p), CountUp(q)] else []
  }

  /** The writes before the links between directories change. */
  function NameMoves(fs: Fs, p: nat, n: string, q: nat, m: string, shown: bool): seq<Change>
    requires HasName(fs, p, n)
  {
    if (p, n) == (q, m) then []
    else if shown then [Enter(q, m, fs[p].entries[n]), Leave(p, n)]
    else [Leave(p, n)]
  }

  /** What the writes of a plain rename do to lookups.  Unless `shown`, a lookup
      of the new name finds an older entry first.  When both names are the same,
      there are two equal entries for a while, and then one again. */
  function MoveWrites(fs: Fs, p: nat, n: string, q: nat, m: string, shown: bool): seq<Change>
    requires HasName(fs, p, n)
  {
    NameMoves(fs, p, n, q, m, shown) + Relinks(fs, p, fs[p].entries[n], q)
  }

  /** The name goes, and the new one is not found either. */
  function Unseen(fs: Fs, p: nat, n: string, q: nat): Fs
    requires HasName(fs, p, n)
  {
    var c := fs[p].entries[n];
    var gs := DropEntry(fs, p, n);
    if IsDir(fs, c) && p != q then Raise(Lower(SetDotdot(gs, c, q), p), q) else gs
  }

  function Moved(fs: Fs, p: nat, n: string, q: nat, m: string, shown: bool): Fs
    requires HasName(fs, p, n)
  {
    if (p, n) == (q, m) then fs else if shown then Renamed(fs, p, n, q, m) else Unseen(fs, p, n, q)
  }

  lemma NamesMoved(fs: Fs, p: nat, n: string, q: nat, m: string, shown: bool)
    requires HasName(fs, p, n)
    ensures ApplyAll(fs, NameMoves(fs, p, n, q, m, shown)) ==
            if (p, n) == (q, m) then fs
            else DropEntry(if shown then SetEntry(fs, q, m, fs[p].entries[n]) else fs, p, n)
  {
    hide SetEntry;
    hide DropEntry;
    var c := fs[p].entries[n];
    TwoWrites(fs, [], Enter(q, m, c), Leave(p, n));
    OneWrite(fs, [], Leave(p, n));
    assert [] + [Leave(p, n)] == [Leave(p, n)] && [] + [Enter(q, m, c), Leave(p, n)] == [Enter(q, m, c), Leave(p, n)];
  }

  lemma MoveWritesAll(fs: Fs, p: nat, n: string, q: nat, m: string, shown: bool)
    requires HasName(fs, p, n)
    ensures ApplyAll(fs, MoveWrites(fs, p, n, q, m, shown)) == Moved(fs, p, n, q, m, shown)
  {
    hide SetEntry;
    hide DropEntry;
    hide SetDotdot;
    hide Raise;
    hide Lower;
    hide ApplyAll;
    hide NameMoves;
    var c := fs[p].entries[n];
    var ws := NameMoves(fs, p, n, q, m, shown);
    NamesMoved(fs, p, n, q, m, shown);
    ThreeWrites(fs, ws, Reparent(c, q), CountDown(p), CountUp(q));
    assert ws + [] == ws;
  }

  /** The states between the writes of a plain rename. */
  lemma MoveSteps(fs: Fs, p: nat, n: string, q: nat, m: string, shown: bool)
    requires HasName(fs, p, n)
    ensures var c := fs[p].entries[n];
            var same := (p, n) == (q, m);
            var entered := if shown && !same then SetEntry(fs, q, m, c) else fs;
            var left := if same then fs else DropEntry(entered, p, n);
            var named := SetDotdot(left, c, q);
            var ws := MoveWrites(fs, p, n, q, m, shown);
            && Partway(fs, ws, fs) && Partway(fs, ws, entered) && Partway(fs, ws, left)
            && (IsDir(fs, c) && p != q ==>
                  && Partway(fs, ws, named) && Partway(fs, ws, Lower(named, p))
                  && Partway(fs, ws, Raise(Lower(named, p), q))
                  && Moved(fs, p, n, q, m, shown) == Raise(Lower(named, p), q))
            && (!(IsDir(fs, c) && p != q) ==> Moved(fs, p, n, q, m, shown) == left)
  {
    hide SetEntry;
    hide DropEntry;
    hide SetDotdot;
    hide Raise;
    hide Lower;
    hide ApplyAll;
    hide Partway;
    var c := fs[p].entries[n];
    var ws, names := MoveWrites(fs, p, n, q, m, shown), NameMoves(fs, p, n, q, m, shown);
    NoWrite(fs, ws);
    NamesMoved(fs, p, n, q, m, shown);
    var k := |names|;
    assert ws[..k] == names;
    if k > 0 {
      NextWrite(fs, ws, 0);
    }
    if k > 1 {
      NextWrite(fs, ws, 1);
    }
    if IsDir(fs, c) && p != q {
      NextWrite(fs, ws, k);
      NextWrite(fs, ws, k + 1);
      NextWrite(fs, ws, k + 2);
    }
  }

  /** Where a rename ends: `missed` if the lookup of the new name failed, which
      is taken for absence. */
  function RenameResult(fs: Fs, p: nat, n: string, q: nat, m: string, missed: bool, shown: bool): Fs
    requires HasName(fs, p, n)
  {
    if missed || !HasName(fs, q, m) then Moved(fs, p, n, q, m, shown)
    else if fs[q].entries[m] == fs[p].entries[n] then fs
    else Replaced(fs, p, n, q, m)
  }

  /** The condition under which a rename that succeeds leaves a tree: the new
      directory has not been removed and does not lie below what moves, and a
      failed lookup of the new name has not hidden another entry. */
  ghost predicate RenameSound(fs: Fs, p: nat, n: string, q: nat, m: string, missed: bool)
    requires HasName(fs, p, n)
  {
    && Live(fs, q)
    && (IsDir(fs, fs[p].entries[n]) && p != q ==> Avoids(fs, q, fs[p].entries[n]))
    && (missed && HasName(fs, q, m) ==> (p, n) == (q, m))
  }

  /** A removed directory that is given a name breaks the tree. */
  lemma RenamedIntoRemoved(fs: Fs, p: nat, n: string, q: nat, m: string)
    requires Tree(fs) && HasName(fs, p, n) && IsDir(fs, q) && !Live(fs, q)
    ensures !Tree(Renamed(fs, p, n, q, m))
  {
    hide Renamed;
    hide Names;
    hide Acyclic;
    hide Counted;
    var gs := Renamed(fs, p, n, q, m);
    NameFacts(fs, p, n);
    RenamedInodes(fs, p, n, q, m);
    assert HasName(gs, q, m);
    if Tree(gs) {
      assert Live(gs, q);
      CountedOne(gs, q);
      assert false;
    }
  }

  lemma CountedOne(fs: Fs, c: nat)
    requires Tree(fs) && c in fs
    ensures CountedAt(fs, c)
  {
    hide CountedAt;
  }

  /** A plain rename to a free name keeps the tree exactly if its directory has
      not been removed and does not lie below what moves. */
  lemma RenameKeepsTreeIff(fs: Fs, p: nat, n: string, q: nat, m: string)
    requires Tree(fs) && HasName(fs, p, n) && IsDir(fs, q) && !HasName(fs, q, m)
    ensures Tree(Renamed(fs, p, n, q, m)) <==>
            Live(fs, q) && (IsDir(fs, fs[p].entries[n]) && p != q ==> Avoids(fs, q, fs[p].entries[n]))
  {
    hide Renamed;
    hide Tree;
    hide Avoids;
    if !Live(fs, q) {
      RenamedIntoRemoved(fs, p, n, q, m);
    } else if IsDir(fs, fs[p].entries[n]) && p != q && !Avoids(fs, q, fs[p].entries[n]) {
      RenameNeedsCheck(fs, p, n, q, m);
    } else {
      RenameKeepsTree(fs, p, n, q, m);
    }
  }

  /** If the new name did exist, its entry or the new one is lost to lookups,
      and an inode has more links than names. */
  lemma MovedOverName(fs: Fs, p: nat, n: string, q: nat, m: string, shown: bool)
    requires Tree(fs) && HasName(fs, p, n) && HasName(fs, q, m) && (p, n) != (q, m) && fs[p].entries[n] != q
    ensures !Tree(Moved(fs, p, n, q, m, shown))
  {
    hide Tree;
    hide Renamed;
    hide Unseen;
    if shown {
      ShownOverName(fs, p, n, q, m);
    } else {
      UnseenName(fs, p, n, q);
    }
  }

  lemma ShownOverName(fs: Fs, p: nat, n: string, q: nat, m: string)
    requires Tree(fs) && HasName(fs, p, n) && HasName(fs, q, m) && (p, n) != (q, m) && fs[p].entries[n] != q
    ensures !Tree(Renamed(fs, p, n, q, m))
  {
    hide Renamed;
    hide Names;
    hide Subs;
    hide Acyclic;
    hide Named;
    hide Counted;
    var c, e, gs := fs[p].entries[n], fs[q].entries[m], Renamed(fs, p, n, q, m);
    NameFacts(fs, p, n);
    NameFacts(fs, q, m);
    RenamedInodes(fs, p, n, q, m);
    RenamedNames(fs, p, n, q, m, e);
    NameOfOne(fs, p, n, e);
    FewerNames(Names(fs, e), (q, m), (p, n), e == c);
    NotCounted(fs, gs, e);
  }

  lemma FewerNames<T>(s: set<T>, a: T, b: T, same: bool)
    requires a in s && a != b && (b in s <==> same)
    ensures |s - {a} + (if same then {a} else {}) - {b}| == |s| - 1
  {
    if same {
      assert s - {a} + {a} - {b} == s - {b};
      OneLess(s, b);
    } else {
      assert s - {a} + {} - {b} == s - {a};
      OneLess(s, a);
    }
  }

  /** An inode that lost a name, but not a link, is miscounted. */
  lemma NotCounted(fs: Fs, gs: Fs, e: nat)
    requires Tree(fs) && e in fs && e in gs && |Names(fs, e)| > 0 && |Names(gs, e)| < |Names(fs, e)|
    requires gs[e].isDir == fs[e].isDir
    requires if fs[e].isDir then gs[e].links > 0 || fs[e].links == 0 else gs[e].links == fs[e].links
    ensures !Tree(gs)
  {
    hide Names;
    hide Subs;
    hide Acyclic;
    hide Named;
    CountedOne(fs, e);
    if Tree(gs) {
      CountedOne(gs, e);
      assert false;
    }
  }

  lemma UnseenName(fs: Fs, p: nat, n: string, q: nat)
    requires Tree(fs) && HasName(fs, p, n) && fs[p].entries[n] != q
    ensures !Tree(Unseen(fs, p, n, q))
  {
    hide Names;
    hide Subs;
    hide Tree;
    hide DropEntry;
    var c, gs := fs[p].entries[n], Unseen(fs, p, n, q);
    var bare := DropEntry(fs, p, n);
    NameFacts(fs, p, n);
    NamesDrop(fs, p, n, c);
    OneLess(Names(fs, c), (p, n));
    RelinkedEntries(bare, c, p, q);
    SameNames(bare, gs, c);
    UnseenInode(fs, p, n, q);
    OneOrMore(Names(fs, c), (p, n));
    NotCounted(fs, gs, c);
  }

  lemma OneOrMore<T>(s: set<T>, x: T)
    requires x in s
    ensures |s| > 0
  {
  }

  lemma UnseenInode(fs: Fs, p: nat, n: string, q: nat)
    requires HasName(fs, p, n)
    requires var c := fs[p].entries[n]; c in fs && c != p && c != q
    ensures var c, gs := fs[p].entries[n], Unseen(fs, p, n, q);
            c in gs && gs[c].isDir == fs[c].isDir && gs[c].links == fs[c].links
  {
  }

  /** Replacing a name below what moves makes a circle, too. */
  lemma ReplaceNeedsCheck(fs: Fs, p: nat, n: string, q: nat, m: string)
    requires Tree(fs) && HasName(fs, p, n) && HasName(fs, q, m)
    requires var c, e := fs[p].entries[n], fs[q].entries[m];
             c != e && IsDir(fs, c) && IsDir(fs, e) && fs[e].entries == map[] && p != q && c != q && !Avoids(fs, q, c)
    ensures !Tree(Replaced(fs, p, n, q, m))
  {
    hide Replaced;
    hide Names;
    hide Subs;
    hide Counted;
    hide Named;
    hide Climbs;
    var c, e, gs := fs[p].entries[n], fs[q].entries[m], Replaced(fs, p, n, q, m);
    NameFacts(fs, p, n);
    NameFacts(fs, q, m);
    ReplacedInodes(fs, p, n, q, m);
    assert Rises(fs, q);
    var path :| Climbs(fs, q, path);
    assert c in path;
    GoesRound(fs, gs, c, q, path);
    assert Live(gs, q);
  }

  /** What a rename that succeeds leaves is a tree exactly under that
      condition. */
  lemma RenameResultIsTree(fs: Fs, p: nat, n: string, q: nat, m: string, missed: bool, shown: bool)
    requires Tree(fs) && HasName(fs, p, n) && IsDir(fs, q) && fs[p].entries[n] != q && (HasName(fs, q, m) || shown)
    requires !missed && HasName(fs, q, m) && fs[q].entries[m] != fs[p].entries[n] ==>
               var c, e := fs[p].entries[n], fs[q].entries[m];
               IsDir(fs, c) == IsDir(fs, e) && (IsDir(fs, e) ==> fs[e].entries == map[])
    ensures Tree(RenameResult(fs, p, n, q, m, missed, shown)) <==> RenameSound(fs, p, n, q, m, missed)
  {
    hide Tree;
    hide Renamed;
    hide Replaced;
    hide Unseen;
    hide Avoids;
    var c := fs[p].entries[n];
    NameFacts(fs, p, n);
    if !HasName(fs, q, m) {
      RenameKeepsTreeIff(fs, p, n, q, m);
    } else {
      NameFacts(fs, q, m);
      if missed {
        if (p, n) != (q, m) {
          MovedOverName(fs, p, n, q, m, shown);
        }
      } else if fs[q].entries[m] == c {
        SameInodeTwice(fs, p, n, q, m);
      } else if IsDir(fs, c) && p != q && !Avoids(fs, q, c) {
        ReplaceNeedsCheck(fs, p, n, q, m);
      } else {
        ReplaceIsRemoveThenMove(fs, p, n, q, m);
      }
    }
  }

  /** A directory does not have two names. */
  lemma SameInodeTwice(fs: Fs, p: nat, n: string, q: nat, m: string)
    requires Tree(fs) && HasName(fs, p, n) && HasName(fs, q, m) && fs[p].entries[n] == fs[q].entries[m]
    ensures IsDir(fs, fs[p].entries[n]) ==> p == q
  {
    hide Names;
    hide Subs;
    hide Acyclic;
    hide Counted;
    hide Named;
    NameFacts(fs, p, n);
    NameFacts(fs, q, m);
  }

  /** Two files in the root. */
  function TwoFiles(): Fs {
    map[ROOT := Inode(true, 2, ROOT, map["a" := 11, "b" := 12]), 11 := Inode(false, 1, 0, map[]),
        12 := Inode(false, 1, 0, map[])]
  }

  lemma TwoFilesTree()
    ensures Tree(TwoFiles())
  {
    var fs := TwoFiles();
    assert Climbs(fs, ROOT, [ROOT]);
    assert Names(fs, ROOT) == {} && Subs(fs, ROOT) == {};
    assert Names(fs, 11) == {(ROOT, "a")} && Names(fs, 12) == {(ROOT, "b")};
  }

  /** "a" is renamed to "b", which could not be read: 12 keeps its link, but no
      name leads to it. */
  lemma MissedNameExample()
    ensures Tree(TwoFiles()) && HasName(TwoFiles(), ROOT, "a")
    ensures var fs := RenameResult(TwoFiles(), ROOT, "a", ROOT, "b", true, true);
            12 in fs && fs[12].links == 1 && Names(fs, 12) == {} && !Tree(fs)
  {
    hide Tree;
    var fs := TwoFiles();
    TwoFilesTree();
    RenamedInodes(fs, ROOT, "a", ROOT, "b");
    RenamedNames(fs, ROOT, "a", ROOT, "b", 12);
    assert Names(fs, 12) == {(ROOT, "b")};
    MovedOverName(fs, ROOT, "a", ROOT, "b", true);
  }

  // ---- Exchanging names ----------------------------------------------------------------

  function ExchangeWrites(fs: Fs, p: nat, n: string, q: nat, m: string): seq<Change>
    requires HasName(fs, p, n) && HasName(fs, q, m)
  {
    var c, e := fs[p].entries[n], fs[q].entries[m];
    [Enter(p, n, e), Enter(q, m, c)] + Relinks(fs, p, c, q) + Relinks(fs, q, e, p)
  }

  lemma ExchangeWritesAll(fs: Fs, p: nat, n: string, q: nat, m: string)
    requires HasName(fs, p, n) && HasName(fs, q, m)
    ensures ApplyAll(fs, ExchangeWrites(fs, p, n, q, m)) == Exchanged(fs, p, n, q, m)
  {
    hide SetEntry;
    hide DropEntry;
    hide SetDotdot;
    hide Raise;
    hide Lower;
    hide ApplyAll;
    var c, e := fs[p].entries[n], fs[q].entries[m];
    var two := [Enter(p, n, e), Enter(q, m, c)];
    TwoWrites(fs, [], Enter(p, n, e), Enter(q, m, c));
    NoWrite(fs, two);
    assert [] + two == two && two[..0] == [];
    ThreeWrites(fs, two, Reparent(c, q), CountDown(p), CountUp(q));
    var more := two + Relinks(fs, p, c, q);
    assert two + [] == two;
    ThreeWrites(fs, more, Reparent(e, p), CountDown(q), CountUp(p));
    assert more + [] == more;
  }

  /** The states between the writes of an exchange. */
  lemma ExchangeSteps(fs: Fs, p: nat, n: string, q: nat, m: string)
    requires HasName(fs, p, n) && HasName(fs, q, m)
    ensures var c, e, ws := fs[p].entries[n], fs[q].entries[m], ExchangeWrites(fs, p, n, q, m);
            var a := SetEntry(fs, p, n, e);
            var b := SetEntry(a, q, m, c);
            var named := SetDotdot(b, c, q);
            var half := if IsDir(fs, c) && p != q then Raise(Lower(named, p), q) else b;
            var again := SetDotdot(half, e, p);
            && Partway(fs, ws, fs) && Partway(fs, ws, a) && Partway(fs, ws, b) && Partway(fs, ws, half)
            && (IsDir(fs, c) && p != q ==> Partway(fs, ws, named) && Partway(fs, ws, Lower(named, p)))
            && (IsDir(fs, e) && p != q ==>
                  && Partway(fs, ws, again) && Partway(fs, ws, Lower(again, q))
                  && Partway(fs, ws, Raise(Lower(again, q), p))
                  && Exchanged(fs, p, n, q, m) == Raise(Lower(again, q), p))
            && (!(IsDir(fs, e) && p != q) ==> Exchanged(fs, p, n, q, m) == half)
  {
    hide SetEntry;
    hide DropEntry;
    hide SetDotdot;
    hide Raise;
    hide Lower;
    hide ApplyAll;
    hide Partway;
    var c, e, ws := fs[p].entries[n], fs[q].entries[m], ExchangeWrites(fs, p, n, q, m);
    NoWrite(fs, ws);
    NextWrite(fs, ws, 0);
    NextWrite(fs, ws, 1);
    var k := 2 + |Relinks(fs, p, c, q)|;
    if IsDir(fs, c) && p != q {
      NextWrite(fs, ws, 2);
      NextWrite(fs, ws, 3);
      NextWrite(fs, ws, 4);
    }
    if IsDir(fs, e) && p != q {
      NextWrite(fs, ws, k);
      NextWrite(fs, ws, k + 1);
      NextWrite(fs, ws, k + 2);
    }
  }

  /** Neither directory may come to lie below itself. */
  ghost predicate ExchangeSound(fs: Fs, p: nat, n: string, q: nat, m: string)
    requires HasName(fs, p, n) && HasName(fs, q, m)
  {
    var c, e := fs[p].entries[n], fs[q].entries[m];
    c != e && p != q ==> (IsDir(fs, c) ==> Avoids(fs, q, c)) && (IsDir(fs, e) ==> Avoids(fs, p, e))
  }

  function ExchangeResult(fs: Fs, p: nat, n: string, q: nat, m: string): Fs
    requires HasName(fs, p, n) && HasName(fs, q, m)
  {
    if fs[p].entries[n] == fs[q].entries[m] then fs else Exchanged(fs, p, n, q, m)
  }

  lemma ExchangeResultIsTree(fs: Fs, p: nat, n: string, q: nat, m: string)
    requires Tree(fs) && HasName(fs, p, n) && HasName(fs, q, m)
    requires var c, e := fs[p].entries[n], fs[q].entries[m]; c != q && e != p
    ensures Tree(ExchangeResult(fs, p, n, q, m)) <==> ExchangeSound(fs, p, n, q, m)
  {
    hide Tree;
    hide Exchanged;
    hide Avoids;
    var c, e := fs[p].entries[n], fs[q].entries[m];
    if c != e {
      if p != q && IsDir(fs, c) && !Avoids(fs, q, c) {
        ExchangeNeedsCheck(fs, p, n, q, m);
      } else if p != q && IsDir(fs, e) && !Avoids(fs, p, e) {
        ExchangeCommutes(fs, p, n, q, m);
        ExchangeNeedsCheck(fs, q, m, p, n);
      } else {
        ExchangeKeepsTree(fs, p, n, q, m);
      }
    }
  }

  lemma ExchangeNeedsCheck(fs: Fs, p: nat, n: string, q: nat, m: string)
    requires Tree(fs) && HasName(fs, p, n) && HasName(fs, q, m) && p != q
    requires var c, e := fs[p].entries[n], fs[q].entries[m];
             c != e && c != q && e != p && IsDir(fs, c) && !Avoids(fs, q, c)
    ensures !Tree(Exchanged(fs, p, n, q, m))
  {
    hide Exchanged;
    hide Names;
    hide Subs;
    hide Counted;
    hide Named;
    hide Climbs;
    var c, e, gs := fs[p].entries[n], fs[q].entries[m], Exchanged(fs, p, n, q, m);
    NameFacts(fs, p, n);
    NameFacts(fs, q, m);
    ExchangedInodes(fs, p, n, q, m);
    assert Rises(fs, q);
    var path :| Climbs(fs, q, path);
    assert c in path;
    if IsDir(fs, e) {
      ChildNotAbove(fs, e, path);
    }
    GoesRound(fs, gs, c, q, path);
    assert Live(gs, q);
  }

  lemma ExchangeCommutes(fs: Fs, p: nat, n: string, q: nat, m: string)
    requires Tree(fs) && HasName(fs, p, n) && HasName(fs, q, m) && p != q
    requires var c, e := fs[p].entries[n], fs[q].entries[m]; c != e && c != q && e != p
    ensures Exchanged(fs, p, n, q, m) == Exchanged(fs, q, m, p, n)
  {
    hide Exchanged;
    hide Names;
    hide Subs;
    hide Tree;
    NameFacts(fs, p, n);
    NameFacts(fs, q, m);
    ExchangedInodes(fs, p, n, q, m);
    ExchangedInodes(fs, q, m, p, n);
    var one, two := Exchanged(fs, p, n, q, m), Exchanged(fs, q, m, p, n);
    assert forall x :: x in fs ==> one[x] == two[x];
    assert one == two;
  }

  // ---- Removing one name of several ------------------------------------------------------

  /** If the entry went and the link count stayed, this is no tree. */
  lemma DropLeavesNoTree(fs: Fs, q: nat, m: string)
    requires Tree(fs) && HasName(fs, q, m)
    ensures !Tree(DropEntry(fs, q, m))
  {
    hide Names;
    hide Subs;
    hide Tree;
    var e, gs := fs[q].entries[m], DropEntry(fs, q, m);
    NameFacts(fs, q, m);
    NamesDrop(fs, q, m, e);
    OneLess(Names(fs, e), (q, m));
    OneOrMore(Names(fs, e), (q, m));
    NotCounted(fs, gs, e);
  }

  // ---- Publishing a name -----------------------------------------------------------------

  /** The writes that give `c`, with `links` links so far, a name. */
  function LinkWrites(fs: Fs, p: nat, n: string, c: nat, links: nat): seq<Change> {
    if IsDir(fs, c) then [Reparent(c, p), Count(p, LinksOf(fs, p) + 1), Count(c, links + 1), Enter(p, n, c)]
    else [Count(c, links + 1), Enter(p, n, c)]
  }

  /** Where a publication stopped: the write that failed, whether it is there
      all the same, and which counts were put back after a failure of the last
      one. */
  datatype Halt = Halt(step: nat, landed: bool, childBack: bool, parentBack: bool)

  predicate HaltsIn(fs: Fs, c: nat, halt: Halt) {
    halt.step < (if IsDir(fs, c) then 4 else 2)
  }

  predicate AtName(fs: Fs, c: nat, halt: Halt) {
    halt.step == if IsDir(fs, c) then 3 else 1
  }

  /** What is left then. */
  function LinkLeft(fs: Fs, p: nat, n: string, c: nat, links: nat, halt: Halt): Fs
    requires HaltsIn(fs, c, halt)
  {
    var after := ApplyAll(fs, LinkWrites(fs, p, n, c, links)[..if halt.landed then halt.step + 1 else halt.step]);
    if !AtName(fs, c, halt) then after
    else
      var one := if halt.childBack then SetLinks(after, c, links) else after;
      if IsDir(fs, c) && halt.parentBack then SetLinks(one, p, LinksOf(fs, p)) else one
  }

  /** Both counts were put back, if they had to be. */
  predicate Undone(fs: Fs, c: nat, halt: Halt) {
    AtName(fs, c, halt) ==> halt.childBack && (IsDir(fs, c) ==> halt.parentBack)
  }

  lemma LinkWritesFile(fs: Fs, p: nat, n: string, c: nat, links: nat)
    requires !IsDir(fs, c)
    ensures var ws := LinkWrites(fs, p, n, c, links);
            && ApplyAll(fs, ws[..0]) == fs
            && ApplyAll(fs, ws[..1]) == SetLinks(fs, c, links + 1)
            && ApplyAll(fs, ws[..2]) == SetEntry(SetLinks(fs, c, links + 1), p, n, c)
  {
    hide SetEntry;
    hide SetLinks;
    var ws := LinkWrites(fs, p, n, c, links);
    NoWrite(fs, ws);
    NextWrite(fs, ws, 0);
    NextWrite(fs, ws, 1);
  }

  lemma LinkWritesDir(fs: Fs, p: nat, n: string, c: nat, links: nat)
    requires IsDir(fs, c)
    ensures var ws := LinkWrites(fs, p, n, c, links);
            var named := SetDotdot(fs, c, p);
            var raised := SetLinks(named, p, LinksOf(fs, p) + 1);
            var counted := SetLinks(raised, c, links + 1);
            && ApplyAll(fs, ws[..0]) == fs
            && ApplyAll(fs, ws[..1]) == named
            && ApplyAll(fs, ws[..2]) == raised
            && ApplyAll(fs, ws[..3]) == counted
            && ApplyAll(fs, ws[..4]) == SetEntry(counted, p, n, c)
  {
    hide SetEntry;
    hide SetLinks;
    hide SetDotdot;
    hide ApplyAll;
    var ws := LinkWrites(fs, p, n, c, links);
    NoWrite(fs, ws);
    NextWrite(fs, ws, 0);
    NextWrite(fs, ws, 1);
    NextWrite(fs, ws, 2);
    NextWrite(fs, ws, 3);
  }

  /** A file that could not be given another name: nothing has changed, and the
      tree is kept, exactly if the write that failed is not there. */
  lemma FileLinkLeft(fs: Fs, p: nat, n: string, c: nat, halt: Halt)
    requires CanAttach(fs, p, n, c) && !fs[c].isDir && HaltsIn(fs, c, halt) && Undone(fs, c, halt)
    ensures LinkLeft(fs, p, n, c, fs[c].links, halt) == fs <==> !halt.landed
    ensures Tree(LinkLeft(fs, p, n, c, fs[c].links, halt)) <==> !halt.landed
  {
    hide ApplyAll;
    hide Tree;
    var gs := LinkLeft(fs, p, n, c, fs[c].links, halt);
    LinkWritesFile(fs, p, n, c, fs[c].links);
    if !halt.landed {
      assert gs == fs;
    } else if halt.step == 0 {
      assert gs == SetLinks(fs, c, fs[c].links + 1);
      LinkTooMany(fs, c);
    } else {
      assert gs == SetEntry(fs, p, n, c);
      NameTooMany(fs, p, n, c);
    }
  }

  lemma LinkTooMany(fs: Fs, c: nat)
    requires Tree(fs) && c in fs && !fs[c].isDir
    ensures !Tree(SetLinks(fs, c, fs[c].links + 1)) && SetLinks(fs, c, fs[c].links + 1) != fs
  {
    hide Names;
    hide Subs;
    hide Acyclic;
    hide Named;
    var gs := SetLinks(fs, c, fs[c].links + 1);
    SameNames(fs, gs, c);
    CountedOne(fs, c);
    if Tree(gs) {
      CountedOne(gs, c);
      assert false;
    }
  }

  lemma NameTooMany(fs: Fs, p: nat, n: string, c: nat)
    requires Tree(fs) && p in fs && c in fs && !fs[c].isDir && !HasName(fs, p, n)
    ensures !Tree(SetEntry(fs, p, n, c)) && SetEntry(fs, p, n, c) != fs
  {
    hide Names;
    hide Subs;
    hide Acyclic;
    hide Named;
    var gs := SetEntry(fs, p, n, c);
    NamesSet(fs, p, n, c, c);
    NoSuchName(fs, p, n, c);
    OneMore(Names(fs, c) - {(p, n)}, (p, n));
    assert Names(fs, c) - {(p, n)} == Names(fs, c);
    CountedOne(fs, c);
    assert HasName(gs, p, n);
    if Tree(gs) {
      CountedOne(gs, c);
      assert false;
    }
  }

  /** What is left of a new inode whose name could not be published, after the
      inode was released. */
  function MadeLeft(fs: Fs, p: nat, n: string, c: nat, dir: bool, halt: Halt): Fs
    requires HaltsIn(Fresh(fs, c, dir), c, halt)
  {
    LinkLeft(Fresh(fs, c, dir), p, n, c, if dir then 1 else 0, halt) - {c}
  }

  /** No trace is left of the attempt: the parent's count was not raised, or was
      put back, and the name is not there. */
  predicate Traceless(dir: bool, halt: Halt) {
    if dir then halt.step == 0 || (halt.step == 1 && !halt.landed) || (halt.step == 3 && !halt.landed)
    else halt.step == 0 || !halt.landed
  }

  lemma MadeLeftIs(fs: Fs, p: nat, n: string, c: nat, dir: bool, halt: Halt)
    requires p in fs && c !in fs && HaltsIn(Fresh(fs, c, dir), c, halt) && Undone(Fresh(fs, c, dir), c, halt)
    ensures MadeLeft(fs, p, n, c, dir, halt) ==
            if Traceless(dir, halt) then fs
            else if AtName(Fresh(fs, c, dir), c, halt) then SetEntry(fs, p, n, c)
            else SetLinks(fs, p, fs[p].links + 1)
  {
    hide ApplyAll;
    var gs := Fresh(fs, c, dir);
    var links := if dir then 1 else 0;
    if dir {
      LinkWritesDir(gs, p, n, c, links);
      MadeLeftDir(fs, p, n, c);
    } else {
      LinkWritesFile(gs, p, n, c, links);
      MadeLeftFile(fs, p, n, c);
    }
  }

  lemma MadeLeftDir(fs: Fs, p: nat, n: string, c: nat)
    requires p in fs && c !in fs
    ensures var gs := Fresh(fs, c, true);
            var named := SetDotdot(gs, c, p);
            var raised := SetLinks(named, p, fs[p].links + 1);
            var counted := SetLinks(raised, c, 2);
            && gs - {c} == fs && named - {c} == fs
            && raised - {c} == SetLinks(fs, p, fs[p].links + 1) && counted - {c} == SetLinks(fs, p, fs[p].links + 1)
            && SetLinks(SetLinks(counted, c, 1), p, fs[p].links) - {c} == fs
            && SetLinks(SetLinks(SetEntry(counted, p, n, c), c, 1), p, fs[p].links) - {c} == SetEntry(fs, p, n, c)
  {
  }

  lemma MadeLeftFile(fs: Fs, p: nat, n: string, c: nat)
    requires p in fs && c !in fs
    ensures var gs := Fresh(fs, c, false);
            var counted := SetLinks(gs, c, 1);
            && gs - {c} == fs && counted - {c} == fs
            && SetLinks(counted, c, 0) - {c} == fs
            && SetLinks(SetEntry(counted, p, n, c), c, 0) - {c} == SetEntry(fs, p, n, c)
  {
  }

  /** A failed creation leaves the tree as it was, or a parent that counts a
      child too many, or a name of an inode that does not exist; only the first
      is a tree. */
  lemma MadeLeftIsTree(fs: Fs, p: nat, n: string, c: nat, dir: bool, halt: Halt)
    requires Tree(fs) && IsDir(fs, p) && c !in fs && !HasName(fs, p, n)
    requires HaltsIn(Fresh(fs, c, dir), c, halt) && Undone(Fresh(fs, c, dir), c, halt)
    ensures MadeLeft(fs, p, n, c, dir, halt) == fs <==> Traceless(dir, halt)
    ensures Tree(MadeLeft(fs, p, n, c, dir, halt)) <==> Traceless(dir, halt)
  {
    hide Tree;
    hide MadeLeft;
    hide SetEntry;
    hide SetLinks;
    hide Traceless;
    MadeLeftIs(fs, p, n, c, dir, halt);
    DanglingName(fs, p, n, c);
    ChildTooMany(fs, p);
  }

  lemma DanglingName(fs: Fs, p: nat, n: string, c: nat)
    requires p in fs && c !in fs && !HasName(fs, p, n)
    ensures !Tree(SetEntry(fs, p, n, c)) && SetEntry(fs, p, n, c) != fs
  {
    hide Names;
    hide Subs;
    hide Counted;
    hide Acyclic;
    assert HasName(SetEntry(fs, p, n, c), p, n);
  }

  lemma ChildTooMany(fs: Fs, p: nat)
    requires Tree(fs) && IsDir(fs, p)
    ensures !Tree(SetLinks(fs, p, fs[p].links + 1)) && SetLinks(fs, p, fs[p].links + 1) != fs
  {
    hide Names;
    hide Subs;
    hide Acyclic;
    hide Named;
    var gs := SetLinks(fs, p, fs[p].links + 1);
    SameNames(fs, gs, p);
    CountedOne(fs, p);
    if Tree(gs) {
      CountedOne(gs, p);
      assert false;
    }
  }
}
