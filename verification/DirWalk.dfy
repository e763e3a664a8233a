/** The way up from a directory as the check before a rename walks it: from one
    ".." to the next, even through directories that have been removed. */
module DirWalk {
  import opened DirTree

  /** The walk goes no further from `d`. */
  predicate WalkStops(fs: Fs, d: nat) {
    d == ROOT || !IsDir(fs, d) || fs[d].dotdot == d
  }

  ghost predicate Walks(fs: Fs, d: nat, path: seq<nat>) {
    && path != [] && path[0] == d
    && forall i :: 0 <= i < |path| - 1 ==> !WalkStops(fs, path[i]) && path[i + 1] == fs[path[i]].dotdot
  }

  /** The walk from `d` comes to `c`. */
  ghost predicate Meets(fs: Fs, d: nat, c: nat) {
    exists path :: Walks(fs, d, path) && path[|path| - 1] == c
  }

  lemma {:induction false} OneWalk(fs: Fs, d: nat, path: seq<nat>, other: seq<nat>, k: nat)
    requires Walks(fs, d, path) && Walks(fs, d, other) && k < |path| && k < |other|
    ensures path[k] == other[k]
    decreases k
  {
    if k > 0 {
      OneWalk(fs, d, path, other, k - 1);
    }
  }

  /** A walk that has stopped has seen everything on the way. */
  lemma WalkedAll(fs: Fs, d: nat, path: seq<nat>, c: nat)
    requires Walks(fs, d, path) && WalkStops(fs, path[|path| - 1])
    ensures Meets(fs, d, c) <==> c in path
  {
    if c in path {
      var k :| 0 <= k < |path| && path[k] == c;
      assert Walks(fs, d, path[..k + 1]);
    }
    if Meets(fs, d, c) {
      var other :| Walks(fs, d, other) && other[|other| - 1] == c;
      if |other| <= |path| {
        OneWalk(fs, d, path, other, |other| - 1);
      } else {
        OneWalk(fs, d, path, other, |path| - 1);
        assert false;
      }
    }
  }

  lemma ClimbsIsWalk(fs: Fs, d: nat, path: seq<nat>)
    requires Climbs(fs, d, path)
    ensures Walks(fs, d, path) && WalkStops(fs, path[|path| - 1])
  {
    forall i | 0 <= i < |path| - 1
      ensures !WalkStops(fs, path[i])
    {
      assert Climbs(fs, path[i], path[i..]);
      NotOwnParent(fs, path[i], path[i..]);
    }
  }

  /** From a directory that has not been removed, the walk is the way up. */
  lemma MeetsIffAbove(fs: Fs, d: nat, c: nat)
    requires Acyclic(fs) && Live(fs, d)
    ensures Meets(fs, d, c) <==> !Avoids(fs, d, c)
  {
    hide Climbs;
    assert Rises(fs, d);
    var path :| Climbs(fs, d, path);
    ClimbsIsWalk(fs, d, path);
    WalkedAll(fs, d, path, c);
    forall other | Climbs(fs, d, other)
      ensures other == path
    {
      OneWayUp(fs, d, path, other);
    }
  }

  // ---- The walk ends -----------------------------------------------------------------

  predicate Removed(fs: Fs, d: nat) {
    IsDir(fs, d) && fs[d].links == 0
  }

  function Rank(rank: map<nat, nat>, d: nat): nat {
    if d in rank then rank[d] else 0
  }

  ghost predicate Ranks(fs: Fs, rank: map<nat, nat>) {
    forall d :: Removed(fs, d) && Removed(fs, fs[d].dotdot) ==> Rank(rank, fs[d].dotdot) < Rank(rank, d)
  }

  /** Removed directories do not hang on each other in a circle: each was
      removed before the one it was in. */
  ghost predicate Settled(fs: Fs) {
    exists rank :: Ranks(fs, rank)
  }

  ghost function RanksOf(fs: Fs): (rank: map<nat, nat>)
    requires Settled(fs)
    ensures Ranks(fs, rank)
  {
    var rank :| Ranks(fs, rank);
    rank
  }

  /** The way up from a directory that is not removed. */
  ghost function WayUp(fs: Fs, d: nat): (path: seq<nat>)
    requires Acyclic(fs)
    ensures Live(fs, d) ==> Climbs(fs, d, path)
  {
    if Live(fs, d) then
      assert Rises(fs, d);
      var path :| Climbs(fs, d, path);
      path
    else []
  }

  /** One step nearer to the end. */
  lemma NextUp(fs: Fs, cur: nat, rank: map<nat, nat>, up: seq<nat>)
    requires !WalkStops(fs, cur) && Ranks(fs, rank) && (Live(fs, cur) ==> Climbs(fs, cur, up))
    ensures Live(fs, cur) ==> Live(fs, fs[cur].dotdot) && |up| > 1 && Climbs(fs, fs[cur].dotdot, up[1..])
    ensures Removed(fs, cur) && Removed(fs, fs[cur].dotdot) ==> Rank(rank, fs[cur].dotdot) < Rank(rank, cur)
    ensures Removed(fs, cur) || Live(fs, cur)
  {
    if Live(fs, cur) {
      assert |up| > 1 && up[1] == fs[cur].dotdot;
    }
  }

  lemma MeetsHere(fs: Fs, d: nat, path: seq<nat>)
    requires Walks(fs, d, path)
    ensures Meets(fs, d, path[|path| - 1])
  {
  }

  lemma FirstNotMet(path: seq<nat>, c: nat)
    requires path != [] && c !in path[..|path| - 1] && path[|path| - 1] != c
    ensures c !in path
  {
    assert path == path[..|path| - 1] + [path[|path| - 1]];
  }

  lemma StillSettled(fs: Fs, gs: Fs)
    requires Settled(fs)
    requires forall d :: Removed(gs, d) ==> Removed(fs, d) && gs[d].dotdot == fs[d].dotdot
    ensures Settled(gs)
  {
    var rank :| Ranks(fs, rank);
    assert Ranks(gs, rank);
  }

  /** One more directory is removed, from one that is still there. */
  lemma RemovedSettles(fs: Fs, gs: Fs, e: nat)
    requires Settled(fs)
    requires forall d :: Removed(gs, d) && d != e ==> Removed(fs, d) && gs[d].dotdot == fs[d].dotdot
    requires Removed(gs, e) ==> !Removed(gs, gs[e].dotdot)
    ensures Settled(gs)
  {
    var rank :| Ranks(fs, rank);
    var next := (map d | d in gs :: Rank(rank, d) + 1)[e := 0];
    assert Ranks(gs, next);
  }

  lemma RootIsSettled()
    ensures Settled(map[ROOT := Inode(true, 2, ROOT, map[])])
  {
    assert Ranks(map[ROOT := Inode(true, 2, ROOT, map[])], map[]);
  }

  lemma UnlinkSettles(fs: Fs, q: nat, m: string)
    requires Tree(fs) && Settled(fs) && HasName(fs, q, m)
    ensures Settled(Unlinked(fs, q, m))
  {
    hide Unlinked;
    hide Names;
    hide Subs;
    hide Acyclic;
    hide Counted;
    hide Named;
    hide Settled;
    NameFacts(fs, q, m);
    UnlinkedInodes(fs, q, m);
    RemovedSettles(fs, Unlinked(fs, q, m), fs[q].entries[m]);
  }

  lemma RenameSettles(fs: Fs, p: nat, n: string, q: nat, m: string)
    requires CanMove(fs, p, n, q, m) && Settled(fs)
    ensures Settled(Renamed(fs, p, n, q, m))
  {
    hide Renamed;
    hide Names;
    hide Subs;
    hide Acyclic;
    hide Counted;
    hide Named;
    hide Avoids;
    hide Settled;
    MovedApart(fs, p, n, q, m);
    NameFacts(fs, p, n);
    RenamedInodes(fs, p, n, q, m);
    StillSettled(fs, Renamed(fs, p, n, q, m));
  }

  lemma ReplaceSettles(fs: Fs, p: nat, n: string, q: nat, m: string)
    requires CanReplace(fs, p, n, q, m) && Settled(fs)
    ensures Settled(Replaced(fs, p, n, q, m))
  {
    hide Unlinked;
    hide Renamed;
    hide Replaced;
    hide Settled;
    hide CanMove;
    hide Tree;
    ReplaceIsRemoveThenMove(fs, p, n, q, m);
    ReplaceCanMove(fs, p, n, q, m);
    UnlinkSettles(fs, q, m);
    RenameSettles(Unlinked(fs, q, m), p, n, q, m);
  }

  lemma ExchangeSettles(fs: Fs, p: nat, n: string, q: nat, m: string)
    requires CanExchange(fs, p, n, q, m) && Settled(fs)
    ensures Settled(Exchanged(fs, p, n, q, m))
  {
    hide Exchanged;
    hide Names;
    hide Subs;
    hide Acyclic;
    hide Counted;
    hide Named;
    hide Avoids;
    hide Settled;
    ExchangeApart(fs, p, n, q, m);
    NameFacts(fs, p, n);
    NameFacts(fs, q, m);
    ExchangedInodes(fs, p, n, q, m);
    StillSettled(fs, Exchanged(fs, p, n, q, m));
  }

  lemma AttachSettles(fs: Fs, gs: Fs, p: nat, n: string, c: nat)
    requires Settled(fs) && Live(gs, p) && c in gs && p != c
    requires forall x :: x in gs && x != c ==> x in fs && gs[x] == fs[x]
    requires !gs[c].isDir || gs[c].links == 0
    ensures Settled(Attached(gs, p, n, c))
  {
    hide Attached;
    hide Settled;
    AttachedInodes(gs, p, n, c);
    StillSettled(fs, Attached(gs, p, n, c));
  }
}
