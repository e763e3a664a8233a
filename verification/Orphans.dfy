/** The legacy orphan list: inodes without names, or with a truncation that has
    not finished, linked through their own inodes from the superblock; and what
    cleaning it up releases. */
module Orphans {
  import opened Bytes
  import opened RangeIndex
  import opened Allocator
  import opened ExtentForest
  import opened FileBlocks
  import opened Reclaim
  import XattrRelease

  datatype Kind = Unknown | Regular | Directory | Special

  datatype Inode = Inode(next: nat, links: nat, generation: nat, kind: Kind, extents: bool, checksumOk: bool)

  /** The table entry of a released inode keeps only its generation. */
  function Cleared(generation: nat): Inode {
    Inode(0, 0, generation, Unknown, false, true)
  }

  /** The part of the device that the list lives in. */
  datatype Disk = Disk(firstInode: nat, inodeCount: nat, journalInode: nat, head: nat, used: set<nat>,
                       inodes: map<nat, Inode>)
  {
    predicate ValidNumber(n: nat) {
      firstInode <= n <= inodeCount && n != ROOT_INODE && n != journalInode
    }

    /** An inode the list may contain. */
    predicate Good(n: nat) {
      && n != 0 && ValidNumber(n) && n in used && n in inodes
      && inodes[n].kind != Unknown && inodes[n].checksumOk
      && (inodes[n].next == 0 || ValidNumber(inodes[n].next))
    }

    function Next(n: nat): nat {
      if n in inodes then inodes[n].next else 0
    }
  }

  // ---- Chains --------------------------------------------------------------------

  /** Following the links from `from` visits `nodes` and arrives at `to`. */
  ghost predicate Links(d: Disk, from: nat, nodes: seq<nat>, to: nat) {
    && (forall i :: 0 <= i < |nodes| ==> d.Good(nodes[i]))
    && (forall i :: 0 <= i < |nodes| - 1 ==> d.Next(nodes[i]) == nodes[i + 1])
    && (if nodes == [] then from == to else nodes[0] == from && d.Next(nodes[|nodes| - 1]) == to)
  }

  ghost predicate Chain(d: Disk, from: nat, nodes: seq<nat>) {
    Links(d, from, nodes, 0)
  }

  /** The number of an inode that the list may hold: one of the ordinary inodes,
      up to and with the last, but neither the root nor the journal. */
  predicate Listable(d: Disk, n: nat) {
    n != 0 && d.firstInode <= n <= d.inodeCount && n != 2 && n != d.journalInode
  }

  /** The list as it stands on the device: it begins at the head, each inode
      names the next one and the last one names none; all are allocated, known
      and intact. */
  ghost predicate OnDevice(d: Disk, c: seq<nat>) {
    && d.head == (if c == [] then 0 else c[0])
    && (forall i :: 0 <= i < |c| ==> Listable(d, c[i]) && c[i] in d.used && c[i] in d.inodes)
    && (forall i :: 0 <= i < |c| ==> d.inodes[c[i]].kind != Unknown && d.inodes[c[i]].checksumOk)
    && (forall i :: 0 <= i < |c| - 1 ==> d.inodes[c[i]].next == c[i + 1])
    && (c != [] ==> d.inodes[c[|c| - 1]].next == 0)
  }

  lemma ChainOnDevice(d: Disk, c: seq<nat>)
    ensures Chain(d, d.head, c) <==> OnDevice(d, c)
  {
    if OnDevice(d, c) {
      forall i | 0 <= i < |c|
        ensures d.Good(c[i])
      {
        if i < |c| - 1 {
          assert Listable(d, c[i + 1]);
        }
      }
    }
  }

  lemma LinksMore(d: Disk, from: nat, nodes: seq<nat>, n: nat)
    requires Links(d, from, nodes, n) && d.Good(n)
    ensures Links(d, from, nodes + [n], d.Next(n))
  {
  }

  lemma LinksFrom(d: Disk, from: nat, nodes: seq<nat>, to: nat, k: nat)
    requires Links(d, from, nodes, to) && k <= |nodes|
    ensures Links(d, if k < |nodes| then nodes[k] else to, nodes[k..], to)
  {
  }

  lemma LinksTogether(d: Disk, from: nat, a: seq<nat>, mid: nat, b: seq<nat>, to: nat)
    requires Links(d, from, a, mid) && Links(d, mid, b, to)
    ensures Links(d, from, a + b, to)
  {
    var c := a + b;
    forall i | 0 <= i < |c| - 1
      ensures d.Next(c[i]) == c[i + 1]
    {
      if i == |a| - 1 {
        assert b != [] && c[i + 1] == b[0] == mid;
      }
    }
  }

  /** There is only one way to follow the links. */
  lemma {:induction false} SamePath(d: Disk, from: nat, a: seq<nat>, x: nat, b: seq<nat>, y: nat)
    requires Links(d, from, a, x) && Links(d, from, b, y) && |a| <= |b|
    ensures a == b[..|a|] && Links(d, x, b[|a|..], y)
    decreases |a|
  {
    hide Disk.Good;
    hide Disk.Next;
    if a != [] {
      var n := |a| - 1;
      assert Links(d, from, a[..n], a[n]);
      SamePath(d, from, a[..n], a[n], b, y);
      assert b[n..][0] == a[n];
      LinksFrom(d, from, b, y, |a|);
    } else {
      assert b[0..] == b;
    }
  }

  /** A walk that has not ended is the beginning of the chain. */
  lemma WalkOfChain(d: Disk, from: nat, c: seq<nat>, nodes: seq<nat>, n: nat)
    requires Chain(d, from, c) && Links(d, from, nodes, n) && n != 0
    ensures |nodes| < |c| && c[..|nodes|] == nodes && c[|nodes|] == n && d.Good(n)
  {
    if |c| <= |nodes| {
      SamePath(d, from, c, 0, nodes, n);
      assert false;
    }
    SamePath(d, from, nodes, n, c, 0);
    assert c[|nodes|..][0] == c[|nodes|];
  }

  lemma OneChain(d: Disk, from: nat, a: seq<nat>, b: seq<nat>)
    requires Chain(d, from, a) && Chain(d, from, b)
    ensures a == b
  {
    if |a| <= |b| {
      SamePath(d, from, a, 0, b, 0);
      assert b[|a|..] == [];
    } else {
      SamePath(d, from, b, 0, a, 0);
      assert false;
    }
  }

  /** A chain never comes back to an inode. */
  lemma ChainIsAcyclic(d: Disk, from: nat, c: seq<nat>)
    requires Chain(d, from, c)
    ensures NoDuplicates(c)
  {
    forall i, j | 0 <= i < j < |c|
      ensures c[i] != c[j]
    {
      LinksFrom(d, from, c, 0, i);
      LinksFrom(d, from, c, 0, j);
      if c[i] == c[j] {
        OneChain(d, c[i], c[i..], c[j..]);
        assert false;
      }
    }
  }

  /** Distinct numbers from 1 to `n` are at most `n`. */
  lemma {:induction false} Pigeonhole(s: seq<nat>, n: nat)
    requires NoDuplicates(s) && forall i :: 0 <= i < |s| ==> 1 <= s[i] <= n
    ensures |s| <= n
    decreases n
  {
    if s != [] {
      assert 1 <= s[0] <= n;
      if n in s {
        var k :| 0 <= k < |s| && s[k] == n;
        Pigeonhole(s[..k] + s[k + 1..], n - 1);
      } else {
        Pigeonhole(s, n - 1);
      }
    }
  }

  /** Where a walk stops without reaching zero, there is no list. */
  lemma NoWayOn(d: Disk, from: nat, nodes: seq<nat>, n: nat)
    requires Links(d, from, nodes, n) && n != 0
    requires !d.Good(n) || n in nodes || |nodes| >= d.inodeCount
    ensures !exists c :: Chain(d, from, c)
  {
    forall c | Chain(d, from, c)
      ensures false
    {
      ChainIsAcyclic(d, from, c);
      Pigeonhole(c, d.inodeCount);
      WalkOfChain(d, from, c, nodes, n);
      assert false;
    }
  }

  // ---- Changes -------------------------------------------------------------------

  /** `id` in front of the list. */
  function Added(d: Disk, id: nat, image: Inode): Disk {
    d.(head := id, inodes := d.inodes[id := image.(next := d.head, checksumOk := true)])
  }

  /** The link to the inode after `pre` leads to `next` instead. */
  function Unlinked(d: Disk, pre: seq<nat>, next: nat): Disk {
    if pre == [] then d.(head := next)
    else
      var p := pre[|pre| - 1];
      if p in d.inodes then d.(inodes := d.inodes[p := d.inodes[p].(next := next, checksumOk := true)]) else d
  }

  /** A walk from the head gets to `id` after `pre`. */
  ghost predicate Found(d: Disk, pre: seq<nat>, id: nat) {
    Links(d, d.head, pre, id) && id !in pre && d.Good(id)
  }

  /** Chains only depend on the inodes in them. */
  lemma ChainFrame(d: Disk, e: Disk, from: nat, c: seq<nat>, to: nat)
    requires Links(d, from, c, to)
    requires e.firstInode == d.firstInode && e.inodeCount == d.inodeCount && e.journalInode == d.journalInode
    requires forall n :: n in c ==> (n in d.inodes <==> n in e.inodes) && (n in d.inodes ==> d.inodes[n] == e.inodes[n])
    requires forall n :: n in c ==> (n in d.used <==> n in e.used)
    ensures Links(e, from, c, to)
  {
    forall i | 0 <= i < |c|
      ensures e.Good(c[i]) && e.Next(c[i]) == d.Next(c[i])
    {
      assert c[i] in c;
    }
  }

  /** Adding is safe exactly for an inode that is not on the list: otherwise
      the list would have no end. */
  lemma AddPrepends(d: Disk, c: seq<nat>, id: nat, image: Inode)
    requires Chain(d, d.head, c) && id != 0 && d.ValidNumber(id) && id in d.used && image.kind != Unknown
    ensures var e := Added(d, id, image);
            && (id !in c ==> Chain(e, e.head, [id] + c))
            && (id in c ==> !exists f :: Chain(e, e.head, f))
  {
    var e := Added(d, id, image);
    if id in c {
      var k :| 0 <= k < |c| && c[k] == id;
      AddedLoops(d, c, id, image, k);
    } else {
      ChainFrame(d, e, d.head, c, 0);
      assert Links(e, id, [id], d.head);
      LinksTogether(e, id, [id], d.head, c, 0);
    }
  }

  lemma AddedLoops(d: Disk, c: seq<nat>, id: nat, image: Inode, k: nat)
    requires Chain(d, d.head, c) && k < |c| && c[k] == id && image.kind != Unknown
    ensures var e := Added(d, id, image); !exists f :: Chain(e, e.head, f)
  {
    var e := Added(d, id, image);
    ChainIsAcyclic(d, d.head, c);
    var pre := c[..k];
    assert Links(d, d.head, pre, id);
    ChainFrame(d, e, d.head, pre, id);
    assert Links(e, id, [id], d.head);
    LinksTogether(e, id, [id], d.head, pre, id);
    assert ([id] + pre)[0] == id;
    NoWayOn(e, id, [id] + pre, id);
  }

  /** The walk finds exactly the members. */
  lemma FoundIffMember(d: Disk, c: seq<nat>, id: nat)
    requires Chain(d, d.head, c)
    ensures id in c <==> exists pre :: Found(d, pre, id)
  {
    if id in c {
      ChainIsAcyclic(d, d.head, c);
      var k :| 0 <= k < |c| && c[k] == id;
      assert Found(d, c[..k], id);
    }
    forall pre | Found(d, pre, id)
      ensures id in c
    {
      WalkOfChain(d, d.head, c, pre, id);
    }
  }

  /** Deleting takes exactly the target out. */
  lemma DeleteRemoves(d: Disk, c: seq<nat>, pre: seq<nat>, id: nat)
    requires Chain(d, d.head, c) && Found(d, pre, id)
    ensures |pre| < |c| && c[..|pre|] == pre && c[|pre|] == id && id !in c[|pre| + 1..]
    ensures var e := Unlinked(d, pre, d.Next(id)); Chain(e, e.head, pre + c[|pre| + 1..])
  {
    hide Links;
    hide NoDuplicates;
    hide Unlinked;
    var k := |pre|;
    FoundLinks(d, pre, id);
    WalkOfChain(d, d.head, c, pre, id);
    var post := c[k + 1..];
    ChainIsAcyclic(d, d.head, c);
    SplitApart(c, k);
    RestLinks(d, c, k);
    if pre == [] {
      UnlinkedHead(d, id, post);
      assert pre + post == post;
    } else {
      UnlinkedMiddle(d, pre, id, post);
    }
  }

  lemma FoundLinks(d: Disk, pre: seq<nat>, id: nat)
    requires Found(d, pre, id)
    ensures Links(d, d.head, pre, id) && id !in pre && d.Good(id) && id != 0
  {
  }

  lemma SplitApart(c: seq<nat>, k: nat)
    requires NoDuplicates(c) && k < |c|
    ensures NoDuplicates(c[..k]) && c[k] !in c[k + 1..]
    ensures k > 0 ==> c[..k][k - 1] !in c[k + 1..]
  {
  }

  lemma RestLinks(d: Disk, c: seq<nat>, k: nat)
    requires Chain(d, d.head, c) && k < |c|
    ensures Links(d, d.Next(c[k]), c[k + 1..], 0)
  {
    LinksFrom(d, d.head, c, 0, k + 1);
  }

  lemma UnlinkedHead(d: Disk, id: nat, post: seq<nat>)
    requires Links(d, d.Next(id), post, 0)
    ensures var e := Unlinked(d, [], d.Next(id)); Chain(e, e.head, post)
  {
    var e := Unlinked(d, [], d.Next(id));
    ChainFrame(d, e, d.Next(id), post, 0);
  }

  /** Everything but the inode in front of the target is as before. */
  lemma UnlinkedFrame(d: Disk, pre: seq<nat>, next: nat, from: nat, c: seq<nat>, to: nat)
    requires pre != [] && pre[|pre| - 1] !in c && Links(d, from, c, to)
    ensures var e := Unlinked(d, pre, next); e.head == d.head && Links(e, from, c, to)
  {
    hide Links;
    ChainFrame(d, Unlinked(d, pre, next), from, c, to);
  }

  lemma RelinkedInode(d: Disk, pre: seq<nat>, id: nat)
    requires pre != [] && d.Good(pre[|pre| - 1]) && d.Good(id)
    ensures Links(Unlinked(d, pre, d.Next(id)), pre[|pre| - 1], [pre[|pre| - 1]], d.Next(id))
  {
  }

  lemma FrontLinks(d: Disk, from: nat, pre: seq<nat>, to: nat)
    requires Links(d, from, pre, to) && pre != []
    ensures Links(d, from, pre[..|pre| - 1], pre[|pre| - 1]) && d.Good(pre[|pre| - 1])
  {
    hide Disk.Good;
  }

  lemma UnlinkedMiddle(d: Disk, pre: seq<nat>, id: nat, post: seq<nat>)
    requires Found(d, pre, id) && pre != [] && Links(d, d.Next(id), post, 0)
    requires pre[|pre| - 1] !in post && NoDuplicates(pre)
    ensures var e := Unlinked(d, pre, d.Next(id)); Chain(e, e.head, pre + post)
  {
    hide NoDuplicates;
    hide Links;
    hide Unlinked;
    hide Found;
    hide Disk.Good;
    hide Disk.Next;
    var n := |pre| - 1;
    var p, front := pre[n], pre[..n];
    var e := Unlinked(d, pre, d.Next(id));
    FoundLinks(d, pre, id);
    FrontLinks(d, d.head, pre, id);
    LastIsNew(pre);
    UnlinkedFrame(d, pre, d.Next(id), d.head, front, p);
    UnlinkedFrame(d, pre, d.Next(id), d.Next(id), post, 0);
    RelinkedInode(d, pre, id);
    LinksTogether(e, d.head, front, p, [p], d.Next(id));
    assert front + [p] == pre;
    LinksTogether(e, d.head, pre, d.Next(id), post, 0);
  }

  lemma LastIsNew(s: seq<nat>)
    requires NoDuplicates(s) && s != []
    ensures s[|s| - 1] !in s[..|s| - 1]
  {
  }

  /** The target cannot be found beyond this point. */
  lemma NotFound(d: Disk, nodes: seq<nat>, n: nat, id: nat)
    requires Links(d, d.head, nodes, n) && id !in nodes && n != id
    requires n == 0 || !d.Good(n) || n in nodes || |nodes| >= d.inodeCount
    ensures !exists pre :: Found(d, pre, id)
  {
    forall pre | Found(d, pre, id)
      ensures false
    {
      FoundBounds(d, pre, id);
      FoundLater(d, pre, id, nodes, n);
      assert false;
    }
  }

  lemma FoundLater(d: Disk, pre: seq<nat>, id: nat, nodes: seq<nat>, n: nat)
    requires Found(d, pre, id) && Links(d, d.head, nodes, n) && id !in nodes && n != id
    ensures |nodes| < |pre| && pre[..|nodes|] == nodes && pre[|nodes|] == n
  {
    if |pre| <= |nodes| {
      SamePath(d, d.head, pre, id, nodes, n);
      assert false;
    }
    SamePath(d, d.head, nodes, n, pre, id);
    assert pre[|nodes|..][0] == pre[|nodes|];
  }

  /** The way to a member never comes back to an inode either. */
  lemma FoundBounds(d: Disk, pre: seq<nat>, id: nat)
    requires Found(d, pre, id)
    ensures NoDuplicates(pre) && |pre| < d.inodeCount
  {
    var all := pre + [id];
    // As if the list ended at the target.
    var e := d.(inodes := d.inodes[id := d.inodes[id].(next := 0)]);
    ChainFrame(d, e, d.head, pre, id);
    LinksMore(e, d.head, pre, id);
    ChainIsAcyclic(e, d.head, all);
    Pigeonhole(all, d.inodeCount);
    forall i, j | 0 <= i < j < |pre|
      ensures pre[i] != pre[j]
    {
      assert all[i] != all[j];
    }
  }

  // ---- Settling ------------------------------------------------------------------

  /** After the last transaction of a reclaimed inode. */
  function Retired(d: Disk, pre: seq<nat>, id: nat): Disk
    requires id in d.inodes
  {
    var e := Unlinked(d, pre, d.Next(id));
    e.(used := e.used - {id}, inodes := e.inodes[id := Cleared(d.inodes[id].generation)])
  }

  /** After the last transaction of an inode that keeps its names. */
  function Kept(d: Disk, pre: seq<nat>, id: nat): Disk
    requires id in d.inodes
  {
    var e := Unlinked(d, pre, d.Next(id));
    e.(inodes := e.inodes[id := d.inodes[id].(next := 0, checksumOk := true)])
  }

  /** Whether cleanup releases the inode or trims it. */
  function Settle(d: Disk, pre: seq<nat>, id: nat): Disk
    requires id in d.inodes
  {
    if d.inodes[id].links == 0 then Retired(d, pre, id) else Kept(d, pre, id)
  }

  /** A released inode is free and keeps only its generation; one with names
      keeps all but its place in the list. */
  lemma SettledInode(d: Disk, pre: seq<nat>, id: nat)
    requires id in d.inodes
    ensures var i, e := d.inodes[id], Settle(d, pre, id);
            && id in e.inodes && e.inodes[id].next == 0 && e.inodes[id].generation == i.generation
            && e.inodes[id].links == i.links && e.inodes[id].checksumOk
            && (i.links == 0 ==> id !in e.used && e.inodes[id].kind == Unknown && !e.inodes[id].extents)
            && (i.links != 0 ==>
                  (id in e.used <==> id in d.used) && e.inodes[id].kind == i.kind && e.inodes[id].extents == i.extents)
  {
  }

  /** Between `d` and `e` exactly the inodes in `gone` were settled. */
  ghost predicate Settled(d: Disk, e: Disk, gone: seq<nat>) {
    && e.firstInode == d.firstInode && e.inodeCount == d.inodeCount && e.journalInode == d.journalInode
    && (forall n :: n !in gone ==> (n in e.used <==> n in d.used))
    && (forall n :: n !in gone ==> (n in e.inodes <==> n in d.inodes) && (n in d.inodes ==> e.inodes[n] == d.inodes[n]))
    && (forall n :: n in gone ==>
          && n in d.inodes && n in e.inodes
          && if d.inodes[n].links == 0 then n !in e.used && e.inodes[n] == Cleared(d.inodes[n].generation)
             else n in e.used && e.inodes[n] == d.inodes[n].(next := 0, checksumOk := true))
  }

  /** Settling the head of the list leaves the rest of it. */
  lemma SettleHead(d: Disk, c: seq<nat>, pre: seq<nat>)
    requires Chain(d, d.head, c) && c != [] && Found(d, pre, c[0])
    ensures var e := Settle(d, pre, c[0]); pre == [] && Chain(e, e.head, c[1..]) && Settled(d, e, [c[0]])
  {
    var id := c[0];
    var e := Settle(d, pre, id);
    FirstIsIn(pre);
    ChainIsAcyclic(d, d.head, c);
    LinksFrom(d, d.head, c, 0, 1);
    assert Links(d, d.Next(id), c[1..], 0);
    assert id !in c[1..];
    ChainFrame(d, e, d.Next(id), c[1..], 0);
  }

  lemma FirstIsIn(s: seq<nat>)
    ensures s != [] ==> s[0] in s
  {
  }

  lemma SettledMore(d: Disk, e: Disk, f: Disk, gone: seq<nat>, id: nat)
    requires Settled(d, e, gone) && Settled(e, f, [id]) && id !in gone
    ensures Settled(d, f, gone + [id])
  {
    assert id in [id];
  }

  lemma SettledNothing(d: Disk)
    ensures Settled(d, d, [])
  {
  }

  // ---- What happens to the files -----------------------------------------------------

  /** The file that the list leads to has done what it was listed for: without
      names it owns nothing, with names nothing beyond its end. */
  ghost predicate Cleaned(links: nat, was: File, now: File) {
    if links == 0 then now.Owns() == {} && now.attr == 0
    else Trimming(was, now) && NothingBeyond(now.Extents(), now.size)
  }

  /** What is mapped in front of the end of file stays, and so do the
      attributes. */
  ghost predicate Trimming(was: File, now: File) {
    now.size == was.size && now.attr == was.attr && KeepsBytes(was.Extents(), now.Extents(), was.size)
  }

  /** From `was` to `now`, the files in `done` were cleaned; others in `list`
      may have got part of the way; the rest are the same. */
  ghost predicate FilesCleaned(d: Disk, was: map<nat, File>, now: map<nat, File>, done: seq<nat>, list: seq<nat>) {
    && now.Keys == was.Keys
    && (forall n :: n in was && n !in list ==> now[n] == was[n])
    && (forall n :: n in was && n in list && n in d.inodes && d.inodes[n].links != 0 ==> Trimming(was[n], now[n]))
    && (forall n :: n in was && n in done && n in d.inodes ==> Cleaned(d.inodes[n].links, was[n], now[n]))
  }

  /** Only the file of `n`, if it has any, has changed. */
  ghost predicate OneChanged(was: map<nat, File>, now: map<nat, File>, n: nat) {
    now.Keys == was.Keys && forall m :: m in was && m != n ==> now[m] == was[m]
  }

  lemma OneChangedTwice(was: map<nat, File>, mid: map<nat, File>, now: map<nat, File>, n: nat)
    requires OneChanged(was, mid, n) && OneChanged(mid, now, n)
    ensures OneChanged(was, now, n)
  {
  }

  lemma CleanedOut(was: File, now: File)
    requires now.Owns() == {} && now.attr == 0
    ensures Cleaned(0, was, now)
  {
  }

  lemma HousedSpace(lay: Layout, space: Space)
    requires Balanced(lay, space)
    ensures Fits(lay, space)
  {
  }

  lemma SameFiles(was: map<nat, File>, now: map<nat, File>, n: nat)
    requires OneChanged(was, now, n)
    ensures n in was <==> n in now
  {
  }

  lemma TrimmingSame(f: File)
    ensures Trimming(f, f)
  {
  }

  lemma NoneCleaned(d: Disk, files: map<nat, File>, list: seq<nat>)
    ensures FilesCleaned(d, files, files, [], list)
  {
    forall n | n in files
      ensures Trimming(files[n], files[n])
    {
      TrimmingSame(files[n]);
    }
  }

  /** The next file on the list. */
  lemma OneMoreCleaned(d: Disk, was: map<nat, File>, mid: map<nat, File>, now: map<nat, File>, list: seq<nat>, k: nat,
                       finished: bool)
    requires k < |list| && FilesCleaned(d, was, mid, list[..k], list) && NoDuplicates(list) && list[k] in d.inodes
    requires OneChanged(mid, now, list[k])
    requires list[k] in mid && d.inodes[list[k]].links != 0 ==> Trimming(mid[list[k]], now[list[k]])
    requires list[k] in mid && finished ==>
               Cleaned(if d.inodes[list[k]].links == 0 then 0 else 1, mid[list[k]], now[list[k]])
    requires list[k] in mid ==> mid[list[k]] == was[list[k]]
    ensures FilesCleaned(d, was, now, if finished then list[..k + 1] else list[..k], list)
  {
    hide Cleaned;
    hide Trimming;
    hide NoDuplicates;
    NewAt(list, k);
    assert list[..k + 1] == list[..k] + [list[k]];
    assert list[k] in list;
    if list[k] in mid {
      AnyLinks(d.inodes[list[k]].links, mid[list[k]], now[list[k]]);
    }
  }

  // ---- What can be settled -----------------------------------------------------------

  /** What an inode without names owns can be released: its blocks can be found,
      its attribute block passes the check, and its block count counts nothing
      else. */
  ghost predicate Reclaimable(d: Disk, st: Store, n: nat) {
    n in d.inodes &&
    (n in st.files ==>
       && (d.inodes[n].extents || st.files[n].count == 0)
       && AttrFine(st, n) && st.files[n].Surplus() == 0)
  }

  /** A listed inode with names must be a regular file with extents. */
  predicate Trimmable(inode: Inode) {
    inode.links != 0 && inode.kind == Regular && inode.extents
  }

  ghost predicate Settles(d: Disk, st: Store, n: nat) {
    n in d.inodes && if d.inodes[n].links == 0 then Reclaimable(d, st, n) else Trimmable(d.inodes[n])
  }

  /** That is: a regular file with extents if it has names; without names, when
      it owns anything, extents that account for all it counts, and no attribute
      block or one that may be detached. */
  lemma SettlesMeans(d: Disk, st: Store, n: nat)
    requires n in d.inodes
    ensures d.inodes[n].links != 0 ==>
              (Settles(d, st, n) <==> d.inodes[n].kind == Regular && d.inodes[n].extents)
    ensures d.inodes[n].links == 0 && n !in st.files ==> Settles(d, st, n)
    ensures d.inodes[n].links == 0 && n in st.files ==>
              var f := st.files[n];
              (Settles(d, st, n) <==>
                 && (d.inodes[n].extents || f.count == 0)
                 && f.count == Count(f.Extents()) + |Owned(f.nodes, f.root.depth, f.root.slots)|
                 && (f.attr == 0 || (f.attr in st.images && XattrRelease.Detaches(st.images[f.attr]))))
  {
    hide XattrRelease.Detaches;
    hide File.Extents;
  }

  ghost predicate AllSettle(d: Disk, st: Store, c: seq<nat>) {
    forall n :: n in c ==> Settles(d, st, n)
  }

  /** How far the release of an inode gets that cannot be released: nothing is
      done if its blocks cannot be found; else the blocks go, and the attribute
      block if it passes the check. */
  ghost predicate Stuck(d: Disk, was: Store, now: Store, n: nat) {
    n in d.inodes && n in was.files && n in now.files
    && if !d.inodes[n].extents && was.files[n].count != 0 then now.files[n] == was.files[n]
       else now.files[n].Owns() == {} && now.files[n].attr == if AttrFine(was, n) then 0 else was.files[n].attr
  }

  /** The same inode, file and check on another state of the device. */
  lemma SettlesAlike(d: Disk, was: Store, e: Disk, now: Store, n: nat)
    requires n in d.inodes && n in e.inodes && e.inodes[n] == d.inodes[n]
    requires (n in was.files <==> n in now.files) && (n in was.files ==> now.files[n] == was.files[n])
    requires SameChecks(was.images, now.images)
    ensures Settles(e, now, n) <==> Settles(d, was, n)
  {
    hide XattrRelease.Detaches;
    hide File.Surplus;
  }

  /** The list of a mount with a journal, for every transaction below is
      all-or-nothing. */
  class OrphanList {
    const lay: Layout
    const guard: DataGuard
    var disk: Disk               // what the device holds of the list
    var staged: Disk             // what the open transaction makes of it
    var store: Store             // what the inodes own, and the allocation metadata
    var failures: nat            // transactions that have failed

    ghost predicate Valid()
      reads this, guard
    {
      && guard.Valid() && guard.blockCount == lay.blockCount && guard.firstDataBlock == lay.firstData
      && Housed(lay, guard.original, guard.journal, store)
    }

    constructor (lay: Layout, guard: DataGuard, disk: Disk, store: Store)
      requires guard.Valid() && guard.blockCount == lay.blockCount && guard.firstDataBlock == lay.firstData
      requires Housed(lay, guard.original, guard.journal, store)
      ensures Valid() && this.disk == disk && this.staged == disk && this.store == store
      ensures this.lay == lay && this.guard == guard
    {
      this.lay := lay;
      this.guard := guard;
      this.disk := disk;
      this.staged := disk;
      this.store := store;
      failures := 0;
    }

    /** The transactions that do not concern the list: release everything that
        an inode owns alone, or what lies beyond its end. */
    method ReleaseBlocks(id: nat, linked: bool) returns (ok: bool)
      requires Valid()
      modifies this`store, this`failures
      ensures Valid() && OneChanged(old(store).files, store.files, id)
      ensures Fits(lay, old(store).space) && Fits(lay, store.space) && Freed(lay, old(store), store)
      ensures failures == if ok then old(failures) else old(failures) + 1
      ensures id in store.files && linked ==> Trimming(old(store).files[id], store.files[id])
      ensures id in store.files && linked && ok ==> Cleaned(1, old(store).files[id], store.files[id])
      ensures id in store.files && !linked && ok ==> store.files[id].Owns() == {}
      ensures store.images == old(store).images
      ensures id in store.files ==>
                && store.files[id].attr == old(store).files[id].attr
                && store.files[id].Surplus() == old(store).files[id].Surplus()
    {
      hide Housed;
      hide Freed;
      hide KeepsBytes;
      hide NothingBeyond;
      hide Released;
      hide Sane;
      hide Fits;
      hide File.Owns;
      hide File.Extents;
      hide File.Surplus;
      hide State.Surplus;
      HousedFits(lay, guard.original, guard.journal, store);
      FreedNothing(lay, store);
      if id !in store.files {
        return true;
      }
      var file := store.files[id];
      TrimmingSame(file);
      HousedOne(lay, guard.original, guard.journal, store, id);
      var reclaimer := new Reclaimer(lay, guard, StateOf(file, store.space));
      SameOwner(file, reclaimer.state);
      var r;
      if linked {
        r := reclaimer.TrimLinked();
      } else {
        r := reclaimer.Reclaim();
      }
      var after := reclaimer.state;
      SurplusReleased(lay, StateOf(file, store.space), after);
      SameOwner(FileOf(after, file.attr), after);
      OneFileReleased(lay, guard.original, guard.journal, store, id, after);
      store := Store(store.files[id := FileOf(after, file.attr)], store.images, after.space);
      ok := r.Ok?;
      if !ok {
        failures := failures + 1;
      }
    }

    /** One more transaction: let go of the attribute block, if it passes the
        check. It is counted down, or released by its last user. */
    method ReleaseAttr(id: nat) returns (r: Result<()>)
      requires Valid()
      modifies this`store, this`failures
      ensures Valid() && OneChanged(old(store).files, store.files, id)
      ensures Fits(lay, old(store).space) && Fits(lay, store.space) && Freed(lay, old(store), store)
      ensures SameChecks(old(store).images, store.images) && failures >= old(failures)
      ensures id in store.files ==>
                store.files[id] == old(store).files[id] || store.files[id] == old(store).files[id].(attr := 0)
      ensures r.Ok? && id in store.files ==> store.files[id] == old(store).files[id].(attr := 0)
      ensures r.Ok? <==> failures == old(failures) && AttrFine(old(store), id)
      ensures !AttrFine(old(store), id) ==> store == old(store)
      ensures r.Err? ==>
                r.code == if failures == old(failures) then AttrError(old(store), id) else EIO
    {
      hide Housed;
      hide Freed;
      hide Fits;
      hide InUse;
      hide Balanced;
      hide AnyOverlap;
      hide File.Owns;
      hide SameChecks;
      hide AttrFine;
      hide XattrRelease.Releases;
      hide XattrRelease.Entries;
      hide XattrRelease.RefCount;
      HousedFits(lay, guard.original, guard.journal, store);
      FreedNothing(lay, store);
      ChecksThemselves(store.images);
      NoAttrIsFine(store, id);
      if id !in store.files || store.files[id].attr == 0 {
        return Ok(());
      }
      var b := store.files[id].attr;
      AttrVerdict(lay, guard.original, guard.journal, store, id);
      var readable := *;
      if !readable {
        failures := failures + 1;
        return Err(EIO);
      }
      var verdict := XattrRelease.ValidateForRelease(store.images[b]);
      if verdict.None? {
        return Err(EIO);
      }
      if verdict.value.1 {
        return Err(ENOTSUP);
      }
      var next := WithoutUser(id, verdict.value.0);
      HousedFits(lay, guard.original, guard.journal, next);
      var lasting, ok := *, *;
      if ok || lasting {
        store := next;
      }
      if !ok {
        failures := failures + 1;
        return Err(EIO);
      }
      return Ok(());
    }

    /** What is staged for an attribute block with so many users. */
    method WithoutUser(id: nat, count: u32) returns (next: Store)
      requires Valid() && id in store.files && store.files[id].attr != 0 && AttrFine(store, id)
      requires count == XattrRelease.RefCount(store.images[store.files[id].attr])
      ensures Housed(lay, guard.original, guard.journal, next) && SameChecks(store.images, next.images)
      ensures Fits(lay, store.space) && Fits(lay, next.space) && Freed(lay, store, next)
      ensures next.files == WithoutAttr(store.files, id)
    {
      hide Housed;
      hide Freed;
      hide Fits;
      hide InUse;
      hide Balanced;
      hide AnyOverlap;
      hide SameChecks;
      hide File.Owns;
      hide XattrRelease.Detaches;
      hide XattrRelease.RefCount;
      hide XattrRelease.CountedDown;
      var b := store.files[id].attr;
      HousedFits(lay, guard.original, guard.journal, store);
      AttrAllowed(lay, guard, store, id);
      if count > 1 {
        var sum: u32 := *;
        SharedAttrReleased(lay, guard.original, guard.journal, store, id, sum);
        next := Store(WithoutAttr(store.files, id), store.images[b := XattrRelease.CountedDown(store.images[b], sum)],
                      store.space);
      } else {
        var alloc := new Allocator(lay, guard, store.space);
        var freed := alloc.DeallocRange(b, 1);
        HousedSpace(lay, alloc.space);
        LastAttrReleased(lay, guard.original, guard.journal, store, id, alloc.space);
        ChecksThemselves(store.images);
        next := Store(WithoutAttr(store.files, id), store.images, alloc.space);
      }
      HousedFits(lay, guard.original, guard.journal, next);
    }

    /** With the journal, every staged change becomes durable or none; after an
        error either can be the case. */
    method Commit() returns (r: Result<()>)
      modifies this`disk, this`failures
      ensures r.Ok? ==> disk == staged
      ensures disk == staged || disk == old(disk)
      ensures failures == if r.Ok? then old(failures) else old(failures) + 1
      ensures r.Err? ==> r.code == EIO
    {
      var ok, lasting := *, *;
      if ok || lasting {
        disk := staged;
      }
      if !ok {
        failures := failures + 1;
        return Err(EIO);
      }
      return Ok(());
    }

    /** Accept exactly the lists that come to an end, whatever the links say. */
    method Validate() returns (r: Result<seq<nat>>)
      ensures r.Ok? ==> Chain(disk, disk.head, r.value)
      ensures r.Err? ==> r.code == EIO && !exists c :: Chain(disk, disk.head, c)
      ensures r.Ok? ==> OnDevice(disk, r.value)
      ensures r.Ok? <==> exists c :: OnDevice(disk, c)
    {
      hide Links;
      hide OnDevice;
      forall c
        ensures Chain(disk, disk.head, c) <==> OnDevice(disk, c)
      {
        ChainOnDevice(disk, c);
      }
      var current := disk.head;
      var visited: set<nat> := {};
      var inodes: seq<nat> := [];
      LinksNothing(disk, disk.head);
      while current != 0
        invariant Links(disk, disk.head, inodes, current)
        invariant |inodes| <= disk.inodeCount
        invariant forall n :: n in visited <==> n in inodes
        decreases disk.inodeCount - |inodes|
      {
        if !disk.ValidNumber(current) || |inodes| >= disk.inodeCount || current in visited {
          NoWayOn(disk, disk.head, inodes, current);
          return Err(EIO);
        }
        visited := visited + {current};
        if current !in disk.used || current !in disk.inodes {
          NoWayOn(disk, disk.head, inodes, current);
          return Err(EIO);
        }
        var node := disk.inodes[current];
        if !node.checksumOk || node.kind == Unknown {
          NoWayOn(disk, disk.head, inodes, current);
          return Err(EIO);
        }
        if node.next != 0 && !disk.ValidNumber(node.next) {
          NoWayOn(disk, disk.head, inodes, current);
          return Err(EIO);
        }
        LinksMore(disk, disk.head, inodes, current);
        inodes := inodes + [current];
        current := node.next;
      }
      return Ok(inodes);
    }

    /** Put an inode without names in front of the list. */
    method Add(id: nat, image: Inode) returns (r: Result<()>)
      requires staged == disk
      modifies this`staged
      ensures r.Ok? <==>
                && image.links == 0 && image.kind != Unknown
                && disk.firstInode <= id <= disk.inodeCount && id != 2 && id != disk.journalInode
                && disk.head != id && (disk.head == 0 || Listable(disk, disk.head))
      ensures r.Ok? ==> staged == Added(disk, id, image)
      ensures r.Err? ==> staged == old(staged)
      ensures r.Err? ==>
                r.code == if image.links != 0 || image.kind == Unknown || !disk.ValidNumber(id) then EINVAL else EIO
    {
      if image.links != 0 || image.kind == Unknown || !staged.ValidNumber(id) {
        return Err(EINVAL);
      }
      var oldHead := staged.head;
      if oldHead == id || (oldHead != 0 && !staged.ValidNumber(oldHead)) {
        return Err(EIO);
      }
      staged := staged.(inodes := staged.inodes[id := image.(next := oldHead, checksumOk := true)]);
      staged := staged.(head := id);
      return Ok(());
    }

    /** Take `id` out of the list, at its head or behind another inode. The
        caller's image of it must be the current one. */
    method Delete(id: nat, image: Inode) returns (r: Result<()>, ghost pre: seq<nat>)
      requires staged == disk
      modifies this`staged
      ensures r.Ok? ==> Found(disk, pre, id) && staged == Unlinked(disk, pre, disk.Next(id))
      ensures r.Ok? <==>
                && (exists p :: Found(disk, p, id))
                && image.generation == disk.inodes[id].generation && image.next == disk.inodes[id].next
      ensures r.Err? ==> r.code == EIO && staged == old(staged)
    {
      hide Links;
      hide Unlinked;
      pre := [];
      if !disk.ValidNumber(id) {
        return Err(EIO), pre;
      }
      var current := disk.head;
      var predecessor: Option<nat> := None;
      var visited: set<nat> := {};
      LinksNothing(disk, disk.head);
      while current != 0
        invariant Links(disk, disk.head, pre, current) && id !in pre
        invariant |pre| <= disk.inodeCount && |visited| == |pre|
        invariant forall n :: n in visited <==> n in pre
        invariant predecessor == if pre == [] then None else Some(pre[|pre| - 1])
        invariant staged == disk
        invariant forall n :: n in pre ==> disk.Good(n)
        decreases disk.inodeCount - |pre|
      {
        if !disk.ValidNumber(current) || |visited| >= disk.inodeCount || current in visited
           || current !in disk.used || current !in disk.inodes {
          Lost(disk, pre, current, id);
          return Err(EIO), pre;
        }
        visited := visited + {current};
        var node := disk.inodes[current];
        if !node.checksumOk || node.kind == Unknown {
          Lost(disk, pre, current, id);
          return Err(EIO), pre;
        }
        if node.next != 0 && !disk.ValidNumber(node.next) {
          Lost(disk, pre, current, id);
          return Err(EIO), pre;
        }
        if current == id {
          if node.generation != image.generation || node.next != image.next {
            return Err(EIO), pre;
          }
          if predecessor.Some? {
            var p := predecessor.value;
            assert p in pre;
            staged := staged.(inodes := staged.inodes[p := disk.inodes[p].(next := image.next, checksumOk := true)]);
          } else {
            staged := staged.(head := image.next);
          }
          UnlinkedIs(disk, pre, image.next);
          return Ok(()), pre;
        }
        LinksMore(disk, disk.head, pre, current);
        predecessor := Some(current);
        pre := pre + [current];
        current := node.next;
      }
      Lost(disk, pre, 0, id);
      return Err(EIO), pre;
    }

    /** Release an inode without names. Its blocks and attributes go first, in
        transactions that do not concern the list; the last transaction takes
        the inode off the list and releases its number.  An inode that cannot be
        released stays on the list, as it will the next time. */
    method ReclaimInode(id: nat) returns (r: Result<()>, ghost pre: seq<nat>)
      requires Valid()
      modifies this
      ensures Valid() && OneChanged(old(store).files, store.files, id)
      ensures Fits(lay, old(store).space) && Fits(lay, store.space) && Freed(lay, old(store), store)
      ensures SameChecks(old(store).images, store.images)
      ensures r.Ok? || disk != old(disk) ==>
                Found(old(disk), pre, id) && old(disk).inodes[id].links == 0 && disk == Settle(old(disk), pre, id)
      ensures id in store.files && (r.Ok? || disk != old(disk)) ==> Cleaned(0, old(store).files[id], store.files[id])
      ensures r.Err? ==> r.code == EIO || r.code == EINVAL || r.code == ENOTSUP
      ensures failures >= old(failures)
      ensures r.Ok? <==>
                && failures == old(failures) && OnList(old(disk), id) && old(disk).inodes[id].links == 0
                && Reclaimable(old(disk), old(store), id)
      ensures failures == old(failures) && OnList(old(disk), id) && old(disk).inodes[id].links == 0
              && !Reclaimable(old(disk), old(store), id) ==>
                && disk == old(disk) && Stuck(disk, old(store), store, id) && !Reclaimable(disk, store, id)
    {
      hide Links;
      hide Unlinked;
      hide OnList;
      hide Found;
      hide Housed;
      hide Freed;
      hide Fits;
      hide Cleaned;
      hide Trimming;
      hide AttrFine;
      hide SameChecks;
      hide File.Owns;
      hide File.Surplus;
      HousedFits(lay, guard.original, guard.journal, store);
      FreedNothing(lay, store);
      ChecksThemselves(store.images);
      pre := [];
      if id !in disk.inodes {
        NotOnList(disk, id);
        return Err(EIO), pre;
      }
      var inode := disk.inodes[id];
      if id !in disk.used || inode.kind == Unknown || inode.links != 0 || !inode.checksumOk {
        NotOnList(disk, id);
        return Err(EINVAL), pre;
      }
      var chain := Validate();
      if chain.Err? {
        NoList(disk, id);
        return Err(chain.code), pre;
      }
      OnListIff(disk, chain.value, id);
      if id !in chain.value {
        return Err(EINVAL), pre;
      }
      ghost var was, d := store, disk;
      r := Empty(id, inode);
      if r.Err? {
        return r, pre;
      }
      if id in store.files {
        CleanedOut(was.files[id], store.files[id]);
      }
      staged := disk;
      r, pre := Delete(id, inode);
      if r.Ok? {
        staged := staged.(used := staged.used - {id}, inodes := staged.inodes[id := Cleared(inode.generation)]);
        r := Commit();
      }
    }

    /** Release all that an inode without names owns, and see that nothing is
        left. */
    method Empty(id: nat, inode: Inode) returns (r: Result<()>)
      requires Valid() && id in disk.inodes && disk.inodes[id] == inode
      modifies this`store, this`failures
      ensures Valid() && OneChanged(old(store).files, store.files, id)
      ensures Fits(lay, old(store).space) && Fits(lay, store.space) && Freed(lay, old(store), store)
      ensures SameChecks(old(store).images, store.images) && failures >= old(failures)
      ensures r.Ok? && id in store.files ==> store.files[id].Owns() == {} && store.files[id].attr == 0
      ensures r.Err? ==> r.code == EIO || r.code == ENOTSUP
      ensures r.Ok? <==> failures == old(failures) && Reclaimable(disk, old(store), id)
      ensures failures == old(failures) && !Reclaimable(disk, old(store), id) ==>
                Stuck(disk, old(store), store, id) && !Reclaimable(disk, store, id)
    {
      hide Housed;
      hide Freed;
      hide Fits;
      hide SameChecks;
      hide AttrFine;
      hide File.Owns;
      hide File.Surplus;
      hide Trimming;
      hide Cleaned;
      HousedFits(lay, guard.original, guard.journal, store);
      FreedNothing(lay, store);
      ChecksThemselves(store.images);
      ghost var was := store;
      if !inode.extents {
        if id in store.files && store.files[id].count != 0 {
          return Err(EIO);
        }
        if id in store.files {
          NothingCounted(lay, guard.original, guard.journal, store, id);
        }
      } else {
        var emptied := ReleaseBlocks(id, false);
        if !emptied {
          return Err(EIO);
        }
      }
      ghost var mid := store;
      ChecksThemselves(mid.images);
      AttrStillFine(was, mid, id);
      NoAttrIsFine(mid, id);
      r := ReleaseAttr(id);
      FreedComposes(lay, was, mid, store);
      OneChangedTwice(was.files, mid.files, store.files, id);
      if id in store.files {
        AttrGone(mid.files[id]);
        FilesFit(lay, guard.original, guard.journal, store, id);
      }
      if r.Err? {
        if !AttrFine(mid, id) {
          AttrStillFine(mid, store, id);
        }
        return r;
      }
      NoAttrIsFine(store, id);
      if id in store.files && store.files[id].count != 0 {
        return Err(EIO);
      }
    }

    /** Finish the truncation of an inode that still has names: its blocks
        beyond the end of file go first, then it leaves the list. */
    method RecoverLinked(id: nat) returns (r: Result<()>, ghost pre: seq<nat>)
      requires Valid()
      modifies this
      ensures Valid() && OneChanged(old(store).files, store.files, id)
      ensures Fits(lay, old(store).space) && Fits(lay, store.space) && Freed(lay, old(store), store)
      ensures r.Ok? || disk != old(disk) ==>
                Found(old(disk), pre, id) && old(disk).inodes[id].links != 0 && disk == Settle(old(disk), pre, id)
      ensures id in store.files ==> Trimming(old(store).files[id], store.files[id])
      ensures store.images == old(store).images
      ensures id in store.files && (r.Ok? || disk != old(disk)) ==> Cleaned(1, old(store).files[id], store.files[id])
      ensures r.Err? ==> r.code == EIO || r.code == EINVAL
      ensures failures >= old(failures)
      ensures r.Ok? <==> failures == old(failures) && OnList(old(disk), id) && Trimmable(old(disk).inodes[id])
      ensures failures == old(failures) && OnList(old(disk), id) && !Trimmable(old(disk).inodes[id]) ==>
                disk == old(disk) && store == old(store)
    {
      hide Links;
      hide Unlinked;
      hide OnList;
      hide Found;
      hide Housed;
      hide Freed;
      hide Fits;
      hide Cleaned;
      hide Trimming;
      HousedFits(lay, guard.original, guard.journal, store);
      FreedNothing(lay, store);
      if id in store.files {
        TrimmingSame(store.files[id]);
      }
      pre := [];
      var chain := Validate();
      if chain.Err? {
        NoList(disk, id);
        return Err(chain.code), pre;
      }
      OnListIff(disk, chain.value, id);
      if id !in chain.value {
        return Err(EINVAL), pre;
      }
      var inode := disk.inodes[id];
      if id !in disk.used || inode.kind != Regular || inode.links == 0 || !inode.checksumOk || !inode.extents {
        return Err(EIO), pre;
      }
      var trimmed := ReleaseBlocks(id, true);
      if !trimmed {
        return Err(EIO), pre;
      }
      staged := disk;
      r, pre := Delete(id, inode);
      if r.Ok? {
        staged := staged.(inodes := staged.inodes[id := inode.(next := 0, checksumOk := true)]);
        r := Commit();
      }
    }

    /** Settle every inode of a list that was found sound as a whole, in its
        order.  Wherever it stops, a beginning of the list has been settled and
        the rest is still a list, for the next mount to go on with.  Without a
        failure it stops at the first inode that cannot be settled, and so will
        every cleanup after it. */
    method Cleanup() returns (r: Result<()>, ghost snapshot: seq<nat>, ghost stop: nat)
      requires Valid()
      modifies this
      ensures Valid()
      ensures Fits(lay, old(store).space) && Fits(lay, store.space) && Freed(lay, old(store), store)
      ensures (exists c :: Chain(old(disk), old(disk).head, c)) ==>
                Chain(old(disk), old(disk).head, snapshot)
                && CleanedTo(old(disk), disk, old(store).files, store.files, snapshot, stop)
      ensures !(exists c :: Chain(old(disk), old(disk).head, c)) ==>
                r.Err? && disk == old(disk) && store.files == old(store).files
      ensures r.Ok? ==> disk.head == 0 && Settled(old(disk), disk, snapshot)
      ensures r.Ok? ==> FilesCleaned(old(disk), old(store).files, store.files, snapshot, snapshot)
      ensures r.Ok? <==>
                && failures == old(failures) && (exists c :: Chain(old(disk), old(disk).head, c))
                && AllSettle(old(disk), old(store), snapshot)
      ensures r.Err? && failures == old(failures) && (exists c :: Chain(old(disk), old(disk).head, c)) ==>
                && stop < |snapshot| && AllSettle(old(disk), old(store), snapshot[..stop])
                && GivesUp(old(disk), old(store), disk, store, snapshot[stop])
      ensures r.Err? ==> r.code == EIO || r.code == EINVAL || r.code == ENOTSUP
    {
      hide Links;
      hide Settled;
      hide Settle;
      hide Found;
      hide CleanedTo;
      hide OnList;
      hide Housed;
      hide Freed;
      hide Fits;
      hide Cleaned;
      hide Trimming;
      hide FilesCleaned;
      hide OneChanged;
      hide NoDuplicates;
      hide Waiting;
      hide AllSettle;
      hide Settles;
      hide Reclaimable;
      hide Trimmable;
      hide Stuck;
      hide GivesUp;
      hide SameChecks;
      ghost var start, was := disk, store;
      ghost var had := store.files;
      HousedFits(lay, guard.original, guard.journal, store);
      FreedNothing(lay, store);
      ChecksThemselves(store.images);
      snapshot, stop := [], 0;
      var chain := Validate();
      if chain.Err? {
        return Err(chain.code), snapshot, stop;
      }
      var list := chain.value;
      snapshot := list;
      SettledNothing(start);
      NoneCleaned(start, had, list);
      ChainIsAcyclic(start, start.head, list);
      AllWaiting(had, list);
      NoneSettles(start, was);
      assert list[0..] == list && list[..0] == [];
      StoppedAt(start, disk, had, store.files, list, 0);
      var i := 0;
      r := Ok(());
      while i < |list| && r.Ok?
        invariant i <= |list| && CleanedTo(start, disk, had, store.files, list, stop)
        invariant Valid() && Fits(lay, store.space) && Freed(lay, was, store) && SameChecks(was.images, store.images)
        invariant AllSettle(start, was, list[..i]) && failures >= old(failures)
        invariant r.Ok? ==> stop == i && Chain(disk, disk.head, list[i..]) && Settled(start, disk, list[..i])
        invariant r.Ok? ==> FilesCleaned(start, had, store.files, list[..i], list) && Waiting(had, store.files, list, i)
        invariant r.Ok? ==> failures == old(failures)
        invariant r.Err? && failures == old(failures) ==>
                    stop == i < |list| && GivesUp(start, was, disk, store, list[i])
        invariant r.Err? ==> r.code == EIO || r.code == EINVAL || r.code == ENOTSUP
        decreases |list| - i, r.Ok?
      {
        var id := list[i];
        ghost var before, left := disk, store;
        ghost var mid := left.files;
        RecheckPasses(disk, list, i);
        AsAtStart(start, was, disk, left, list, i);
        var expectedNext := if i + 1 < |list| then list[i + 1] else 0;
        if disk.head != id || id !in disk.inodes || id !in disk.used || disk.inodes[id].next != expectedNext
           || disk.inodes[id].kind == Unknown || !disk.inodes[id].checksumOk {
          r := Err(EIO);
        } else {
          ghost var pre;
          if disk.inodes[id].links == 0 {
            r, pre := ReclaimInode(id);
          } else {
            r, pre := RecoverLinked(id);
            ChecksThemselves(left.images);
          }
          SameChecksTwice(was.images, left.images, store.images);
          SameFiles(mid, store.files, id);
          FreedComposes(lay, was, left, store);
          WaitingAt(had, mid, list, i);
          OneMoreCleaned(start, had, mid, store.files, list, i, r.Ok? || disk != before);
          StillWaiting(had, mid, store.files, list, i);
          SettlesHere(before, left, id);
          if r.Ok? || disk != before {
            OneSettled(start, before, disk, list, i, pre);
            StoppedAt(start, disk, had, store.files, list, i + 1);
            NextHead(disk, list, i + 1);
            stop := i + 1;
          } else {
            StoppedAt(start, disk, had, store.files, list, i);
            if failures == old(failures) {
              GivesUpHere(start, was, disk, left, store, id);
            }
          }
          if r.Ok? && disk.head != expectedNext {
            r := Err(EIO);
          }
        }
        if r.Ok? {
          i := i + 1;
        }
      }
      if r.Err? {
        if i < |list| {
          NotAllSettle(start, was, disk, store, list, i);
        }
        return r, snapshot, stop;
      }
      assert list[..|list|] == list && list[|list|..] == [];
      LinksEnd(disk);
    }
  }

  /** The first `k` of the list have been settled, with the files behind them;
      the rest is the list. */
  ghost predicate CleanedTo(d: Disk, e: Disk, was: map<nat, File>, now: map<nat, File>, c: seq<nat>, k: nat) {
    k <= |c| && Chain(e, e.head, c[k..]) && Settled(d, e, c[..k]) && FilesCleaned(d, was, now, c[..k], c)
  }

  /** Cleanup stopped at `n`, which could not be settled and still cannot. */
  ghost predicate GivesUp(d: Disk, was: Store, e: Disk, now: Store, n: nat) {
    && e.head == n && n in d.inodes && !Settles(d, was, n) && !Settles(e, now, n)
    && if d.inodes[n].links == 0 then Stuck(d, was, now, n)
       else n in was.files ==> n in now.files && now.files[n] == was.files[n]
  }

  lemma StoppedAt(d: Disk, e: Disk, was: map<nat, File>, now: map<nat, File>, c: seq<nat>, k: nat)
    requires k <= |c| && Chain(e, e.head, c[k..]) && Settled(d, e, c[..k]) && FilesCleaned(d, was, now, c[..k], c)
    ensures CleanedTo(d, e, was, now, c, k)
  {
    hide FilesCleaned;
    hide Links;
    hide Settled;
  }

  lemma SettlesHere(d: Disk, st: Store, n: nat)
    requires n in d.inodes
    ensures Settles(d, st, n) <==> if d.inodes[n].links == 0 then Reclaimable(d, st, n) else Trimmable(d.inodes[n])
  {
    hide Reclaimable;
    hide Trimmable;
  }

  /** An inode that was as in the beginning stopped the cleanup. */
  lemma GivesUpHere(start: Disk, was: Store, d: Disk, left: Store, now: Store, n: nat)
    requires n in start.inodes && n in d.inodes && d.inodes[n] == start.inodes[n] && d.head == n
    requires (n in was.files <==> n in left.files) && (n in was.files ==> left.files[n] == was.files[n])
    requires SameChecks(was.images, left.images) && !Settles(d, left, n)
    requires if d.inodes[n].links == 0 then Stuck(d, left, now, n) && !Reclaimable(d, now, n) else now == left
    ensures GivesUp(start, was, d, now, n)
  {
    hide XattrRelease.Detaches;
    hide File.Surplus;
    hide File.Owns;
    SettlesAlike(start, was, d, left, n);
    if n in was.files {
      AttrStillFine(was, left, n);
    }
  }

  lemma NotAllSettle(start: Disk, was: Store, d: Disk, now: Store, c: seq<nat>, i: nat)
    requires i < |c|
    ensures GivesUp(start, was, d, now, c[i]) ==> !AllSettle(start, was, c)
  {
    hide Settles;
    hide Stuck;
    assert c[i] in c;
  }

  /** The files that come later on the list are as they were. */
  ghost predicate Waiting(was: map<nat, File>, now: map<nat, File>, c: seq<nat>, k: nat) {
    forall i :: k <= i < |c| && c[i] in now ==> c[i] in was && now[c[i]] == was[c[i]]
  }

  lemma AllWaiting(files: map<nat, File>, c: seq<nat>)
    ensures Waiting(files, files, c, 0)
  {
  }

  lemma WaitingAt(was: map<nat, File>, now: map<nat, File>, c: seq<nat>, k: nat)
    requires Waiting(was, now, c, k) && k < |c|
    ensures c[k] in now ==> c[k] in was && now[c[k]] == was[c[k]]
  {
  }

  lemma StillWaiting(was: map<nat, File>, mid: map<nat, File>, now: map<nat, File>, c: seq<nat>, k: nat)
    requires Waiting(was, mid, c, k) && k < |c| && NoDuplicates(c) && OneChanged(mid, now, c[k])
    ensures Waiting(was, now, c, k + 1)
  {
    forall i | k + 1 <= i < |c| && c[i] in now
      ensures c[i] in was && now[c[i]] == was[c[i]]
    {
      assert c[i] != c[k];
    }
  }

  lemma AnyLinks(links: nat, was: File, now: File)
    ensures links != 0 && Cleaned(1, was, now) ==> Cleaned(links, was, now)
  {
  }

  lemma NoneSettles(d: Disk, st: Store)
    ensures AllSettle(d, st, [])
  {
  }

  lemma OneSettled(start: Disk, d: Disk, e: Disk, c: seq<nat>, k: nat, pre: seq<nat>)
    requires Chain(start, start.head, c) && k < |c|
    requires Chain(d, d.head, c[k..]) && Settled(start, d, c[..k])
    requires Found(d, pre, c[k]) && e == Settle(d, pre, c[k])
    ensures Chain(e, e.head, c[k + 1..]) && Settled(start, e, c[..k + 1])
  {
    hide Links;
    hide Settled;
    hide Settle;
    hide Found;
    var rest := c[k..];
    assert rest[0] == c[k] && rest[1..] == c[k + 1..];
    SettleHead(d, rest, pre);
    ChainIsAcyclic(start, start.head, c);
    NewAt(c, k);
    SettledMore(start, d, e, c[..k], c[k]);
    assert c[..k + 1] == c[..k] + [c[k]];
  }

  lemma NewAt(c: seq<nat>, k: nat)
    requires NoDuplicates(c) && k < |c|
    ensures c[k] !in c[..k]
  {
  }

  lemma LinksEnd(d: Disk)
    requires Chain(d, d.head, [])
    ensures d.head == 0
  {
  }

  ghost predicate OnList(d: Disk, id: nat) {
    exists c :: Chain(d, d.head, c) && id in c
  }

  lemma ChecksThemselves(images: map<nat, Block>)
    ensures SameChecks(images, images)
  {
  }

  lemma NoAttrIsFine(st: Store, n: nat)
    ensures (n in st.files ==> st.files[n].attr == 0) ==> AttrFine(st, n)
  {
  }

  lemma SurplusReleased(lay: Layout, s: State, t: State)
    requires Fits(lay, s.space) && Fits(lay, t.space) && Released(lay, s, t)
    ensures t.Surplus() == s.Surplus()
  {
    hide InUse;
    hide State.Surplus;
  }

  lemma NotOnList(d: Disk, id: nat)
    ensures !d.Good(id) ==> !OnList(d, id)
  {
    forall c | Chain(d, d.head, c) && id in c
      ensures d.Good(id)
    {
    }
  }

  lemma NoList(d: Disk, id: nat)
    requires !exists c :: Chain(d, d.head, c)
    ensures !OnList(d, id)
  {
  }

  lemma OnListIff(d: Disk, c: seq<nat>, id: nat)
    requires Chain(d, d.head, c)
    ensures OnList(d, id) <==> id in c
    ensures id in c <==> exists pre :: Found(d, pre, id)
    ensures id in c ==> d.Good(id)
  {
    FoundIffMember(d, c, id);
    forall e | Chain(d, d.head, e) && id in e
      ensures id in c
    {
      OneChain(d, d.head, c, e);
    }
  }

  /** What has not been settled yet is as it was in the beginning. */
  lemma AsAtStart(start: Disk, was: Store, d: Disk, left: Store, c: seq<nat>, i: nat)
    requires Chain(start, start.head, c) && i < |c| && Chain(d, d.head, c[i..]) && Settled(start, d, c[..i])
    requires FilesCleaned(start, was.files, left.files, c[..i], c) && Waiting(was.files, left.files, c, i)
    requires SameChecks(was.images, left.images)
    ensures c[i] in start.inodes && c[i] in d.inodes && d.inodes[c[i]] == start.inodes[c[i]]
    ensures OnList(d, c[i])
    ensures c[i] in was.files <==> c[i] in left.files
    ensures c[i] in was.files ==> left.files[c[i]] == was.files[c[i]]
    ensures Settles(d, left, c[i]) <==> Settles(start, was, c[i])
    ensures AllSettle(start, was, c[..i]) && Settles(start, was, c[i]) ==> AllSettle(start, was, c[..i + 1])
  {
    hide AllSettle;
    hide Settles;
    hide NoDuplicates;
    hide SameChecks;
    hide Cleaned;
    hide Trimming;
    ChainIsAcyclic(start, start.head, c);
    NewAt(c, i);
    assert c[i..][0] == c[i];
    assert d.Good(c[i]) && start.Good(c[i]);
    assert c[i] in c[i..];
    SettlesAlike(start, was, d, left, c[i]);
    SettlesMore(start, was, c, i);
  }

  lemma SettlesMore(d: Disk, st: Store, c: seq<nat>, i: nat)
    requires i < |c|
    ensures AllSettle(d, st, c[..i]) && Settles(d, st, c[i]) ==> AllSettle(d, st, c[..i + 1])
  {
    hide Settles;
    assert c[..i + 1] == c[..i] + [c[i]];
  }

  lemma NextHead(d: Disk, c: seq<nat>, k: nat)
    requires k <= |c| && Chain(d, d.head, c[k..])
    ensures d.head == if k < |c| then c[k] else 0
  {
    if k < |c| {
      assert c[k..][0] == c[k];
    }
  }

  /** The checks against the snapshot hold as long as nobody else changes the
      list. */
  lemma RecheckPasses(d: Disk, c: seq<nat>, k: nat)
    requires k < |c| && Chain(d, d.head, c[k..])
    ensures d.head == c[k] && d.Good(c[k]) && d.inodes[c[k]].next == if k + 1 < |c| then c[k + 1] else 0
  {
    var rest := c[k..];
    assert rest[0] == c[k];
    if k + 1 < |c| {
      assert rest[1] == c[k + 1];
    }
  }

  lemma LinksNothing(d: Disk, from: nat)
    ensures Links(d, from, [], from)
  {
  }

  lemma UnlinkedIs(d: Disk, pre: seq<nat>, next: nat)
    requires pre != [] ==> pre[|pre| - 1] in d.inodes
    ensures Unlinked(d, pre, next) ==
            if pre == [] then d.(head := next)
            else d.(inodes := d.inodes[pre[|pre| - 1] := d.inodes[pre[|pre| - 1]].(next := next, checksumOk := true)])
  {
  }

  /** A walk that stopped here cannot find the target, which may be where it
      stopped. */
  lemma Lost(d: Disk, nodes: seq<nat>, n: nat, id: nat)
    requires Links(d, d.head, nodes, n) && id !in nodes
    requires n == 0 || !d.Good(n) || n in nodes || |nodes| >= d.inodeCount
    ensures !exists pre :: Found(d, pre, id)
  {
    if n == id {
      forall pre | Found(d, pre, id)
        ensures false
      {
        FoundBounds(d, pre, id);
        if |pre| <= |nodes| {
          SamePath(d, d.head, pre, id, nodes, n);
        } else {
          SamePath(d, d.head, nodes, n, pre, id);
        }
        assert false;
      }
    } else {
      NotFound(d, nodes, n, id);
    }
  }
}
