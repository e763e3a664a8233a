/** The operations on names.  Those that are journalled happen as a whole; the
    others write one thing after the other.  The entries of a directory stand
    for what lookups find: of two entries with one name, the first. */
module Namespace {
  import opened Bytes
  import opened DirTree
  import opened DirWalk
  import opened NameWrites
  import opened TornCommit

  /** Why a name cannot be removed. */
  function RemovalRefused(fs: Fs, p: nat, n: string, dir: bool): Option<ErrCode>
    requires p in fs
  {
    if !fs[p].isDir then Some(ENOTDIR)
    else if !HasName(fs, p, n) then Some(ENOENT)
    else
      var c := fs[p].entries[n];
      if IsDir(fs, c) != dir then Some(if dir then ENOTDIR else EISDIR)
      else if dir && c in fs && fs[c].entries != map[] then Some(ENOTEMPTY)
      else None
  }

  /** Why a name cannot be moved.  A rename is `blind` if a ".." on the way up
      could not be read, and has `missed` if the lookup of the new name failed;
      both go unnoticed. */
  ghost function RenameRefused(fs: Fs, p: nat, n: string, q: nat, m: string, blind: bool, missed: bool): Option<ErrCode>
    requires p in fs && q in fs
  {
    if !fs[p].isDir || !fs[q].isDir then Some(ENOTDIR)
    else if !HasName(fs, p, n) then Some(ENOENT)
    else
      var c := fs[p].entries[n];
      if IsDir(fs, c) && p != q && !blind && Meets(fs, q, c) then Some(EINVAL)
      else if missed || !HasName(fs, q, m) || fs[q].entries[m] == c then None
      else
        var e := fs[q].entries[m];
        if IsDir(fs, c) != IsDir(fs, e) then Some(if IsDir(fs, c) then ENOTDIR else EISDIR)
        else if IsDir(fs, e) && fs[e].entries != map[] then Some(ENOTEMPTY)
        else None
  }

  /** Why two names cannot be exchanged, with a check for each of the two. */
  ghost function ExchangeRefused(fs: Fs, p: nat, n: string, q: nat, m: string, blindOld: bool,
                                 blindNew: bool): Option<ErrCode>
    requires p in fs && q in fs
  {
    if !fs[p].isDir || !fs[q].isDir then Some(ENOTDIR)
    else if !HasName(fs, p, n) || !HasName(fs, q, m) then Some(ENOENT)
    else
      var c, e := fs[p].entries[n], fs[q].entries[m];
      if && c != e && p != q
         && ((IsDir(fs, c) && !blindOld && Meets(fs, q, c)) || (IsDir(fs, e) && !blindNew && Meets(fs, p, e)))
      then Some(EINVAL)
      else None
  }

  // ---- When an operation succeeds, and what its errors tell -------------------------

  /** A file loses a name, or an empty directory its only one. */
  ghost predicate MayRemove(fs: Fs, p: nat, n: string, dir: bool) {
    && IsDir(fs, p) && HasName(fs, p, n)
    && var c := fs[p].entries[n];
       if dir then IsDir(fs, c) && fs[c].entries == map[] else !IsDir(fs, c)
  }

  /** What each error of a removal tells about the tree. */
  ghost predicate RemoveFails(fs: Fs, p: nat, n: string, dir: bool, code: ErrCode) {
    match code
    case ENOTDIR => !IsDir(fs, p) || (dir && HasName(fs, p, n) && !IsDir(fs, fs[p].entries[n]))
    case ENOENT => !HasName(fs, p, n)
    case EISDIR => !dir && HasName(fs, p, n) && IsDir(fs, fs[p].entries[n])
    case ENOTEMPTY =>
      dir && HasName(fs, p, n) && IsDir(fs, fs[p].entries[n]) && fs[fs[p].entries[n]].entries != map[]
    case _ => false
  }

  /** `c` may take a name away from `e`: file from file, directory from empty
      directory, and each inode from itself. */
  ghost predicate Supersedes(fs: Fs, c: nat, e: nat) {
    || c == e
    || (!IsDir(fs, c) && !IsDir(fs, e))
    || (IsDir(fs, c) && IsDir(fs, e) && fs[e].entries == map[])
  }

  /** A name moves to a free name, or to one of an inode that it supersedes,
      unless a directory is seen to come below itself. */
  ghost predicate MayRename(fs: Fs, p: nat, n: string, q: nat, m: string, blind: bool, missed: bool) {
    && IsDir(fs, p) && IsDir(fs, q) && HasName(fs, p, n)
    && var c := fs[p].entries[n];
       && (IsDir(fs, c) && p != q && Meets(fs, q, c) ==> blind)
       && (missed || !HasName(fs, q, m) || Supersedes(fs, c, fs[q].entries[m]))
  }

  ghost predicate RenameFails(fs: Fs, p: nat, n: string, q: nat, m: string, code: ErrCode) {
    var c := if HasName(fs, p, n) then fs[p].entries[n] else 0;
    var e := if HasName(fs, q, m) then fs[q].entries[m] else 0;
    match code
    case ENOTDIR =>
      || !IsDir(fs, p) || !IsDir(fs, q)
      || (HasName(fs, p, n) && HasName(fs, q, m) && IsDir(fs, c) && !IsDir(fs, e))
    case ENOENT => !HasName(fs, p, n)
    case EINVAL => HasName(fs, p, n) && IsDir(fs, c) && p != q && Meets(fs, q, c)
    case EISDIR => HasName(fs, p, n) && HasName(fs, q, m) && !IsDir(fs, c) && IsDir(fs, e)
    case ENOTEMPTY =>
      HasName(fs, p, n) && HasName(fs, q, m) && c != e && IsDir(fs, c) && IsDir(fs, e) && fs[e].entries != map[]
    case _ => false
  }

  /** Any two names exchange what they mean, unless a directory is seen to come
      below itself. */
  ghost predicate MayExchange(fs: Fs, p: nat, n: string, q: nat, m: string, blindOld: bool, blindNew: bool) {
    && IsDir(fs, p) && IsDir(fs, q) && HasName(fs, p, n) && HasName(fs, q, m)
    && var c, e := fs[p].entries[n], fs[q].entries[m];
       || p == q || c == e
       || ((IsDir(fs, c) && Meets(fs, q, c) ==> blindOld) && (IsDir(fs, e) && Meets(fs, p, e) ==> blindNew))
  }

  ghost predicate ExchangeFails(fs: Fs, p: nat, n: string, q: nat, m: string, code: ErrCode) {
    match code
    case ENOTDIR => !IsDir(fs, p) || !IsDir(fs, q)
    case ENOENT => !HasName(fs, p, n) || !HasName(fs, q, m)
    case EINVAL =>
      && p != q && HasName(fs, p, n) && HasName(fs, q, m)
      && var c, e := fs[p].entries[n], fs[q].entries[m];
         c != e && ((IsDir(fs, c) && Meets(fs, q, c)) || (IsDir(fs, e) && Meets(fs, p, e)))
    case _ => false
  }

  /** What is handed out for reclaiming is the inode that lost its last link, if
      one did. */
  ghost predicate GivesLast(was: Fs, gs: Fs, r: Option<nat>) {
    forall x: nat :: r == Some(x) <==> x in was && x in gs && was[x].links > 0 && gs[x].links == 0
  }

  lemma UnlinkGivesLast(fs: Fs, q: nat, m: string)
    requires Tree(fs) && HasName(fs, q, m)
    ensures var e := fs[q].entries[m];
            && e in fs
            && GivesLast(fs, Unlinked(fs, q, m), if RemovalIsFinal(fs[e].isDir, fs[e].links) then Some(e) else None)
  {
    hide Unlinked;
    hide Tree;
    hide Names;
    hide Subs;
    NameFacts(fs, q, m);
    UnlinkedInodes(fs, q, m);
  }

  lemma MoveGivesNone(fs: Fs, p: nat, n: string, q: nat, m: string)
    requires Tree(fs) && HasName(fs, p, n) && q in fs && (p, n) != (q, m) && fs[p].entries[n] != q
    ensures GivesLast(fs, Renamed(fs, p, n, q, m), None)
  {
    hide Renamed;
    hide Tree;
    hide Names;
    hide Subs;
    NameFacts(fs, p, n);
    RenamedInodes(fs, p, n, q, m);
  }

  lemma ReplaceGivesLast(fs: Fs, p: nat, n: string, q: nat, m: string)
    requires Tree(fs) && HasName(fs, p, n) && HasName(fs, q, m) && fs[p].entries[n] != q
    requires var c, e := fs[p].entries[n], fs[q].entries[m];
             c != e && (IsDir(fs, e) ==> fs[e].entries == map[])
    ensures var e := fs[q].entries[m];
            && e in fs
            && GivesLast(fs, Replaced(fs, p, n, q, m),
                         if RemovalIsFinal(fs[e].isDir, fs[e].links) then Some(e) else None)
  {
    hide Replaced;
    hide Tree;
    hide Names;
    hide Subs;
    NameFacts(fs, p, n);
    NameFacts(fs, q, m);
    ReplacedInodes(fs, p, n, q, m);
  }

  /** So for a rename that succeeds and has found its target. */
  lemma RenameGivesLast(fs: Fs, p: nat, n: string, q: nat, m: string)
    requires Tree(fs) && p in fs && q in fs
    ensures HasName(fs, p, n) && fs[p].entries[n] != q
            && (HasName(fs, q, m) ==> Supersedes(fs, fs[p].entries[n], fs[q].entries[m])) ==>
              forall shown :: HasName(fs, q, m) || shown ==>
                GivesLast(fs, RenameResult(fs, p, n, q, m, false, shown), ReplacedTarget(fs, p, n, q, m, false))
  {
    hide Renamed;
    hide Replaced;
    hide GivesLast;
    hide Tree;
    if HasName(fs, p, n) && fs[p].entries[n] != q
       && (HasName(fs, q, m) ==> Supersedes(fs, fs[p].entries[n], fs[q].entries[m])) {
      NoneGiven(fs);
      NameFacts(fs, p, n);
      if !HasName(fs, q, m) {
        MoveGivesNone(fs, p, n, q, m);
      } else if fs[q].entries[m] != fs[p].entries[n] {
        NameFacts(fs, q, m);
        ReplaceGivesLast(fs, p, n, q, m);
      }
    }
  }

  lemma NoneGiven(fs: Fs)
    ensures GivesLast(fs, fs, None)
  {
  }

  /** The order in which the reasons are looked at does not decide whether there
      is one, and each is reported by its own code. */
  lemma RemovalRules(fs: Fs, p: nat, n: string, dir: bool)
    requires p in fs
    ensures var refused := RemovalRefused(fs, p, n, dir);
            && (refused.None? <==> MayRemove(fs, p, n, dir))
            && (refused.Some? ==> RemoveFails(fs, p, n, dir, refused.value))
  {
  }

  lemma RenameRules(fs: Fs, p: nat, n: string, q: nat, m: string)
    requires p in fs && q in fs
    ensures forall blind, missed ::
              var refused := RenameRefused(fs, p, n, q, m, blind, missed);
              && (refused.None? <==> MayRename(fs, p, n, q, m, blind, missed))
              && (refused.Some? ==> RenameFails(fs, p, n, q, m, refused.value))
  {
    hide Meets;
  }

  lemma ExchangeRules(fs: Fs, p: nat, n: string, q: nat, m: string)
    requires p in fs && q in fs
    ensures forall blindOld, blindNew ::
              var refused := ExchangeRefused(fs, p, n, q, m, blindOld, blindNew);
              && (refused.None? <==> MayExchange(fs, p, n, q, m, blindOld, blindNew))
              && (refused.Some? ==> ExchangeFails(fs, p, n, q, m, refused.value))
  {
    hide Meets;
  }

  /** What the orphan list gains when the name goes. */
  function Orphaned(fs: Fs, q: nat, m: string): set<nat>
    requires HasName(fs, q, m)
  {
    var e := fs[q].entries[m];
    if RemovalIsFinal(IsDir(fs, e), LinksOf(fs, e)) then {e} else {}
  }

  /** What a removal that failed leaves.  If the mount goes on, the entry is
      still there, or, when it was one of several, gone with the link count
      unchanged.  Without a journal the removal of the last name can be there in
      part. */
  ghost predicate RemovalLeft(fs: Fs, gs: Fs, q: nat, m: string, torn: bool, poisoned: bool, journal: bool)
    requires HasName(fs, q, m)
  {
    var e := fs[q].entries[m];
    var final := RemovalIsFinal(IsDir(fs, e), LinksOf(fs, e));
    && (torn ==> !final)
    && (!poisoned ==> gs == if torn then DropEntry(fs, q, m) else fs)
    && (poisoned ==>
          || gs == fs || gs == Unlinked(fs, q, m) || (!final && gs == DropEntry(fs, q, m))
          || (final && !journal && Torn(fs, Unlinked(fs, q, m), gs)))
  }

  /** What a replacement that failed leaves, and when that is a tree. */
  ghost predicate ReplacingLeft(fs: Fs, p: nat, n: string, q: nat, m: string, gs: Fs, journal: bool)
    requires HasName(fs, p, n) && HasName(fs, q, m)
  {
    var next := Replaced(fs, p, n, q, m);
    && (gs == fs || gs == next || (!journal && Torn(fs, next, gs)))
    && (Tree(gs) <==> gs == fs || (gs == next && RenameSound(fs, p, n, q, m, false)))
  }

  /** What a creation that failed leaves.  Before anything was published there
      is at most the inode; if the mount goes on and the inode was released, the
      tree is as before exactly if no trace is left of the attempt. */
  ghost predicate MakingLeft(fs: Fs, gs: Fs, p: nat, n: string, c: nat, dir: bool, halt: Option<Halt>, poisoned: bool) {
    match halt
    case None =>
      gs - {c} == fs && (!poisoned ==> gs == fs)
    case Some(stop) =>
      && IsDir(fs, p) && HaltsIn(Fresh(fs, c, dir), c, stop)
      && var left := LinkLeft(Fresh(fs, c, dir), p, n, c, if dir then 1 else 0, stop);
         && (gs == left || gs == left - {c})
         && (!poisoned && gs == left - {c} ==>
             (gs == fs <==> Traceless(dir, stop)) && (Tree(gs) <==> Traceless(dir, stop)))
  }

  /** What the rename gives to the caller to reclaim. */
  function ReplacedTarget(fs: Fs, p: nat, n: string, q: nat, m: string, missed: bool): Option<nat>
    requires HasName(fs, p, n)
  {
    if missed || !HasName(fs, q, m) || fs[q].entries[m] == fs[p].entries[n] then None
    else
      var e := fs[q].entries[m];
      if RemovalIsFinal(IsDir(fs, e), LinksOf(fs, e)) then Some(e) else None
  }

  /** What the orphan list gains in a rename. */
  function RenameOrphans(fs: Fs, p: nat, n: string, q: nat, m: string, missed: bool): set<nat>
    requires HasName(fs, p, n)
  {
    if missed || !HasName(fs, q, m) || fs[q].entries[m] == fs[p].entries[n] then {} else Orphaned(fs, q, m)
  }

  /** The orphan list holds exactly the inodes without names. */
  ghost predicate Listed(fs: Fs, orphans: set<nat>) {
    forall c :: c in orphans <==> c in fs && fs[c].links == 0
  }

  // ---- Links to the orphan list ----------------------------------------------------

  lemma UnlinkListed(fs: Fs, q: nat, m: string, orphans: set<nat>)
    requires Tree(fs) && HasName(fs, q, m) && Listed(fs, orphans)
    ensures Listed(Unlinked(fs, q, m), orphans + Orphaned(fs, q, m))
  {
    hide Unlinked;
    hide Names;
    hide Subs;
    hide Acyclic;
    hide Counted;
    hide Named;
    UnlinkedInodes(fs, q, m);
    NameFacts(fs, q, m);
  }

  lemma RenameListed(fs: Fs, p: nat, n: string, q: nat, m: string, orphans: set<nat>)
    requires CanMove(fs, p, n, q, m) && Listed(fs, orphans)
    ensures Listed(Renamed(fs, p, n, q, m), orphans)
  {
    hide Renamed;
    hide Names;
    hide Subs;
    hide Acyclic;
    hide Counted;
    hide Named;
    MovedApart(fs, p, n, q, m);
    NameFacts(fs, p, n);
    RenamedInodes(fs, p, n, q, m);
  }

  lemma ReplaceListed(fs: Fs, p: nat, n: string, q: nat, m: string, orphans: set<nat>)
    requires CanReplace(fs, p, n, q, m) && Listed(fs, orphans)
    ensures Listed(Replaced(fs, p, n, q, m), orphans + Orphaned(fs, q, m))
  {
    hide Unlinked;
    hide Renamed;
    hide Replaced;
    hide Orphaned;
    hide Listed;
    hide CanReplace;
    hide CanMove;
    ReplaceIsRemoveThenMove(fs, p, n, q, m);
    ReplaceCanMove(fs, p, n, q, m);
    ReplaceFacts(fs, p, n, q, m);
    UnlinkListed(fs, q, m, orphans);
    RenameListed(Unlinked(fs, q, m), p, n, q, m, orphans + Orphaned(fs, q, m));
  }

  lemma ReplaceFacts(fs: Fs, p: nat, n: string, q: nat, m: string)
    requires CanReplace(fs, p, n, q, m)
    ensures Tree(fs) && HasName(fs, p, n) && HasName(fs, q, m)
  {
  }

  lemma ExchangeListed(fs: Fs, p: nat, n: string, q: nat, m: string, orphans: set<nat>)
    requires CanExchange(fs, p, n, q, m) && Listed(fs, orphans)
    ensures Listed(Exchanged(fs, p, n, q, m), orphans)
  {
    hide Exchanged;
    hide Names;
    hide Subs;
    hide Acyclic;
    hide Counted;
    hide Named;
    hide Avoids;
    ExchangeApart(fs, p, n, q, m);
    ExchangedInodes(fs, p, n, q, m);
  }

  lemma AttachListed(fs: Fs, p: nat, n: string, c: nat, orphans: set<nat>)
    requires CanAttach(fs, p, n, c) && Live(fs, p) && Listed(fs, orphans)
    ensures Listed(Attached(fs, p, n, c), orphans - {c})
  {
    hide Attached;
    hide Tree;
    AttachedInodes(fs, p, n, c);
  }

  class Namespace {
    var fs: Fs
    var orphans: set<nat>     // on the orphan list; unused without a journal
    const journal: bool
    var poisoned: bool        // no further changes
    var faults: nat           // I/O operations that have failed, or found no space

    ghost predicate Valid()
      reads this
    {
      Tree(fs) && Settled(fs) && (journal ==> Listed(fs, orphans))
    }

    constructor (fs: Fs, orphans: set<nat>, journal: bool)
      requires Tree(fs) && Settled(fs) && (journal ==> Listed(fs, orphans))
      ensures Valid() && !poisoned && this.fs == fs && this.orphans == orphans && this.journal == journal
    {
      this.fs := fs;
      this.orphans := orphans;
      this.journal := journal;
      poisoned := false;
      faults := 0;
    }

    method Io() returns (ok: bool)
      modifies this`faults
      ensures if ok then faults == old(faults) else faults > old(faults)
    {
      ok := *;
      if !ok {
        faults := faults + 1;
      }
    }

    method Poison()
      modifies this`poisoned
      ensures poisoned
    {
      poisoned := true;
    }

    /** One direct write.  After an error it may be there all the same. */
    method Write(next: Fs) returns (ok: bool, ghost landed: bool)
      modifies this`fs, this`faults
      ensures if ok then faults == old(faults) else faults > old(faults)
      ensures ok ==> landed
      ensures fs == if landed then next else old(fs)
    {
      ok := Io();
      var there := *;
      landed := ok || there;
      if ok || there {
        fs := next;
      }
    }

    /** Commit everything that was staged.  With a journal, after an error either
        all of it or nothing will be there.  Without one, block after block is
        written, and nothing is undone.  Either way an error stops all changes
        on this mount. */
    method Commit(next: Fs, nextOrphans: set<nat>) returns (ok: bool)
      requires SameInodes(fs, next)
      modifies this
      ensures ok ==> fs == next && orphans == nextOrphans && poisoned == old(poisoned)
      ensures if ok then faults == old(faults) else faults > old(faults)
      ensures !ok ==> poisoned && (orphans == old(orphans) || orphans == nextOrphans)
      ensures !ok && journal ==>
                (fs == next && orphans == nextOrphans) || (fs == old(fs) && orphans == old(orphans))
      ensures !ok && !journal ==> Torn(old(fs), next, fs)
    {
      if !journal {
        ok := WriteBlocks(next);
        var listed := *;
        if ok || listed {
          orphans := nextOrphans;
        }
        return;
      }
      ok := Io();
      var lasting := *;
      if ok || lasting {
        fs, orphans := next, nextOrphans;
      }
      if !ok {
        Poison();
      }
    }

    /** Write the staged blocks in their order, which says nothing about what
        lies in them. */
    method WriteBlocks(next: Fs) returns (ok: bool)
      requires SameInodes(fs, next)
      modifies this`fs, this`faults, this`poisoned
      ensures if ok then faults == old(faults) else faults > old(faults)
      ensures if ok then fs == next && poisoned == old(poisoned) else poisoned && Torn(old(fs), next, fs)
    {
      hide Merge;
      hide Changed;
      hide SameInodes;
      var was := fs;
      SameKeys(was, next);
      var todo, done := Changed(was, next), {};
      MergeUniform(was, next, done, false);
      while todo != {}
        invariant SameInodes(was, next) && next.Keys == was.Keys
        invariant fs == Merge(was, next, done) && Changed(was, next) <= todo + done
        invariant faults == old(faults) && poisoned == old(poisoned)
        decreases todo
      {
        var block: set<Item> := *;
        block := block * todo;
        if block == {} {
          block := todo;
        }
        ghost var landed;
        ok, landed := Write(Merge(was, next, done + block));
        if !ok {
          Poison();
          assert Torn(was, next, fs);
          return false;
        }
        todo, done := todo - block, done + block;
      }
      MergeUniform(was, next, done, true);
      return true;
    }

    /** Refuse to move a directory below itself.  The walk ends; but where a
        ".." cannot be read it ends early, and nothing is refused. */
    method CheckAncestorCycle(dir: nat, target: nat) returns (r: Result<()>, ghost blind: bool)
      requires Acyclic(fs) && Settled(fs)
      modifies this`faults
      ensures r.Ok? ==> faults == old(faults) && dir != target && (!blind ==> !Meets(fs, target, dir))
      ensures r.Err? && faults == old(faults) ==> r.code == EINVAL && Meets(fs, target, dir) && !blind
      ensures r.Err? && faults != old(faults) ==> r.code == EIO && faults > old(faults)
    {
      hide Settled;
      hide Acyclic;
      hide Meets;
      hide Climbs;
      ghost var rank := RanksOf(fs);
      ghost var path := [target];
      ghost var up := WayUp(fs, target);
      var cur := target;
      blind := false;
      while true
        invariant Walks(fs, target, path) && path[|path| - 1] == cur && dir !in path[..|path| - 1]
        invariant Live(fs, cur) ==> Climbs(fs, cur, up)
        invariant faults == old(faults) && !blind
        decreases if Removed(fs, cur) then Rank(rank, cur) + 1 else 0, if Live(fs, cur) then |up| else 0
      {
        assert path == path[..|path| - 1] + [cur];
        if cur == dir {
          assert Meets(fs, target, dir) by { MeetsHere(fs, target, path); }
          return Err(EINVAL), blind;
        }
        FirstNotMet(path, dir);
        if cur == ROOT {
          WalkedAll(fs, target, path, dir);
          return Ok(()), blind;
        }
        var readable := Io();
        if !readable {
          return Err(EIO), blind;
        }
        var found := *;
        if !found {
          blind := true;
          return Ok(()), blind;
        }
        if !IsDir(fs, cur) || fs[cur].dotdot == cur {
          WalkedAll(fs, target, path, dir);
          return Ok(()), blind;
        }
        NextUp(fs, cur, rank, up);
        up := if Live(fs, cur) then up[1..] else WayUp(fs, fs[cur].dotdot);
        cur := fs[cur].dotdot;
        path := path + [cur];
      }
    }

    /** Remove the name of a file, or of an empty directory.  Where other names
        remain, `torn` tells that the entry is gone although its removal, the
        first of two writes, failed. */
    method UnlinkInode(parent: nat, child: nat, name: string) returns (r: Result<Option<nat>>, ghost torn: bool)
      requires Valid() && HasName(fs, parent, name) && fs[parent].entries[name] == child
      requires IsDir(fs, child) ==> fs[child].entries == map[]
      modifies this
      ensures r.Ok? ==> fs == Unlinked(old(fs), parent, name) && Valid() && poisoned == old(poisoned)
      ensures r.Ok? ==>
                (r.value.Some? <==> old(RemovalIsFinal(IsDir(fs, child), fs[child].links)))
                && (r.value.Some? ==> r.value.value == child)
      ensures r.Err? ==> RemovalLeft(old(fs), fs, parent, name, torn, poisoned, journal)
      ensures r.Err? ==> (Tree(fs) <==> fs == old(fs) || fs == Unlinked(old(fs), parent, name))
      ensures r.Err? && !poisoned ==> orphans == old(orphans)
      ensures r.Err? ==> r.code == EIO
      ensures faults >= old(faults) && (r.Ok? <==> faults == old(faults))
    {
      hide Unlinked;
      hide Tree;
      hide DropEntry;
      hide SetLinks;
      hide Lower;
      hide Listed;
      hide Settled;
      hide Torn;
      hide SameInodes;
      ghost var was := fs;
      NameFacts(fs, parent, name);
      UnlinkKeepsTree(fs, parent, name);
      DropLeavesNoTree(fs, parent, name);
      DropIsNew(fs, parent, name);
      UnlinkSettles(fs, parent, name);
      if journal {
        UnlinkListed(fs, parent, name, orphans);
      }
      UnlinkedIs(fs, parent, name);
      torn := false;
      var isDir, links := fs[child].isDir, fs[child].links;
      if RemovalIsFinal(isDir, links) {
        var ok := Io();
        if !ok {
          return Err(EIO), torn;
        }
        var next := DropEntry(fs, parent, name);
        if isDir {
          next := Lower(next, parent);
        }
        next := SetLinks(next, child, 0);
        var nextOrphans := if journal then orphans + {child} else orphans;
        TornRemoval(fs, parent, name, {});
        ok := Commit(next, nextOrphans);
        if !ok {
          if !journal {
            TornRemovalEnds(was, fs, parent, name);
          }
          return Err(EIO), torn;
        }
        return Ok(Some(child)), torn;
      }
      var ok;
      ok, torn := Write(DropEntry(fs, parent, name));
      if !ok {
        return Err(EIO), torn;
      }
      ghost var counted;
      ok, counted := Write(SetLinks(fs, child, links - 1));
      if !ok {
        Poison();
        return Err(EIO), torn;
      }
      KeptOrphans(was, parent, name, orphans);
      return Ok(None), torn;
    }

    /** Remove a name of a file. */
    method Unlink(parent: nat, name: string) returns (r: Result<Option<nat>>, ghost torn: bool)
      requires !poisoned ==> Valid()
      requires parent in fs && PlainName(name)
      modifies this
      ensures old(poisoned) ==> r == Err(EIO) && fs == old(fs) && orphans == old(orphans) && poisoned
      ensures r.Ok? <==> !old(poisoned) && faults == old(faults) && MayRemove(old(fs), parent, name, false)
      ensures !old(poisoned) && RemovalRefused(old(fs), parent, name, false).Some? ==>
                r == Err(RemovalRefused(old(fs), parent, name, false).value) && fs == old(fs) && !poisoned
      ensures !old(poisoned) && r.Err? && faults == old(faults) ==>
                && RemoveFails(old(fs), parent, name, false, r.code)
                && fs == old(fs) && orphans == old(orphans) && !poisoned
      ensures r.Ok? ==> GivesLast(old(fs), fs, r.value)
      ensures r.Ok? ==> Rebinds(old(fs), fs, map[(parent, name) := None])
      ensures r.Ok? ==> HasName(old(fs), parent, name) && fs == Unlinked(old(fs), parent, name) && Valid() && !poisoned
      ensures r.Ok? && r.value.Some? && journal ==> r.value.value in orphans
      ensures r.Err? && !poisoned ==> orphans == old(orphans) && (Tree(fs) <==> !torn) && (fs == old(fs) <==> !torn)
      ensures !old(poisoned) && r.Err? && HasName(old(fs), parent, name) ==>
                && RemovalLeft(old(fs), fs, parent, name, torn, poisoned, journal)
                && (Tree(fs) <==> fs == old(fs) || fs == Unlinked(old(fs), parent, name))
    {
      hide RemoveFails;
      hide MayRemove;
      hide GivesLast;
      hide Rebinds;
      hide Unlinked;
      hide DropEntry;
      hide Tree;
      hide Listed;
      hide Torn;
      torn := false;
      RemovalRules(fs, parent, name, false);
      if HasName(fs, parent, name) {
        UnlinkedRebinds(fs, parent, name);
      }
      if poisoned {
        return Err(EIO), torn;
      }
      var p := fs[parent];
      if !p.isDir {
        return Err(ENOTDIR), torn;
      }
      if name !in p.entries {
        return Err(ENOENT), torn;
      }
      var child := p.entries[name];
      UnlinkGivesLast(fs, parent, name);
      NameFacts(fs, parent, name);
      if fs[child].isDir {
        return Err(EISDIR), torn;
      }
      ghost var was := fs;
      r, torn := UnlinkInode(parent, child, name);
      DropLeavesNoTree(was, parent, name);
      if r.Ok? && r.value.Some? && journal {
        GoneIsListed(was, parent, name, orphans);
      }
    }

    /** Remove an empty directory. */
    method Rmdir(parent: nat, name: string) returns (r: Result<Option<nat>>)
      requires !poisoned ==> Valid()
      requires parent in fs && PlainName(name)
      modifies this
      ensures old(poisoned) ==> r == Err(EIO) && fs == old(fs) && orphans == old(orphans) && poisoned
      ensures r.Ok? <==> !old(poisoned) && faults == old(faults) && MayRemove(old(fs), parent, name, true)
      ensures !old(poisoned) && RemovalRefused(old(fs), parent, name, true).Some? ==>
                r == Err(RemovalRefused(old(fs), parent, name, true).value) && fs == old(fs) && !poisoned
      ensures !old(poisoned) && r.Err? && faults == old(faults) ==>
                && RemoveFails(old(fs), parent, name, true, r.code)
                && fs == old(fs) && orphans == old(orphans) && !poisoned
      ensures r.Ok? ==> GivesLast(old(fs), fs, r.value)
      ensures r.Ok? ==> Rebinds(old(fs), fs, map[(parent, name) := None])
      ensures r.Ok? ==> HasName(old(fs), parent, name) && fs == Unlinked(old(fs), parent, name) && Valid() && !poisoned
      ensures r.Ok? && journal ==> r.value.Some? && r.value.value in orphans
      ensures r.Err? && !poisoned ==> fs == old(fs) && orphans == old(orphans)
      ensures !old(poisoned) && r.Err? && HasName(old(fs), parent, name) ==>
                && RemovalLeft(old(fs), fs, parent, name, false, poisoned, journal)
                && (Tree(fs) <==> fs == old(fs) || fs == Unlinked(old(fs), parent, name))
    {
      hide RemoveFails;
      hide MayRemove;
      hide GivesLast;
      hide Rebinds;
      hide Unlinked;
      hide DropEntry;
      hide Tree;
      hide Listed;
      hide Torn;
      RemovalRules(fs, parent, name, true);
      if HasName(fs, parent, name) {
        UnlinkedRebinds(fs, parent, name);
      }
      if poisoned {
        return Err(EIO);
      }
      var p := fs[parent];
      if !p.isDir {
        return Err(ENOTDIR);
      }
      if name !in p.entries {
        return Err(ENOENT);
      }
      var child := p.entries[name];
      UnlinkGivesLast(fs, parent, name);
      NameFacts(fs, parent, name);
      if !fs[child].isDir {
        return Err(ENOTDIR);
      }
      if |fs[child].entries| + 2 > 2 {
        return Err(ENOTEMPTY);
      }
      ghost var was := fs;
      ghost var torn;
      r, torn := UnlinkInode(parent, child, name);
      if r.Ok? && journal {
        GoneIsListed(was, parent, name, orphans);
      }
    }

    /** Move a name, or replace another by it.  Two failures to read go
        unnoticed: of a ".." on the way up (`blind`), and of the new name
        (`missed`), which then counts as free even if it is taken; `shown` tells
        whether lookups then find the new entry or the old one. */
    method Rename(parent: nat, name: string, newParent: nat, newName: string)
      returns (r: Result<Option<nat>>, ghost blind: bool, ghost missed: bool, ghost shown: bool)
      requires !poisoned ==> Valid()
      requires parent in fs && newParent in fs && PlainName(name) && PlainName(newName)
      modifies this
      ensures old(poisoned) ==> r == Err(EIO) && fs == old(fs) && orphans == old(orphans) && poisoned
      ensures r.Ok? <==>
                && !old(poisoned) && faults == old(faults)
                && MayRename(old(fs), parent, name, newParent, newName, blind, missed)
      ensures !old(poisoned) && faults == old(faults)
              && RenameRefused(old(fs), parent, name, newParent, newName, blind, missed).Some? ==>
                && r == Err(RenameRefused(old(fs), parent, name, newParent, newName, blind, missed).value)
                && fs == old(fs) && orphans == old(orphans) && !poisoned
      ensures !old(poisoned) && r.Err? && faults == old(faults) ==>
                RenameFails(old(fs), parent, name, newParent, newName, r.code)
      ensures r.Ok? && !missed ==>
                var c := old(fs)[parent].entries[name];
                if Lookup(old(fs), newParent, newName) == Some(c) then fs == old(fs)
                else Rebinds(old(fs), fs, map[(parent, name) := None, (newParent, newName) := Some(c)])
      ensures r.Ok? && !missed ==> GivesLast(old(fs), fs, r.value)
      ensures r.Ok? ==>
                var was := old(fs);
                && HasName(was, parent, name) && !poisoned
                && fs == RenameResult(was, parent, name, newParent, newName, missed, shown)
                && r.value == ReplacedTarget(was, parent, name, newParent, newName, missed)
                && (Tree(fs) <==> RenameSound(was, parent, name, newParent, newName, missed))
                && (RenameSound(was, parent, name, newParent, newName, missed) ==> Valid())
                && (Live(was, newParent) && !blind && !missed ==> Valid())
      ensures r.Err? && !poisoned ==> fs == old(fs) && orphans == old(orphans)
      ensures !old(poisoned) && r.Err? && HasName(old(fs), parent, name) ==>
                if missed || !HasName(old(fs), newParent, newName) then
                  Partway(old(fs), MoveWrites(old(fs), parent, name, newParent, newName, shown), fs)
                else ReplacingLeft(old(fs), parent, name, newParent, newName, fs, journal)
    {
      hide Tree;
      hide Listed;
      hide Avoids;
      hide Renamed;
      hide Replaced;
      hide Climbs;
      hide Settled;
      hide Meets;
      hide Partway;
      hide Moved;
      hide RenameSound;
      hide CanReplace;
      hide MayReplace;
      hide ReplacingLeft;
      hide Torn;
      hide Lookup;
      hide Live;
      hide PlainName;
      hide SameInodes;
      hide RenameFails;
      hide MayRename;
      hide GivesLast;
      hide Rebinds;
      blind, missed, shown := false, false, true;
      ghost var was := fs;
      if HasName(was, parent, name) {
        MoveSteps(was, parent, name, newParent, newName, true);
      }
      RenameRules(was, parent, name, newParent, newName);
      RenameRebinds(was, parent, name, newParent, newName);
      if poisoned {
        return Err(EIO), blind, missed, shown;
      }
      if HasName(was, parent, name) && HasName(was, newParent, newName) {
        NothingReplaced(was, parent, name, newParent, newName, journal);
      }
      if !fs[parent].isDir || !fs[newParent].isDir {
        return Err(ENOTDIR), blind, missed, shown;
      }
      if name !in fs[parent].entries {
        return Err(ENOENT), blind, missed, shown;
      }
      var child := fs[parent].entries[name];
      NameFacts(fs, parent, name);
      TreeIsAcyclic(fs);
      var childIsDir := fs[child].isDir;
      if childIsDir && parent != newParent {
        var checked;
        checked, blind := CheckAncestorCycle(child, newParent);
        if checked.Err? {
          return Err(checked.code), blind, missed, shown;
        }
      }
      RenameGivesLast(was, parent, name, newParent, newName);
      NotInItself(was, parent, name, newParent);
      var found := *;
      missed := !found;
      if found && newName in fs[newParent].entries {
        var existing := fs[newParent].entries[newName];
        NameFacts(fs, newParent, newName);
        if existing == child {
          RenameEnds(was, parent, name, newParent, newName, blind, missed, shown, orphans, journal);
          return Ok(None), blind, missed, shown;
        }
        var existingIsDir := fs[existing].isDir;
        if childIsDir && !existingIsDir {
          return Err(ENOTDIR), blind, missed, shown;
        }
        if !childIsDir && existingIsDir {
          return Err(EISDIR), blind, missed, shown;
        }
        if existingIsDir && fs[existing].entries != map[] {
          return Err(ENOTEMPTY), blind, missed, shown;
        }
        RenameEnds(was, parent, name, newParent, newName, blind, missed, shown, orphans, journal);
        ReplaceAllowed(was, parent, name, newParent, newName);
        r := Replace(parent, name, child, newParent, newName, existing);
        if r.Err? {
          ReplaceLeft(was, fs, parent, name, newParent, newName, journal);
        }
      } else {
        r, shown := MoveName(parent, name, child, newParent, newName);
        RenameEnds(was, parent, name, newParent, newName, blind, missed, shown, orphans, journal);
      }
    }

    /** Replace an existing name in one transaction. */
    method Replace(parent: nat, name: string, child: nat, newParent: nat, newName: string, existing: nat)
      returns (r: Result<Option<nat>>)
      requires HasName(fs, parent, name) && fs[parent].entries[name] == child && child in fs
      requires HasName(fs, newParent, newName) && fs[newParent].entries[newName] == existing && existing in fs
      requires MayReplace(fs, parent, name, newParent, newName)
      modifies this
      ensures r.Ok? ==>
                && fs == Replaced(old(fs), parent, name, newParent, newName) && poisoned == old(poisoned)
                && orphans == old(orphans) + (if journal then Orphaned(old(fs), newParent, newName) else {})
                && r.value
                   == old(if RemovalIsFinal(IsDir(fs, existing), LinksOf(fs, existing)) then Some(existing) else None)
      ensures r.Ok? <==> faults == old(faults)
      ensures faults >= old(faults)
      ensures r.Err? ==> r.code == EIO
      ensures r.Err? && !poisoned ==> fs == old(fs) && orphans == old(orphans)
      ensures r.Err? ==>
                var was, next := old(fs), Replaced(old(fs), parent, name, newParent, newName);
                && (fs == was || fs == next || (!journal && Torn(was, next, fs)))
                && (Tree(fs) ==> fs == was || fs == next)
    {
      hide Replaced;
      hide MayReplace;
      hide Torn;
      hide SameInodes;
      hide Tree;
      ghost var was := fs;
      hide SetEntry;
      hide DropEntry;
      hide SetDotdot;
      hide Raise;
      hide Lower;
      hide SetLinks;
      ReplacedIs(fs, parent, name, newParent, newName);
      var childIsDir, existingIsDir := fs[child].isDir, fs[existing].isDir;
      var finalTarget := RemovalIsFinal(existingIsDir, fs[existing].links);
      var ok := Io();
      if !ok {
        return Err(EIO);
      }
      var next := SetEntry(fs, newParent, newName, child);
      if existingIsDir {
        next := Lower(next, newParent);
      }
      next := DropEntry(next, parent, name);
      if childIsDir && parent != newParent {
        next := SetDotdot(next, child, newParent);
        next := Lower(next, parent);
        next := Raise(next, newParent);
      }
      var nextOrphans := orphans;
      if finalTarget {
        next := SetLinks(next, existing, 0);
        if journal {
          nextOrphans := orphans + {existing};
        }
      } else {
        next := Lower(next, existing);
      }
      TornReplace(fs, parent, name, newParent, newName, {});
      ok := Commit(next, nextOrphans);
      if !ok {
        if !journal {
          TornReplaceEnds(was, fs, parent, name, newParent, newName);
        }
        return Err(EIO);
      }
      return Ok(if finalTarget then Some(existing) else None);
    }

    /** Move a name to one that is free, or seems so, one write after the other. */
    method MoveName(parent: nat, name: string, child: nat, newParent: nat, newName: string)
      returns (r: Result<Option<nat>>, ghost shown: bool)
      requires HasName(fs, parent, name) && fs[parent].entries[name] == child && child in fs && newParent in fs
      modifies this
      ensures r.Ok? ==>
                fs == Moved(old(fs), parent, name, newParent, newName, shown) && r.value == None
                && poisoned == old(poisoned)
      ensures HasName(old(fs), newParent, newName) || shown
      ensures r.Ok? <==> faults == old(faults)
      ensures faults >= old(faults) && orphans == old(orphans)
      ensures r.Err? && !poisoned ==> fs == old(fs)
      ensures r.Err? ==> Partway(old(fs), MoveWrites(old(fs), parent, name, newParent, newName, shown), fs)
    {
      hide Moved;
      hide MoveWrites;
      hide Partway;
      hide SetEntry;
      hide DropEntry;
      hide SetDotdot;
      hide Raise;
      hide Lower;
      // If the name exists already, the new entry may come first or second.
      var same := parent == newParent && name == newName;
      var first := *;
      var comesFirst := first || newName !in fs[newParent].entries;
      shown := comesFirst;
      MoveSteps(fs, parent, name, newParent, newName, shown);
      var childIsDir := fs[child].isDir;
      ghost var landed;
      // No block is changed yet, so this failure is a clean one.
      var ok := Io();
      if !ok {
        return Err(ENOSPC), shown;
      }
      ok, landed := Write(if comesFirst && !same then SetEntry(fs, newParent, newName, child) else fs);
      if !ok {
        Poison();
        return Err(EIO), shown;
      }
      // One of two equal entries goes, or the only one.
      ok, landed := Write(if same then fs else DropEntry(fs, parent, name));
      if !ok {
        Poison();
        return Err(EIO), shown;
      }
      if childIsDir && parent != newParent {
        ok, landed := Write(SetDotdot(fs, child, newParent));
        if !ok {
          Poison();
          return Err(EIO), shown;
        }
        ok, landed := Write(Lower(fs, parent));
        if !ok {
          Poison();
          return Err(EIO), shown;
        }
        ok, landed := Write(Raise(fs, newParent));
        if !ok {
          Poison();
          return Err(EIO), shown;
        }
      }
      return Ok(None), shown;
    }

    /** Let two names exchange what they mean.  A ".." that could not be read
        ends the check of the one or the other way up (`blindOld`, `blindNew`). */
    method RenameExchange(parent: nat, name: string, newParent: nat, newName: string)
      returns (r: Result<()>, ghost blindOld: bool, ghost blindNew: bool)
      requires !poisoned ==> Valid()
      requires parent in fs && newParent in fs && PlainName(name) && PlainName(newName)
      modifies this
      ensures old(poisoned) ==> r == Err(EIO) && fs == old(fs) && orphans == old(orphans) && poisoned
      ensures r.Ok? <==>
                && !old(poisoned) && faults == old(faults)
                && MayExchange(old(fs), parent, name, newParent, newName, blindOld, blindNew)
      ensures !old(poisoned) && faults == old(faults)
              && ExchangeRefused(old(fs), parent, name, newParent, newName, blindOld, blindNew).Some? ==>
                && r == Err(ExchangeRefused(old(fs), parent, name, newParent, newName, blindOld, blindNew).value)
                && fs == old(fs) && orphans == old(orphans) && !poisoned
      ensures !old(poisoned) && r.Err? && faults == old(faults) ==>
                ExchangeFails(old(fs), parent, name, newParent, newName, r.code)
      ensures r.Ok? ==>
                var was := old(fs);
                Rebinds(was, fs, map[(parent, name) := Some(was[newParent].entries[newName]),
                                     (newParent, newName) := Some(was[parent].entries[name])])
      ensures r.Ok? ==>
                var was := old(fs);
                && HasName(was, parent, name) && HasName(was, newParent, newName) && !poisoned
                && fs == ExchangeResult(was, parent, name, newParent, newName)
                && (Tree(fs) <==> ExchangeSound(was, parent, name, newParent, newName))
                && (ExchangeSound(was, parent, name, newParent, newName) ==> Valid())
                && (!blindOld && !blindNew ==> Valid())
      ensures r.Err? && !poisoned ==> fs == old(fs) && orphans == old(orphans)
      ensures r.Err? && HasName(old(fs), parent, name) && HasName(old(fs), newParent, newName) ==>
                Partway(old(fs), ExchangeWrites(old(fs), parent, name, newParent, newName), fs)
    {
      hide Tree;
      hide Listed;
      hide Avoids;
      hide Exchanged;
      hide Climbs;
      hide Settled;
      hide Meets;
      hide Partway;
      hide ExchangeSound;
      hide ExchangeFails;
      hide MayExchange;
      hide Rebinds;
      blindOld, blindNew := false, false;
      ghost var was := fs;
      if HasName(was, parent, name) && HasName(was, newParent, newName) {
        ExchangeSteps(was, parent, name, newParent, newName);
      }
      ExchangeRules(was, parent, name, newParent, newName);
      ExchangeRebinds(was, parent, name, newParent, newName);
      if poisoned {
        return Err(EIO), blindOld, blindNew;
      }
      if !fs[parent].isDir || !fs[newParent].isDir {
        return Err(ENOTDIR), blindOld, blindNew;
      }
      if name !in fs[parent].entries || newName !in fs[newParent].entries {
        return Err(ENOENT), blindOld, blindNew;
      }
      var oldId, newId := fs[parent].entries[name], fs[newParent].entries[newName];
      NameFacts(fs, parent, name);
      NameFacts(fs, newParent, newName);
      TreeIsAcyclic(fs);
      var oldIsDir, newIsDir := fs[oldId].isDir, fs[newId].isDir;
      if oldId == newId {
        SameExchange(was, parent, name, newParent, newName);
        return Ok(()), blindOld, blindNew;
      }
      if parent != newParent {
        if oldIsDir {
          var checked;
          checked, blindOld := CheckAncestorCycle(oldId, newParent);
          if checked.Err? {
            return checked, blindOld, blindNew;
          }
        }
        if newIsDir {
          var checked;
          checked, blindNew := CheckAncestorCycle(newId, parent);
          if checked.Err? {
            return checked, blindOld, blindNew;
          }
        }
      }
      NotInItself(was, parent, name, newParent);
      NotInItself(was, newParent, newName, parent);
      ExchangeEnds(was, parent, name, newParent, newName, blindOld, blindNew, orphans);
      r := SwapNames(parent, name, oldId, newParent, newName, newId);
    }

    /** The writes of an exchange. */
    method SwapNames(parent: nat, name: string, oldId: nat, newParent: nat, newName: string, newId: nat)
      returns (r: Result<()>)
      requires HasName(fs, parent, name) && fs[parent].entries[name] == oldId && oldId in fs
      requires HasName(fs, newParent, newName) && fs[newParent].entries[newName] == newId && newId in fs
      modifies this
      ensures r.Ok? ==> fs == Exchanged(old(fs), parent, name, newParent, newName) && poisoned == old(poisoned)
      ensures r.Ok? <==> faults == old(faults)
      ensures faults >= old(faults) && orphans == old(orphans)
      ensures r.Err? ==> poisoned && Partway(old(fs), ExchangeWrites(old(fs), parent, name, newParent, newName), fs)
    {
      hide Exchanged;
      hide ExchangeWrites;
      hide Partway;
      hide SetEntry;
      hide SetDotdot;
      hide Raise;
      hide Lower;
      ExchangeSteps(fs, parent, name, newParent, newName);
      var oldIsDir, newIsDir := fs[oldId].isDir, fs[newId].isDir;
      ghost var landed;
      var ok;
      ok, landed := Write(SetEntry(fs, parent, name, newId));
      if !ok {
        Poison();
        return Err(EIO);
      }
      ok, landed := Write(SetEntry(fs, newParent, newName, oldId));
      if !ok {
        Poison();
        return Err(EIO);
      }
      if parent != newParent {
        if oldIsDir {
          ok, landed := Write(SetDotdot(fs, oldId, newParent));
          if !ok {
            Poison();
            return Err(EIO);
          }
          ok, landed := Write(Lower(fs, parent));
          if !ok {
            Poison();
            return Err(EIO);
          }
          ok, landed := Write(Raise(fs, newParent));
          if !ok {
            Poison();
            return Err(EIO);
          }
        }
        if newIsDir {
          ok, landed := Write(SetDotdot(fs, newId, parent));
          if !ok {
            Poison();
            return Err(EIO);
          }
          ok, landed := Write(Lower(fs, newParent));
          if !ok {
            Poison();
            return Err(EIO);
          }
          ok, landed := Write(Raise(fs, parent));
          if !ok {
            Poison();
            return Err(EIO);
          }
        }
      }
      return Ok(());
    }

    /** Publish a name for an inode whose link count so far is `links`.  The
        name is the last write; if it fails, the counts are put back, but not
        the name.  On failure `halt` tells where this stopped. */
    method LinkInode(parent: nat, child: nat, name: string, links: nat) returns (r: Result<()>, ghost halt: Halt)
      requires parent in fs && child in fs && parent != child
      requires if fs[child].isDir then links == 1 else links == fs[child].links
      modifies this`fs, this`poisoned, this`faults
      ensures r.Ok? <==> faults == old(faults)
      ensures faults >= old(faults)
      ensures r.Ok? ==> fs == Attached(old(fs), parent, name, child) && poisoned == old(poisoned)
      ensures r.Err? ==> HaltsIn(old(fs), child, halt) && fs == LinkLeft(old(fs), parent, name, child, links, halt)
      ensures r.Err? && !poisoned ==> Undone(old(fs), child, halt)
    {
      hide SetLinks;
      hide SetDotdot;
      hide SetEntry;
      hide Attached;
      hide LinkWrites;
      hide ApplyAll;
      ghost var was := fs;
      AttachedIs(fs, parent, name, child);
      LinkSteps(fs, parent, name, child, links);
      var isDir, parentLinks := fs[child].isDir, fs[parent].links;
      var ok;
      ghost var landed;
      halt := Halt(0, false, false, false);
      if isDir {
        ok, landed := Write(SetDotdot(fs, child, parent));
        if !ok {
          halt := Halt(0, landed, false, false);
          return Err(ENOSPC), halt;
        }
        ok, landed := Write(SetLinks(fs, parent, parentLinks + 1));
        if !ok {
          halt := Halt(1, landed, false, false);
          return Err(EIO), halt;
        }
      }
      ok, landed := Write(SetLinks(fs, child, links + 1));
      if !ok {
        halt := Halt(if isDir then 2 else 0, landed, false, false);
        return Err(EIO), halt;
      }
      ok, landed := Write(SetEntry(fs, parent, name, child));
      if ok {
        return Ok(()), halt;
      }
      ghost var childBack, parentBack := false, false;
      var undone;
      undone, childBack := Write(SetLinks(fs, child, links));
      if isDir {
        ok, parentBack := Write(SetLinks(fs, parent, parentLinks));
        undone := undone && ok;
      }
      if !undone {
        Poison();
      }
      halt := Halt(if isDir then 3 else 1, landed, childBack, parentBack);
      return Err(ENOSPC), halt;
    }

    /** Make a directory. */
    method Mkdir(parent: nat, name: string, id: nat) returns (r: Result<nat>, ghost halt: Option<Halt>)
      requires !poisoned ==> Valid()
      requires parent in fs && PlainName(name) && !HasName(fs, parent, name)
      requires id !in fs && id != 0
      modifies this
      ensures old(poisoned) ==> r == Err(EIO) && fs == old(fs) && orphans == old(orphans) && poisoned
      ensures r.Ok? <==> !old(poisoned) && faults == old(faults) && old(fs)[parent].isDir
      ensures !old(poisoned) && !old(fs)[parent].isDir ==> r == Err(ENOTDIR) && fs == old(fs) && !poisoned
      ensures r.Ok? ==> r.value == id && fs == Attached(Fresh(old(fs), id, true), parent, name, id) && !poisoned
      ensures r.Ok? ==> Rebinds(old(fs), fs, map[(parent, name) := Some(id)])
      ensures r.Ok? ==> (Tree(fs) <==> Live(old(fs), parent)) && (Live(old(fs), parent) ==> Valid())
      ensures !old(poisoned) && r.Err? ==>
                MakingLeft(old(fs), fs, parent, name, id, true, halt, poisoned) && orphans == old(orphans)
    {
      halt := None;
      if poisoned {
        return Err(EIO), halt;
      }
      r, halt := MakeNode(parent, name, id, true);
    }

    /** Create a file. */
    method Create(parent: nat, name: string, id: nat) returns (r: Result<nat>, ghost halt: Option<Halt>)
      requires !poisoned ==> Valid()
      requires parent in fs && PlainName(name) && !HasName(fs, parent, name)
      requires id !in fs && id != 0
      modifies this
      ensures old(poisoned) ==> r == Err(EIO) && fs == old(fs) && orphans == old(orphans) && poisoned
      ensures r.Ok? <==> !old(poisoned) && faults == old(faults) && old(fs)[parent].isDir
      ensures !old(poisoned) && !old(fs)[parent].isDir ==> r == Err(ENOTDIR) && fs == old(fs) && !poisoned
      ensures r.Ok? ==> r.value == id && fs == Attached(Fresh(old(fs), id, false), parent, name, id) && !poisoned
      ensures r.Ok? ==> Rebinds(old(fs), fs, map[(parent, name) := Some(id)])
      ensures r.Ok? ==> (Tree(fs) <==> Live(old(fs), parent)) && (Live(old(fs), parent) ==> Valid())
      ensures !old(poisoned) && r.Err? ==>
                MakingLeft(old(fs), fs, parent, name, id, false, halt, poisoned) && orphans == old(orphans)
    {
      halt := None;
      if poisoned {
        return Err(EIO), halt;
      }
      r, halt := MakeNode(parent, name, id, false);
    }

    /** A new inode with its first name; when the name cannot be published, the
        inode is released again. */
    method MakeNode(parent: nat, name: string, id: nat, dir: bool) returns (r: Result<nat>, ghost halt: Option<Halt>)
      requires Valid() && !poisoned && parent in fs && !HasName(fs, parent, name)
      requires id !in fs && id != 0
      modifies this
      ensures r.Ok? <==> faults == old(faults) && old(fs)[parent].isDir
      ensures !old(fs)[parent].isDir ==> r == Err(ENOTDIR) && fs == old(fs) && !poisoned
      ensures r.Ok? ==> r.value == id && fs == Attached(Fresh(old(fs), id, dir), parent, name, id) && !poisoned
      ensures r.Ok? ==> Rebinds(old(fs), fs, map[(parent, name) := Some(id)])
      ensures r.Ok? ==> (Tree(fs) <==> Live(old(fs), parent)) && (Live(old(fs), parent) ==> Valid())
      ensures r.Err? ==> MakingLeft(old(fs), fs, parent, name, id, dir, halt, poisoned) && orphans == old(orphans)
    {
      hide Rebinds;
      hide Tree;
      hide Listed;
      hide Attached;
      hide Settled;
      hide LinkLeft;
      hide HaltsIn;
      hide Undone;
      ghost var was := fs;
      halt := None;
      assert was - {id} == was && Fresh(was, id, dir) - {id} == was;
      if !fs[parent].isDir {
        return Err(ENOTDIR), halt;
      }
      var ok := Io();
      if !ok {
        return Err(ENOSPC), halt;
      }
      TreeHasRoot(fs);
      FreshKeepsTree(fs, id, dir);
      fs := Fresh(fs, id, dir);
      if dir {
        ok := Io();
        if !ok {
          // The entry "." could not be added.
          var freed, landed := Write(fs - {id});
          if !freed {
            Poison();
          }
          return Err(ENOSPC), halt;
        }
      }
      ghost var made := fs;
      AttachKeepsTree(fs, parent, name, id);
      FreshListed(was, parent, name, id, dir, orphans, journal);
      FreshSettled(was, parent, name, id, dir);
      var linked;
      ghost var stop;
      linked, stop := LinkInode(parent, id, name, if dir then 1 else 0);
      if linked.Ok? {
        FreshRebinds(was, parent, name, id, dir);
        return Ok(id), halt;
      }
      halt := Some(stop);
      var freed, landed := Write(fs - {id});
      MakingEnds(was, fs, parent, name, id, dir, stop, poisoned);
      return Err(linked.code), halt;
    }

    /** Give a file another name; one on the orphan list comes back to life. */
    method Link(child: nat, parent: nat, name: string) returns (r: Result<()>, ghost halt: Option<Halt>)
      requires !poisoned ==> Valid()
      requires parent in fs && child in fs && PlainName(name) && !HasName(fs, parent, name)
      modifies this
      ensures old(poisoned) ==> r == Err(EIO) && fs == old(fs) && orphans == old(orphans) && poisoned
      ensures !old(poisoned) && !old(fs)[parent].isDir ==> r == Err(ENOTDIR) && fs == old(fs) && !poisoned
      ensures !old(poisoned) && old(fs)[parent].isDir && old(fs)[child].isDir ==>
                r == Err(EISDIR) && fs == old(fs) && !poisoned
      ensures r.Ok? ==> fs == Attached(old(fs), parent, name, child) && !poisoned
      ensures r.Ok? ==> Rebinds(old(fs), fs, map[(parent, name) := Some(child)])
      ensures r.Ok? ==> (Tree(fs) <==> Live(old(fs), parent)) && (Live(old(fs), parent) ==> Valid())
      ensures r.Ok? && journal ==> child !in orphans
      ensures r.Ok? <==>
                && !old(poisoned) && faults == old(faults) && old(fs)[parent].isDir && !old(fs)[child].isDir
                && (old(fs)[child].links > 0 || child in old(orphans))
      ensures r.Err? && halt.None? && !poisoned ==> fs == old(fs) && orphans == old(orphans)
      ensures r.Err? && halt.None? ==>
                || (fs == old(fs) && orphans == old(orphans))
                || (fs == Attached(old(fs), parent, name, child) && orphans == old(orphans) - {child})
                || (!journal && Torn(old(fs), Attached(old(fs), parent, name, child), fs))
      ensures !old(poisoned) && r.Err? && halt.None? ==>
                (Tree(fs) <==> fs == old(fs) || (fs == Attached(old(fs), parent, name, child) && Live(old(fs), parent)))
      ensures r.Err? && halt.Some? ==>
                && HaltsIn(old(fs), child, halt.value) && orphans == old(orphans)
                && fs == LinkLeft(old(fs), parent, name, child, LinksOf(old(fs), child), halt.value)
                && (!poisoned ==> (fs == old(fs) <==> !halt.value.landed) && (Tree(fs) <==> !halt.value.landed))
    {
      hide Rebinds;
      hide Tree;
      hide Listed;
      hide Attached;
      hide Settled;
      hide LinkLeft;
      hide HaltsIn;
      hide Undone;
      halt := None;
      ghost var was := fs;
      AttachedRebinds(fs, parent, name, child);
      if poisoned {
        return Err(EIO), halt;
      }
      if !fs[parent].isDir {
        return Err(ENOTDIR), halt;
      }
      if fs[child].isDir {
        return Err(EISDIR), halt;
      }
      TreeHasRoot(fs);
      AttachKeepsTree(fs, parent, name, child);
      AttachedIs(fs, parent, name, child);
      if Live(fs, parent) {
        FileSettles(fs, parent, name, child);
      }
      if journal {
        ListedAt(fs, orphans, child);
        if Live(fs, parent) {
          AttachListed(fs, parent, name, child, orphans);
        }
      }
      if fs[child].links == 0 {
        if child !in orphans {
          return Err(EINVAL), halt;
        }
        var ok := Io();
        if !ok {
          return Err(ENOSPC), halt;
        }
        var next := SetEntry(SetLinks(fs, child, 1), parent, name, child);
        TornRelink(fs, parent, name, child, {});
        ok := Commit(next, orphans - {child});
        if !ok {
          RelinkEnds(was, fs, parent, name, child, journal);
          return Err(EIO), halt;
        }
        return Ok(()), halt;
      }
      assert journal ==> orphans - {child} == orphans;
      ghost var stop;
      r, stop := LinkInode(parent, child, name, fs[child].links);
      if r.Err? {
        halt := Some(stop);
        if !poisoned {
          FileLinkLeft(was, parent, name, child, stop);
        }
      }
    }
  }

  /** The smallest file system: a root directory. */
  method MountEmpty(journal: bool) returns (mount: Namespace)
    ensures fresh(mount) && mount.Valid() && !mount.poisoned && mount.journal == journal
    ensures mount.fs == map[ROOT := Inode(true, 2, ROOT, map[])] && mount.orphans == {}
  {
    RootAlone();
    RootIsSettled();
    mount := new Namespace(map[ROOT := Inode(true, 2, ROOT, map[])], {}, journal);
  }

  // ---- What lookups find afterwards ------------------------------------------------

  /** A rename that finds its target gives the new name the meaning of the old
      one, which is gone. */
  lemma RenameRebinds(fs: Fs, p: nat, n: string, q: nat, m: string)
    requires p in fs && q in fs
    ensures HasName(fs, p, n) ==>
              var c := fs[p].entries[n];
              forall shown :: HasName(fs, q, m) || shown ==>
                var gs := RenameResult(fs, p, n, q, m, false, shown);
                if Lookup(fs, q, m) == Some(c) then gs == fs
                else Rebinds(fs, gs, map[(p, n) := None, (q, m) := Some(c)])
  {
    hide Renamed;
    hide Replaced;
    hide Rebinds;
    if HasName(fs, p, n) && Lookup(fs, q, m) != Some(fs[p].entries[n]) {
      RenamedRebinds(fs, p, n, q, m);
      if HasName(fs, q, m) {
        ReplacedRebinds(fs, p, n, q, m);
      }
    }
  }

  lemma ExchangeRebinds(fs: Fs, p: nat, n: string, q: nat, m: string)
    requires p in fs && q in fs
    ensures HasName(fs, p, n) && HasName(fs, q, m) ==>
              Rebinds(fs, ExchangeResult(fs, p, n, q, m),
                      map[(p, n) := Some(fs[q].entries[m]), (q, m) := Some(fs[p].entries[n])])
  {
    hide Exchanged;
    if HasName(fs, p, n) && HasName(fs, q, m) && fs[p].entries[n] != fs[q].entries[m] {
      ExchangedRebinds(fs, p, n, q, m);
    }
  }

  // ---- How the operations end --------------------------------------------------------

  lemma SameKeys(fs: Fs, gs: Fs)
    requires SameInodes(fs, gs)
    ensures gs.Keys == fs.Keys
  {
  }

  lemma DropIsNew(fs: Fs, q: nat, m: string)
    requires HasName(fs, q, m)
    ensures DropEntry(fs, q, m) != fs
  {
  }

  lemma TornRemovalEnds(fs: Fs, gs: Fs, q: nat, m: string)
    requires Tree(fs) && HasName(fs, q, m) && Torn(fs, Unlinked(fs, q, m), gs)
    requires var e := fs[q].entries[m];
             && RemovalIsFinal(IsDir(fs, e), LinksOf(fs, e)) && (IsDir(fs, e) ==> fs[e].entries == map[])
    ensures Tree(gs) <==> gs == fs || gs == Unlinked(fs, q, m)
  {
    hide Tree;
    hide Merge;
    hide Unlinked;
    var done :| gs == Merge(fs, Unlinked(fs, q, m), done);
    TornRemoval(fs, q, m, done);
  }

  lemma TornReplaceEnds(fs: Fs, gs: Fs, p: nat, n: string, q: nat, m: string)
    requires MayReplace(fs, p, n, q, m) && Torn(fs, Replaced(fs, p, n, q, m), gs)
    ensures Tree(gs) ==> gs == fs || gs == Replaced(fs, p, n, q, m)
  {
    hide Tree;
    hide Merge;
    hide Replaced;
    hide MayReplace;
    MayReplaceFacts(fs, p, n, q, m);
    var done :| gs == Merge(fs, Replaced(fs, p, n, q, m), done);
    TornReplace(fs, p, n, q, m, done);
  }

  lemma ReplaceAllowed(fs: Fs, p: nat, n: string, q: nat, m: string)
    requires Tree(fs) && HasName(fs, p, n) && HasName(fs, q, m)
    requires var c, e := fs[p].entries[n], fs[q].entries[m];
             && c != e && c != q && IsDir(fs, c) == IsDir(fs, e) && (IsDir(fs, e) ==> fs[e].entries == map[])
    ensures MayReplace(fs, p, n, q, m)
  {
    hide Tree;
  }

  lemma NothingReplaced(fs: Fs, p: nat, n: string, q: nat, m: string, journal: bool)
    requires Tree(fs) && HasName(fs, p, n) && HasName(fs, q, m)
    ensures ReplacingLeft(fs, p, n, q, m, fs, journal)
  {
    hide Tree;
    hide Replaced;
    hide RenameSound;
  }

  lemma ReplaceLeft(fs: Fs, gs: Fs, p: nat, n: string, q: nat, m: string, journal: bool)
    requires Tree(fs) && HasName(fs, p, n) && HasName(fs, q, m)
    requires var next := Replaced(fs, p, n, q, m);
             && (gs == fs || gs == next || (!journal && Torn(fs, next, gs)))
             && (Tree(gs) ==> gs == fs || gs == next)
             && (Tree(next) <==> RenameSound(fs, p, n, q, m, false))
    ensures ReplacingLeft(fs, p, n, q, m, gs, journal)
  {
    hide Tree;
    hide Replaced;
    hide RenameSound;
    hide Torn;
  }

  lemma RelinkEnds(fs: Fs, gs: Fs, p: nat, n: string, c: nat, journal: bool)
    requires CanAttach(fs, p, n, c) && !fs[c].isDir && fs[c].links == 0
    requires if journal then gs == fs || gs == Attached(fs, p, n, c) else Torn(fs, Attached(fs, p, n, c), gs)
    ensures Tree(gs) <==> gs == fs || (gs == Attached(fs, p, n, c) && Live(fs, p))
  {
    hide Tree;
    hide Merge;
    hide Attached;
    AttachKeepsTree(fs, p, n, c);
    if !journal {
      var done :| gs == Merge(fs, Attached(fs, p, n, c), done);
      TornRelink(fs, p, n, c, done);
    }
  }

  /** A directory is not moved into itself. */
  lemma NotInItself(fs: Fs, p: nat, n: string, q: nat)
    requires Tree(fs) && HasName(fs, p, n) && q in fs && fs[q].isDir
    requires IsDir(fs, fs[p].entries[n]) && p != q ==> fs[p].entries[n] != q
    ensures fs[p].entries[n] != q
  {
    NameFacts(fs, p, n);
  }

  lemma RenameEnds(fs: Fs, p: nat, n: string, q: nat, m: string, blind: bool, missed: bool, shown: bool,
                   orphans: set<nat>, journal: bool)
    requires Tree(fs) && Settled(fs) && HasName(fs, p, n) && IsDir(fs, q) && fs[p].entries[n] != q
             && (HasName(fs, q, m) || shown)
    requires !missed && HasName(fs, q, m) && fs[q].entries[m] != fs[p].entries[n] ==>
               var c, e := fs[p].entries[n], fs[q].entries[m];
               IsDir(fs, c) == IsDir(fs, e) && (IsDir(fs, e) ==> fs[e].entries == map[])
    requires IsDir(fs, fs[p].entries[n]) && p != q && !blind ==> !Meets(fs, q, fs[p].entries[n])
    ensures var gs := RenameResult(fs, p, n, q, m, missed, shown);
            && (Tree(gs) <==> RenameSound(fs, p, n, q, m, missed))
            && (RenameSound(fs, p, n, q, m, missed) ==>
                  && Settled(gs)
                  && (journal && Listed(fs, orphans) ==> Listed(gs, orphans + RenameOrphans(fs, p, n, q, m, missed))))
    ensures Live(fs, q) && !blind && !missed ==> RenameSound(fs, p, n, q, m, missed)
  {
    hide Tree;
    hide Renamed;
    hide Replaced;
    hide Settled;
    hide Listed;
    hide Avoids;
    hide Meets;
    hide Unseen;
    hide Orphaned;
    RenameResultIsTree(fs, p, n, q, m, missed, shown);
    TreeIsAcyclic(fs);
    if Live(fs, q) {
      MeetsIffAbove(fs, q, fs[p].entries[n]);
    }
    assert orphans + {} == orphans;
    if RenameSound(fs, p, n, q, m, missed) {
      if !HasName(fs, q, m) {
        RenameSettles(fs, p, n, q, m);
        if Listed(fs, orphans) {
          RenameListed(fs, p, n, q, m, orphans);
        }
      } else if !missed && fs[q].entries[m] != fs[p].entries[n] {
        ReplaceSettles(fs, p, n, q, m);
        if Listed(fs, orphans) {
          ReplaceListed(fs, p, n, q, m, orphans);
        }
      }
    }
  }

  lemma TreeIsAcyclic(fs: Fs)
    requires Tree(fs)
    ensures Acyclic(fs)
  {
  }

  lemma SameExchange(fs: Fs, p: nat, n: string, q: nat, m: string)
    requires HasName(fs, p, n) && HasName(fs, q, m) && fs[p].entries[n] == fs[q].entries[m]
    ensures ExchangeSound(fs, p, n, q, m) && ExchangeResult(fs, p, n, q, m) == fs
  {
  }

  lemma ExchangeEnds(fs: Fs, p: nat, n: string, q: nat, m: string, blindOld: bool, blindNew: bool, orphans: set<nat>)
    requires Tree(fs) && Settled(fs) && HasName(fs, p, n) && HasName(fs, q, m)
    requires var c, e := fs[p].entries[n], fs[q].entries[m];
             && c != e && c != q && e != p
             && (IsDir(fs, c) && p != q && !blindOld ==> !Meets(fs, q, c))
             && (IsDir(fs, e) && p != q && !blindNew ==> !Meets(fs, p, e))
    ensures var gs := ExchangeResult(fs, p, n, q, m);
            && (Tree(gs) <==> ExchangeSound(fs, p, n, q, m))
            && (ExchangeSound(fs, p, n, q, m) ==> Settled(gs) && (Listed(fs, orphans) ==> Listed(gs, orphans)))
    ensures !blindOld && !blindNew ==> ExchangeSound(fs, p, n, q, m)
  {
    hide Tree;
    hide Exchanged;
    hide Settled;
    hide Listed;
    hide Avoids;
    hide Meets;
    ExchangeResultIsTree(fs, p, n, q, m);
    TreeIsAcyclic(fs);
    NameFacts(fs, p, n);
    NameFacts(fs, q, m);
    MeetsIffAbove(fs, q, fs[p].entries[n]);
    MeetsIffAbove(fs, p, fs[q].entries[m]);
    if ExchangeSound(fs, p, n, q, m) {
      ExchangeSettles(fs, p, n, q, m);
      if Listed(fs, orphans) {
        ExchangeListed(fs, p, n, q, m, orphans);
      }
    }
  }

  /** The states between the writes of a publication. */
  lemma LinkSteps(fs: Fs, p: nat, n: string, c: nat, links: nat)
    requires p in fs && c in fs && p != c
    ensures var ws := LinkWrites(fs, p, n, c, links);
            var named := SetDotdot(fs, c, p);
            var raised := SetLinks(named, p, fs[p].links + 1);
            var counted := SetLinks(if fs[c].isDir then raised else fs, c, links + 1);
            if fs[c].isDir then
              && |ws| == 4 && ApplyAll(fs, ws[..0]) == fs && ApplyAll(fs, ws[..1]) == named
              && ApplyAll(fs, ws[..2]) == raised
              && ApplyAll(fs, ws[..3]) == counted && ApplyAll(fs, ws[..4]) == SetEntry(counted, p, n, c)
            else
              && |ws| == 2 && ApplyAll(fs, ws[..0]) == fs && ApplyAll(fs, ws[..1]) == counted
              && ApplyAll(fs, ws[..2]) == SetEntry(counted, p, n, c)
  {
    hide ApplyAll;
    if fs[c].isDir {
      LinkWritesDir(fs, p, n, c, links);
    } else {
      LinkWritesFile(fs, p, n, c, links);
    }
  }

  lemma FreshSettled(fs: Fs, p: nat, n: string, c: nat, dir: bool)
    requires Settled(fs) && p in fs && c !in fs
    ensures Live(fs, p) ==> Settled(Attached(Fresh(fs, c, dir), p, n, c))
  {
    hide Attached;
    hide Settled;
    if Live(fs, p) {
      AttachSettles(fs, Fresh(fs, c, dir), p, n, c);
    }
  }

  lemma FileSettles(fs: Fs, p: nat, n: string, c: nat)
    requires Settled(fs) && Live(fs, p) && c in fs && !fs[c].isDir
    ensures Settled(Attached(fs, p, n, c))
  {
    hide Attached;
    hide Settled;
    AttachSettles(fs, fs, p, n, c);
  }

  lemma MakingEnds(fs: Fs, gs: Fs, p: nat, n: string, c: nat, dir: bool, stop: Halt, poisoned: bool)
    requires Tree(fs) && IsDir(fs, p) && c !in fs && !HasName(fs, p, n) && HaltsIn(Fresh(fs, c, dir), c, stop)
    requires var left := LinkLeft(Fresh(fs, c, dir), p, n, c, if dir then 1 else 0, stop);
             gs == left || gs == left - {c}
    requires !poisoned ==> Undone(Fresh(fs, c, dir), c, stop)
    ensures MakingLeft(fs, gs, p, n, c, dir, Some(stop), poisoned)
  {
    hide Tree;
    hide LinkLeft;
    hide HaltsIn;
    hide Undone;
    hide Traceless;
    if !poisoned {
      MadeLeftIsTree(fs, p, n, c, dir, stop);
    }
  }

  lemma TreeHasRoot(fs: Fs)
    requires Tree(fs)
    ensures ROOT in fs && fs[ROOT].isDir
  {
  }

  lemma ListedAt(fs: Fs, orphans: set<nat>, c: nat)
    requires Listed(fs, orphans)
    ensures c in orphans <==> c in fs && fs[c].links == 0
  {
  }

  lemma FreshListed(fs: Fs, p: nat, n: string, c: nat, dir: bool, orphans: set<nat>, journal: bool)
    requires c !in fs && CanAttach(Fresh(fs, c, dir), p, n, c)
    ensures journal && Listed(fs, orphans) && Live(fs, p) ==> Listed(Attached(Fresh(fs, c, dir), p, n, c), orphans)
    ensures Live(Fresh(fs, c, dir), p) <==> Live(fs, p)
  {
    hide Attached;
    hide Tree;
    AttachedInodes(Fresh(fs, c, dir), p, n, c);
  }

  lemma ReplacedIs(fs: Fs, p: nat, n: string, q: nat, m: string)
    requires HasName(fs, p, n) && HasName(fs, q, m)
    requires var c, e := fs[p].entries[n], fs[q].entries[m]; c in fs && e in fs
    ensures var c, e := fs[p].entries[n], fs[q].entries[m];
            var a := SetEntry(fs, q, m, c);
            var b := DropEntry(if fs[e].isDir then Lower(a, q) else a, p, n);
            var d := if fs[c].isDir && p != q then Raise(Lower(SetDotdot(b, c, q), p), q) else b;
            && Replaced(fs, p, n, q, m)
               == (if RemovalIsFinal(fs[e].isDir, fs[e].links) then SetLinks(d, e, 0) else Lower(d, e))
            && Orphaned(fs, q, m) == (if RemovalIsFinal(fs[e].isDir, fs[e].links) then {e} else {})
  {
  }

  lemma AttachedIs(fs: Fs, p: nat, n: string, c: nat)
    requires p in fs && c in fs && p != c
    ensures Attached(fs, p, n, c) ==
            SetEntry(if fs[c].isDir then SetLinks(SetLinks(SetDotdot(fs, c, p), p, fs[p].links + 1), c, 2)
                     else SetLinks(fs, c, fs[c].links + 1), p, n, c)
  {
  }

  lemma UnlinkedIs(fs: Fs, q: nat, m: string)
    requires Tree(fs) && HasName(fs, q, m)
    ensures var e := fs[q].entries[m];
            e in fs && Unlinked(fs, q, m) ==
                       if RemovalIsFinal(fs[e].isDir, fs[e].links) then
                         SetLinks(if fs[e].isDir then Lower(DropEntry(fs, q, m), q) else DropEntry(fs, q, m), e, 0)
                       else SetLinks(DropEntry(fs, q, m), e, fs[e].links - 1)
  {
    hide Names;
    hide Subs;
    hide Tree;
    hide SetLinks;
    NameFacts(fs, q, m);
    var e := fs[q].entries[m];
    assert DropEntry(fs, q, m)[e] == fs[e];
  }

  lemma KeptOrphans(fs: Fs, q: nat, m: string, orphans: set<nat>)
    requires HasName(fs, q, m)
    requires var e := fs[q].entries[m]; e in fs && !RemovalIsFinal(fs[e].isDir, fs[e].links)
    ensures orphans + Orphaned(fs, q, m) == orphans
  {
  }

  lemma GoneIsListed(fs: Fs, q: nat, m: string, orphans: set<nat>)
    requires Tree(fs) && HasName(fs, q, m) && Listed(Unlinked(fs, q, m), orphans)
    requires var e := fs[q].entries[m]; e in fs && RemovalIsFinal(fs[e].isDir, fs[e].links)
    ensures fs[q].entries[m] in orphans
  {
    hide Unlinked;
    hide Names;
    hide Subs;
    hide Acyclic;
    hide Counted;
    hide Named;
    NameFacts(fs, q, m);
    UnlinkedInodes(fs, q, m);
  }
}
