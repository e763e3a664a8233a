/** The index of system-metadata ranges: sorted, merged, and searched with one
    binary search before any data block is trusted. */
module RangeIndex {
  import opened Bytes

  const U64_LIMIT: int := 0x1_0000_0000_0000_0000

  /** Blocks `start` up to but not including `end`. */
  datatype Range = Range(start: nat, end: nat)
  {
    predicate Contains(b: int) {
      start <= b < end
    }

    predicate Overlaps(other: Range) {
      start < other.end && other.start < end
    }
  }

  ghost predicate Covered(ranges: seq<Range>, b: int) {
    exists i :: 0 <= i < |ranges| && ranges[i].Contains(b)
  }

  ghost predicate AnyOverlap(ranges: seq<Range>, query: Range) {
    exists i :: 0 <= i < |ranges| && ranges[i].Overlaps(query)
  }

  predicate AllNonEmpty(ranges: seq<Range>) {
    forall i :: 0 <= i < |ranges| ==> ranges[i].start < ranges[i].end
  }

  /** In order, with at least one block between neighbours. */
  predicate Separated(ranges: seq<Range>) {
    AllNonEmpty(ranges) && forall i, j :: 0 <= i < j < |ranges| ==> ranges[i].end < ranges[j].start
  }

  predicate Before(a: Range, b: Range) {
    a.start < b.start || (a.start == b.start && a.end <= b.end)
  }

  predicate Sorted(ranges: seq<Range>) {
    forall i, j :: 0 <= i < j < |ranges| ==> Before(ranges[i], ranges[j])
  }

  // ---- Sorting -----------------------------------------------------------------

  function InsertSorted(r: Range, ranges: seq<Range>): seq<Range> {
    if ranges == [] || Before(r, ranges[0]) then [r] + ranges
    else [ranges[0]] + InsertSorted(r, ranges[1..])
  }

  function Sort(ranges: seq<Range>): seq<Range> {
    if ranges == [] then [] else InsertSorted(ranges[0], Sort(ranges[1..]))
  }

  lemma {:induction false} InsertSortedOrder(r: Range, ranges: seq<Range>)
    requires Sorted(ranges)
    ensures Sorted(InsertSorted(r, ranges))
    ensures forall x :: x in InsertSorted(r, ranges) <==> x == r || x in ranges
    decreases |ranges|
  {
    if !(ranges == [] || Before(r, ranges[0])) {
      InsertSortedOrder(r, ranges[1..]);
      assert ranges == [ranges[0]] + ranges[1..];
      var rest := InsertSorted(r, ranges[1..]);
      forall i | 0 <= i < |rest|
        ensures Before(ranges[0], rest[i])
      {
        assert rest[i] in rest;
      }
    }
  }

  lemma {:induction false} SortOrder(ranges: seq<Range>)
    ensures Sorted(Sort(ranges))
    ensures forall x :: x in Sort(ranges) <==> x in ranges
    decreases |ranges|
  {
    if ranges != [] {
      SortOrder(ranges[1..]);
      InsertSortedOrder(ranges[0], Sort(ranges[1..]));
      assert ranges == [ranges[0]] + ranges[1..];
    }
  }

  // ---- Merging -----------------------------------------------------------------

  /** Sort the ranges and join those that touch. */
  method Merge(ranges: seq<Range>) returns (merged: seq<Range>)
    requires AllNonEmpty(ranges)
    ensures Separated(merged)
    ensures forall b :: Covered(merged, b) <==> Covered(ranges, b)
  {
    hide Covered;
    var sorted := Sort(ranges);
    SortOrder(ranges);
    SameCover(ranges, sorted);
    merged := [];
    CoverNothing();
    assert sorted[..0] == [];
    for i := 0 to |sorted|
      invariant Separated(merged)
      invariant forall b :: Covered(merged, b) <==> Covered(sorted[..i], b)
      invariant merged != [] ==> i > 0 && merged[|merged| - 1].start <= sorted[i - 1].start
      invariant merged == [] ==> i == 0
    {
      var r := sorted[i];
      assert sorted[..i + 1] == sorted[..i] + [r];
      CoverMore(sorted[..i], r);
      if merged != [] && r.start <= merged[|merged| - 1].end {
        var last := |merged| - 1;
        assert Before(sorted[i - 1], r);
        Widen(merged, r);
        merged := merged[last := Range(merged[last].start, if merged[last].end < r.end then r.end
                                       else merged[last].end)];
        continue;
      }
      CoverMore(merged, r);
      merged := merged + [r];
    }
    assert sorted[..|sorted|] == sorted;
  }

  lemma SameCover(a: seq<Range>, b: seq<Range>)
    requires forall x :: x in a <==> x in b
    requires AllNonEmpty(a)
    ensures forall n :: Covered(a, n) <==> Covered(b, n)
    ensures AllNonEmpty(b)
  {
    forall i | 0 <= i < |b|
      ensures b[i].start < b[i].end
    {
      assert b[i] in a;
    }
    forall n
      ensures Covered(a, n) <==> Covered(b, n)
    {
      if i :| 0 <= i < |a| && a[i].Contains(n) {
        assert a[i] in b;
        var j :| 0 <= j < |b| && b[j] == a[i];
      }
      if i :| 0 <= i < |b| && b[i].Contains(n) {
        assert b[i] in a;
        var j :| 0 <= j < |a| && a[j] == b[i];
      }
    }
  }

  lemma CoverNothing()
    ensures forall b :: !Covered([], b)
  {
  }

  lemma CoverMore(ranges: seq<Range>, r: Range)
    ensures forall b :: Covered(ranges + [r], b) <==> Covered(ranges, b) || r.Contains(b)
  {
    var all := ranges + [r];
    forall b
      ensures Covered(all, b) <==> Covered(ranges, b) || r.Contains(b)
    {
      if i :| 0 <= i < |ranges| && ranges[i].Contains(b) {
        assert all[i].Contains(b);
      }
      if r.Contains(b) {
        assert all[|ranges|].Contains(b);
      }
      if i :| 0 <= i < |all| && all[i].Contains(b) {
        assert i < |ranges| ==> ranges[i].Contains(b);
      }
    }
  }

  /** Joining a range that touches the last one. */
  lemma Widen(merged: seq<Range>, r: Range)
    requires Separated(merged) && merged != []
    requires merged[|merged| - 1].start <= r.start <= merged[|merged| - 1].end && r.start < r.end
    ensures var last := |merged| - 1;
            var wide := Range(merged[last].start, if merged[last].end < r.end then r.end else merged[last].end);
            && Separated(merged[last := wide])
            && forall b :: Covered(merged[last := wide], b) <==> Covered(merged, b) || r.Contains(b)
  {
    var last := |merged| - 1;
    var wide := Range(merged[last].start, if merged[last].end < r.end then r.end else merged[last].end);
    assert merged == merged[..last] + [merged[last]];
    assert merged[last := wide] == merged[..last] + [wide];
    CoverMore(merged[..last], merged[last]);
    CoverMore(merged[..last], wide);
    forall b
      ensures wide.Contains(b) <==> merged[last].Contains(b) || r.Contains(b)
    {
    }
  }

  // ---- Searching ---------------------------------------------------------------

  /** The first range that does not end at or before `start`. */
  method PartitionPoint(ranges: seq<Range>, start: nat) returns (k: nat)
    requires Separated(ranges)
    ensures k <= |ranges|
    ensures forall i :: 0 <= i < k ==> ranges[i].end <= start
    ensures forall i :: k <= i < |ranges| ==> start < ranges[i].end
  {
    var lo, hi := 0, |ranges|;
    while lo < hi
      invariant 0 <= lo <= hi <= |ranges|
      invariant forall i :: 0 <= i < lo ==> ranges[i].end <= start
      invariant forall i :: hi <= i < |ranges| ==> start < ranges[i].end
    {
      var mid := (lo + hi) / 2;
      if ranges[mid].end <= start {
        lo := mid + 1;
      } else {
        hi := mid;
      }
    }
    k := lo;
  }

  /** In a separated list, one candidate answers for all. */
  lemma CandidateDecides(ranges: seq<Range>, query: Range, k: nat)
    requires Separated(ranges) && k <= |ranges|
    requires forall i :: 0 <= i < k ==> ranges[i].end <= query.start
    requires forall i :: k <= i < |ranges| ==> query.start < ranges[i].end
    ensures AnyOverlap(ranges, query) <==> k < |ranges| && query.Overlaps(ranges[k])
  {
    if i :| 0 <= i < |ranges| && ranges[i].Overlaps(query) {
      assert k <= i;
      assert k < i ==> ranges[k].end < ranges[i].start;
    }
  }

  /** Overlap is decided by the blocks that are covered. */
  lemma OverlapIsCover(ranges: seq<Range>, query: Range)
    requires AllNonEmpty(ranges) && query.start < query.end
    ensures AnyOverlap(ranges, query) <==> exists b :: query.Contains(b) && Covered(ranges, b)
  {
    if i :| 0 <= i < |ranges| && ranges[i].Overlaps(query) {
      var b := if ranges[i].start < query.start then query.start else ranges[i].start;
      assert ranges[i].Contains(b) && query.Contains(b);
    }
    if b :| query.Contains(b) && Covered(ranges, b) {
      var i :| 0 <= i < |ranges| && ranges[i].Contains(b);
      assert ranges[i].Overlaps(query);
    }
  }

  /** The merged list finds exactly the overlaps of the original list. */
  lemma MergedAgrees(original: seq<Range>, merged: seq<Range>, query: Range)
    requires AllNonEmpty(original) && Separated(merged) && query.start < query.end
    requires forall b :: Covered(merged, b) <==> Covered(original, b)
    ensures AnyOverlap(merged, query) <==> AnyOverlap(original, query)
  {
    hide Covered;
    hide AnyOverlap;
    OverlapIsCover(original, query);
    OverlapIsCover(merged, query);
  }

  class DataGuard {
    const firstDataBlock: nat
    const blockCount: nat
    const journal: set<nat>
    var index: seq<Range>
    ghost var original: seq<Range>

    ghost predicate Valid()
      reads this
    {
      AllNonEmpty(original) && Separated(index) && forall b :: Covered(index, b) <==> Covered(original, b)
    }

    constructor (firstDataBlock: nat, blockCount: nat, journal: set<nat>, ranges: seq<Range>)
      requires AllNonEmpty(ranges)
      ensures Valid() && original == ranges
      ensures this.firstDataBlock == firstDataBlock && this.blockCount == blockCount && this.journal == journal
    {
      this.firstDataBlock := firstDataBlock;
      this.blockCount := blockCount;
      this.journal := journal;
      var merged := Merge(ranges);
      index := merged;
      original := ranges;
    }

    /** Does the journal own a block of this range? */
    predicate JournalOwns(range: Range) {
      exists b :: b in journal && range.Contains(b)
    }

    /** Accept exactly the ranges of file-owned storage. */
    method ValidateDataBlocks(start: nat, count: nat) returns (r: Result<()>)
      requires Valid() && start < U64_LIMIT
      ensures r.Ok? <==>
                && start + count < U64_LIMIT
                && count > 0 && firstDataBlock <= start && start + count <= blockCount
                && !AnyOverlap(original, Range(start, start + count))
                && !JournalOwns(Range(start, start + count))
      ensures r.Err? ==> r.code == EIO
    {
      hide Covered;
      hide AnyOverlap;
      if start + count >= U64_LIMIT {
        return Err(EIO);
      }
      var end := start + count;
      if count == 0 || start < firstDataBlock || end > blockCount {
        return Err(EIO);
      }
      var query := Range(start, end);
      var candidate := PartitionPoint(index, start);
      CandidateDecides(index, query, candidate);
      MergedAgrees(original, index, query);
      if candidate < |index| && query.Overlaps(index[candidate]) {
        return Err(EIO);
      }
      if JournalOwns(query) {
        return Err(EIO);
      }
      return Ok(());
    }
  }
}
