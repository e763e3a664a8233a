/** Allocation bitmaps: single bits, the lowest clear bit and the lowest clear
    run of a given length. */
module Bitmap {
  import opened Bytes

  function Mask(k: nat): bv8
    requires k < 8
  {
    match k
    case 0 => 0x01
    case 1 => 0x02
    case 2 => 0x04
    case 3 => 0x08
    case 4 => 0x10
    case 5 => 0x20
    case 6 => 0x40
    case 7 => 0x80
  }

  predicate ClearIn(b: bv8, k: nat)
    requires k < 8
  {
    b & Mask(k) == 0
  }

  predicate Clear(bytes: seq<bv8>, bit: nat)
    requires bit < 8 * |bytes|
  {
    ClearIn(bytes[bit / 8], bit % 8)
  }

  /** Bit `i` of a bitmap is bit `i % 8` of byte `i / 8`, counted from the least
      significant. */
  lemma BitOrder(bytes: seq<bv8>, k: nat)
    requires k < |bytes|
    ensures Clear(bytes, 8 * k) <==> bytes[k] & 0x01 == 0
    ensures Clear(bytes, 8 * k + 1) <==> bytes[k] & 0x02 == 0
    ensures Clear(bytes, 8 * k + 2) <==> bytes[k] & 0x04 == 0
    ensures Clear(bytes, 8 * k + 3) <==> bytes[k] & 0x08 == 0
    ensures Clear(bytes, 8 * k + 4) <==> bytes[k] & 0x10 == 0
    ensures Clear(bytes, 8 * k + 5) <==> bytes[k] & 0x20 == 0
    ensures Clear(bytes, 8 * k + 6) <==> bytes[k] & 0x40 == 0
    ensures Clear(bytes, 8 * k + 7) <==> bytes[k] & 0x80 == 0
  {
  }

  /** Setting a bit sets that bit only; clearing it again restores the byte. */
  lemma SetInByte(b: bv8, k: nat, j: nat)
    requires k < 8 && j < 8
    ensures ClearIn(b | Mask(k), j) <==> j != k && ClearIn(b, j)
    ensures ClearIn(b, k) ==> (b | Mask(k)) & !Mask(k) == b
  {
  }

  lemma ClearInByte(b: bv8, k: nat, j: nat)
    requires k < 8 && j < 8
    ensures ClearIn(b & !Mask(k), j) <==> j == k || ClearIn(b, j)
    ensures !ClearIn(b, k) ==> (b & !Mask(k)) | Mask(k) == b
  {
  }

  function Marked(bytes: seq<bv8>, bit: nat): (r: seq<bv8>)
    requires bit < 8 * |bytes|
    ensures |r| == |bytes|
  {
    bytes[bit / 8 := bytes[bit / 8] | Mask(bit % 8)]
  }

  function Unmarked(bytes: seq<bv8>, bit: nat): (r: seq<bv8>)
    requires bit < 8 * |bytes|
    ensures |r| == |bytes|
  {
    bytes[bit / 8 := bytes[bit / 8] & !Mask(bit % 8)]
  }

  lemma SetAt(bytes: seq<bv8>, bit: nat, i: nat)
    requires bit < 8 * |bytes| && i < 8 * |bytes|
    ensures Clear(Marked(bytes, bit), i) <==> i != bit && Clear(bytes, i)
  {
    SetInByte(bytes[bit / 8], bit % 8, i % 8);
    SameBit(bit, i);
  }

  lemma UnsetAt(bytes: seq<bv8>, bit: nat, i: nat)
    requires bit < 8 * |bytes| && i < 8 * |bytes|
    ensures Clear(Unmarked(bytes, bit), i) <==> i == bit || Clear(bytes, i)
  {
    ClearInByte(bytes[bit / 8], bit % 8, i % 8);
    SameBit(bit, i);
  }

  lemma SameBit(a: nat, b: nat)
    ensures a == b <==> a / 8 == b / 8 && a % 8 == b % 8
  {
  }

  /** Releasing what was just taken gives back the very same bytes. */
  lemma SetThenUnset(bytes: seq<bv8>, bit: nat)
    requires bit < 8 * |bytes| && Clear(bytes, bit)
    ensures Unmarked(Marked(bytes, bit), bit) == bytes
  {
    SetInByte(bytes[bit / 8], bit % 8, bit % 8);
  }

  predicate ClearRun(bytes: seq<bv8>, from: nat, count: nat)
    requires from + count <= 8 * |bytes|
  {
    forall i :: from <= i < from + count ==> Clear(bytes, i)
  }

  predicate UsedRun(bytes: seq<bv8>, from: nat, count: nat)
    requires from + count <= 8 * |bytes|
  {
    forall i :: from <= i < from + count ==> !Clear(bytes, i)
  }

  function Min(a: nat, b: nat): nat {
    if a < b then a else b
  }

  /** The lowest run of `count` clear bits inside the range; after a used bit
      the search goes on behind it. */
  method FirstClearRunIn(bitmap: seq<bv8>, nbits: nat, start: nat, end0: nat, count: nat) returns (r: Option<nat>)
    ensures var end := Min(end0, Min(nbits, 8 * |bitmap|));
            && (r.Some? ==>
                  && count > 0 && start <= r.value && r.value + count <= end && ClearRun(bitmap, r.value, count)
                  && forall s :: start <= s < r.value ==> !ClearRun(bitmap, s, count))
            && (r.None? ==> count == 0 || forall s :: start <= s && s + count <= end ==> !ClearRun(bitmap, s, count))
  {
    var end := Min(end0, Min(nbits, 8 * |bitmap|));
    if count == 0 || start > end || count > end - start {
      return None;
    }
    var lastStart := end - count;
    var candidate := start;
    while candidate <= lastStart
      invariant start <= candidate
      invariant forall s :: start <= s < candidate && s <= lastStart ==> !ClearRun(bitmap, s, count)
      decreases lastStart + 1 - candidate
    {
      var offset := 0;
      while offset < count && Clear(bitmap, candidate + offset)
        invariant offset <= count
        invariant forall i :: candidate <= i < candidate + offset ==> Clear(bitmap, i)
      {
        offset := offset + 1;
      }
      if offset == count {
        return Some(candidate);
      }
      forall s | candidate <= s <= candidate + offset && s <= lastStart
        ensures !ClearRun(bitmap, s, count)
      {
        assert !Clear(bitmap, candidate + offset);
      }
      candidate := candidate + offset + 1;
    }
    return None;
  }

  class Bitmap {
    const bits: array<bv8>

    constructor (bytes: seq<bv8>)
      ensures bits[..] == bytes && fresh(bits)
    {
      bits := new bv8[|bytes|](i => if 0 <= i < |bytes| then bytes[i] else 0);
    }

    predicate IsClear(bit: nat)
      requires bit < 8 * bits.Length
      reads bits
    {
      bits[bit / 8] & Mask(bit % 8) == 0
    }

    method SetBit(bit: nat)
      requires bit < 8 * bits.Length
      modifies bits
      ensures bits[..] == Marked(old(bits[..]), bit)
    {
      bits[bit / 8] := bits[bit / 8] | Mask(bit % 8);
    }

    method ClearBit(bit: nat)
      requires bit < 8 * bits.Length
      modifies bits
      ensures bits[..] == Unmarked(old(bits[..]), bit)
    {
      bits[bit / 8] := bits[bit / 8] & !Mask(bit % 8);
    }

    method FirstClearBit(start: nat, end0: nat) returns (r: Option<nat>)
      ensures var end := Min(end0, 8 * bits.Length);
              && (r.Some? ==> start <= r.value < end && Clear(bits[..], r.value)
                              && forall i :: start <= i < r.value ==> !Clear(bits[..], i))
              && (r.None? ==> forall i :: start <= i < end ==> !Clear(bits[..], i))
    {
      var end := Min(end0, 8 * bits.Length);
      var i := start;
      while i < end
        invariant start <= i
        invariant forall k :: start <= k < i && k < end ==> !Clear(bits[..], k)
      {
        assert bits[..][i / 8] == bits[i / 8];
        if IsClear(i) {
          return Some(i);
        }
        i := i + 1;
      }
      return None;
    }

    method FindAndSetFirstClearBit(start: nat, end: nat) returns (r: Option<nat>)
      modifies bits
      ensures r.Some? ==>
                && start <= r.value < Min(end, 8 * bits.Length) && Clear(old(bits[..]), r.value)
                && (forall i :: start <= i < r.value ==> !Clear(old(bits[..]), i))
                && bits[..] == Marked(old(bits[..]), r.value)
      ensures r.None? ==>
                && bits[..] == old(bits[..])
                && forall i :: start <= i < Min(end, 8 * bits.Length) ==> !Clear(bits[..], i)
    {
      r := FirstClearBit(start, end);
      if r.Some? {
        SetBit(r.value);
      }
    }

    /** Set a run of bits. */
    method SetRun(from: nat, count: nat)
      requires from + count <= 8 * bits.Length
      modifies bits
      ensures forall i :: 0 <= i < 8 * bits.Length ==>
                Clear(bits[..], i) == (Clear(old(bits[..]), i) && !(from <= i < from + count))
    {
      for k := 0 to count
        invariant forall i :: 0 <= i < 8 * bits.Length ==>
                    Clear(bits[..], i) == (Clear(old(bits[..]), i) && !(from <= i < from + k))
      {
        ghost var before := bits[..];
        SetBit(from + k);
        forall i | 0 <= i < 8 * bits.Length
          ensures Clear(bits[..], i) == (Clear(before, i) && i != from + k)
        {
          SetAt(before, from + k, i);
        }
      }
    }

    /** Clear a run of bits. */
    method ClearRunOf(from: nat, count: nat)
      requires from + count <= 8 * bits.Length
      modifies bits
      ensures forall i :: 0 <= i < 8 * bits.Length ==>
                Clear(bits[..], i) == (Clear(old(bits[..]), i) || from <= i < from + count)
    {
      for k := 0 to count
        invariant forall i :: 0 <= i < 8 * bits.Length ==>
                    Clear(bits[..], i) == (Clear(old(bits[..]), i) || from <= i < from + k)
      {
        ghost var before := bits[..];
        ClearBit(from + k);
        forall i | 0 <= i < 8 * bits.Length
          ensures Clear(bits[..], i) == (Clear(before, i) || i == from + k)
        {
          UnsetAt(before, from + k, i);
        }
      }
    }
  }

  // ---- Counting ----------------------------------------------------------------

  /** Clear bits among the first `n`. */
  function FreeBits(bytes: seq<bv8>, n: nat): (c: nat)
    requires n <= 8 * |bytes|
    ensures c <= n
  {
    if n == 0 then 0 else FreeBits(bytes, n - 1) + (if Clear(bytes, n - 1) then 1 else 0)
  }

  /** Taking or releasing a run changes the count by its length. */
  lemma {:induction false} CountRun(was: seq<bv8>, now: seq<bv8>, n: nat, from: nat, count: nat)
    requires |was| == |now| && n <= 8 * |was| && from + count <= 8 * |was|
    requires forall i :: 0 <= i < 8 * |was| ==> Clear(now, i) == (Clear(was, i) || from <= i < from + count)
    requires UsedRun(was, from, count)
    ensures FreeBits(now, n) == FreeBits(was, n)
            + (if n <= from then 0 else if n <= from + count then n - from else count)
    decreases n
  {
    hide Clear;
    if n > 0 {
      CountRun(was, now, n - 1, from, count);
    }
  }

  lemma {:induction false} CountNone(bytes: seq<bv8>, n: nat)
    requires n <= 8 * |bytes|
    ensures FreeBits(bytes, n) == 0 <==> forall i :: 0 <= i < n ==> !Clear(bytes, i)
    decreases n
  {
    hide Clear;
    if n > 0 {
      CountNone(bytes, n - 1);
    }
  }

  lemma SameBits(a: bv8, b: bv8)
    requires forall k :: 0 <= k < 8 ==> ClearIn(a, k) == ClearIn(b, k)
    ensures a == b
  {
    assert ClearIn(a, 0) == ClearIn(b, 0) && ClearIn(a, 1) == ClearIn(b, 1);
    assert ClearIn(a, 2) == ClearIn(b, 2) && ClearIn(a, 3) == ClearIn(b, 3);
    assert ClearIn(a, 4) == ClearIn(b, 4) && ClearIn(a, 5) == ClearIn(b, 5);
    assert ClearIn(a, 6) == ClearIn(b, 6) && ClearIn(a, 7) == ClearIn(b, 7);
  }

  /** A bitmap is determined by its bits. */
  lemma BitsDetermineBytes(a: seq<bv8>, b: seq<bv8>)
    requires |a| == |b| && forall i :: 0 <= i < 8 * |a| ==> Clear(a, i) == Clear(b, i)
    ensures a == b
  {
    forall i | 0 <= i < |a|
      ensures a[i] == b[i]
    {
      forall k | 0 <= k < 8
        ensures ClearIn(a[i], k) == ClearIn(b[i], k)
      {
        assert Clear(a, 8 * i + k) == Clear(b, 8 * i + k);
      }
      SameBits(a[i], b[i]);
    }
  }
}
