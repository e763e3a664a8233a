/** Bytes, fixed-width integers and the big- and little-endian codecs shared by
    every on-disk format, with the outcome type that stands for the error
    returns of the original code. */
module Bytes {

  type byte = x: int | 0 <= x < 256
  type u16 = x: int | 0 <= x < 0x1_0000
  type u32 = x: int | 0 <= x < 0x1_0000_0000

  const U32_LIMIT: int := 0x1_0000_0000
  const BLOCK_SIZE: nat := 4096
  const ROOT_INODE: nat := 2

  /** A whole device block. */
  type Block = b: seq<byte> | |b| == BLOCK_SIZE witness Zeros(BLOCK_SIZE)

  datatype ErrCode =
    | EIO | EINVAL | ENOTSUP | E2BIG | EROFS | EAGAIN | ENOENT | ENOSPC | EFBIG
    | ENOTDIR | EISDIR | ENOTEMPTY | EEXIST | ENODATA

  /** How far a failed commit got. */
  datatype CommitFailure = BeforeCommit | CommitUncertain | CheckpointFailed | TailUpdateFailed

  datatype Option<+T> = None | Some(value: T)

  datatype Result<+T> = Ok(value: T) | Err(code: ErrCode)

  predicate NoDuplicates(s: seq<nat>) {
    forall i, j :: 0 <= i < j < |s| ==> s[i] != s[j]
  }

  function Zeros(n: nat): (z: seq<byte>)
    ensures |z| == n
    ensures forall i :: 0 <= i < n ==> z[i] == 0
  {
    seq(n, i => 0)
  }

  /** `bytes` with `data` written over it at `off`. */
  function Put(bytes: seq<byte>, off: nat, data: seq<byte>): (r: seq<byte>)
    requires off + |data| <= |bytes|
    ensures |r| == |bytes|
    ensures r[off..off + |data|] == data
    ensures r[..off] == bytes[..off]
    ensures r[off + |data|..] == bytes[off + |data|..]
  {
    bytes[..off] + data + bytes[off + |data|..]
  }

  /** A window that the write does not touch keeps its contents. */
  lemma PutElsewhere(bytes: seq<byte>, off: nat, data: seq<byte>, lo: nat, hi: nat)
    requires off + |data| <= |bytes| && lo <= hi <= |bytes|
    requires hi <= off || off + |data| <= lo
    ensures Put(bytes, off, data)[lo..hi] == bytes[lo..hi]
  {
    var r := Put(bytes, off, data);
    forall k | 0 <= k < hi - lo
      ensures r[lo..hi][k] == bytes[lo..hi][k]
    {
      assert r[lo..hi][k] == r[lo + k];
    }
  }

  function Be16(b: seq<byte>, off: nat): u16
    requires off + 2 <= |b|
  {
    (b[off] as int) * 0x100 + b[off + 1] as int
  }

  function Be32(b: seq<byte>, off: nat): u32
    requires off + 4 <= |b|
  {
    Be16(b, off) as int * 0x1_0000 + Be16(b, off + 2) as int
  }

  function Be64(b: seq<byte>, off: nat): nat
    requires off + 8 <= |b|
  {
    Be32(b, off) * 0x1_0000_0000 + Be32(b, off + 4)
  }

  function ToBe16(v: u16): (s: seq<byte>)
    ensures |s| == 2 && Be16(s, 0) == v
  {
    [v / 256, v % 256]
  }

  function ToBe32(v: u32): (s: seq<byte>)
    ensures |s| == 4 && Be32(s, 0) == v
  {
    var high, low := ToBe16(v / 0x1_0000), ToBe16(v % 0x1_0000);
    assert Be16(high + low, 0) == Be16(high, 0) && Be16(high + low, 2) == Be16(low, 0);
    high + low
  }

  /** Reading a 32-bit field only looks at its own four bytes. */
  lemma Be32Window(b: seq<byte>, off: nat, c: seq<byte>, at: nat)
    requires off + 4 <= |b| && at + 4 <= |c|
    requires b[off..off + 4] == c[at..at + 4]
    ensures Be32(b, off) == Be32(c, at)
  {
    var w, x := b[off..off + 4], c[at..at + 4];
    assert w[0] == x[0] && w[1] == x[1] && w[2] == x[2] && w[3] == x[3];
  }

  /** A 32-bit field that was written reads back. */
  lemma Be32Written(b: seq<byte>, off: nat, v: u32)
    requires off + 4 <= |b| && b[off..off + 4] == ToBe32(v)
    ensures Be32(b, off) == v
  {
    Be32Window(b, off, ToBe32(v), 0);
  }

  /** Four bytes are the encoding of the value they decode to. */
  lemma Be32Bytes(b: seq<byte>, off: nat)
    requires off + 4 <= |b|
    ensures b[off..off + 4] == ToBe32(Be32(b, off))
  {
    var high, low := Be16(b, off), Be16(b, off + 2);
    assert high / 256 == b[off] && high % 256 == b[off + 1];
    assert low / 256 == b[off + 2] && low % 256 == b[off + 3];
    assert Be32(b, off) / 0x1_0000 == high && Be32(b, off) % 0x1_0000 == low;
  }

  /** The number that a string of bytes stands for, most significant first. */
  function BigEndian(s: seq<byte>): (n: nat)
    ensures s == [] ==> n == 0
  {
    if s == [] then 0 else BigEndian(s[..|s| - 1]) * 256 + s[|s| - 1] as int
  }

  lemma BigEndian2(s: seq<byte>)
    requires |s| >= 2
    ensures BigEndian(s) == (BigEndian(s[..|s| - 2]) * 256 + s[|s| - 2] as int) * 256 + s[|s| - 1] as int
  {
    assert s[..|s| - 1][..|s| - 2] == s[..|s| - 2];
  }

  /** The fixed-width readers read that number. */
  lemma ReadsBigEndian(b: seq<byte>, off: nat)
    ensures off + 2 <= |b| ==> Be16(b, off) == BigEndian(b[off..off + 2])
    ensures off + 4 <= |b| ==> Be32(b, off) == BigEndian(b[off..off + 4])
    ensures off + 8 <= |b| ==> Be64(b, off) == BigEndian(b[off..off + 8])
  {
    if off + 2 <= |b| {
      BigEndian2(b[off..off + 2]);
    }
    if off + 4 <= |b| {
      BigEndian2(b[off..off + 4]);
      assert b[off..off + 4][..2] == b[off..off + 2];
    }
    if off + 8 <= |b| {
      BigEndian2(b[off..off + 8]);
      assert b[off..off + 8][..6] == b[off..off + 6];
      BigEndian2(b[off..off + 6]);
      assert b[off..off + 6][..4] == b[off..off + 4];
    }
  }

  /** The same, least significant byte first. */
  function LittleEndian(s: seq<byte>): (n: nat)
    ensures s == [] ==> n == 0
  {
    if s == [] then 0 else s[0] as int + LittleEndian(s[1..]) * 256
  }

  lemma LittleEndian2(s: seq<byte>)
    requires |s| >= 2
    ensures LittleEndian(s) == s[0] as int + (s[1] as int + LittleEndian(s[2..]) * 256) * 256
  {
    assert s[1..][1..] == s[2..];
  }

  lemma ReadsLittleEndian(b: seq<byte>, off: nat)
    ensures off + 2 <= |b| ==> Le16(b, off) == LittleEndian(b[off..off + 2])
    ensures off + 4 <= |b| ==> Le32(b, off) == LittleEndian(b[off..off + 4])
  {
    if off + 2 <= |b| {
      LittleEndian2(b[off..off + 2]);
    }
    if off + 4 <= |b| {
      LittleEndian2(b[off..off + 4]);
      assert b[off..off + 4][2..] == b[off + 2..off + 4];
      LittleEndian2(b[off + 2..off + 4]);
    }
  }

  function Le16(b: seq<byte>, off: nat): u16
    requires off + 2 <= |b|
  {
    b[off] as int + (b[off + 1] as int) * 0x100
  }

  function ToLe16(v: u16): (s: seq<byte>)
    ensures |s| == 2 && Le16(s, 0) == v
  {
    [v % 256, v / 256]
  }

  function Le32(b: seq<byte>, off: nat): u32
    requires off + 4 <= |b|
  {
    Le16(b, off) as int + Le16(b, off + 2) as int * 0x1_0000
  }

  function ToLe32(v: u32): (s: seq<byte>)
    ensures |s| == 4 && Le32(s, 0) == v
  {
    var low, high := ToLe16(v % 0x1_0000), ToLe16(v / 0x1_0000);
    assert Le16(low + high, 0) == Le16(low, 0) && Le16(low + high, 2) == Le16(high, 0);
    low + high
  }

  /** Little-endian bytes are the encoding of the value they decode to. */
  lemma Le16Bytes(b: seq<byte>, off: nat)
    requires off + 2 <= |b|
    ensures b[off..off + 2] == ToLe16(Le16(b, off))
  {
    var v := Le16(b, off);
    assert v % 256 == b[off] && v / 256 == b[off + 1];
  }

  lemma Le32Bytes(b: seq<byte>, off: nat)
    requires off + 4 <= |b|
    ensures b[off..off + 4] == ToLe32(Le32(b, off))
  {
    var low, high := Le16(b, off), Le16(b, off + 2);
    Le16Bytes(b, off);
    Le16Bytes(b, off + 2);
    assert Le32(b, off) % 0x1_0000 == low && Le32(b, off) / 0x1_0000 == high;
    assert b[off..off + 4] == b[off..off + 2] + b[off + 2..off + 4];
  }

  /** Overwrite part of a buffer. */
  method CopyInto(buffer: array<byte>, off: nat, data: seq<byte>)
    requires off + |data| <= buffer.Length
    modifies buffer
    ensures buffer[..] == Put(old(buffer[..]), off, data)
  {
    for i := 0 to |data|
      invariant buffer[..] == Put(old(buffer[..]), off, data[..i])
    {
      buffer[off + i] := data[i];
      assert data[..i + 1] == data[..i] + [data[i]];
    }
    assert data[..|data|] == data;
  }

  /** Move a window of a buffer; the two may overlap. */
  method CopyWithin(buffer: array<byte>, from: nat, to: nat, dst: nat)
    requires from <= to <= buffer.Length && dst + (to - from) <= buffer.Length
    modifies buffer
    ensures buffer[..] == Put(old(buffer[..]), dst, old(buffer[from..to]))
  {
    CopyInto(buffer, dst, buffer[from..to]);
  }

  method FillZero(buffer: array<byte>, from: nat, to: nat)
    requires from <= to <= buffer.Length
    modifies buffer
    ensures buffer[..] == Put(old(buffer[..]), from, Zeros(to - from))
  {
    CopyInto(buffer, from, Zeros(to - from));
  }

  /** Overwriting the middle of three parts. */
  lemma PutMiddle(a: seq<byte>, b: seq<byte>, c: seq<byte>, data: seq<byte>)
    requires |data| == |b|
    ensures Put(a + b + c, |a|, data) == a + data + c
  {
    assert (a + b + c)[..|a|] == a && (a + b + c)[|a| + |b|..] == c;
  }

  lemma ZerosSplit(n: nat, k: nat)
    requires k <= n
    ensures Zeros(n) == Zeros(k) + Zeros(n - k)
  {
  }
}
