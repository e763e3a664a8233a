/** An extended-attribute block edited in place.  Entries and values are moved
    with overlapping copies; the block always reads as a sorted map. */
module XattrBlock {
  import opened Bytes
  import opened XattrLayout

  /** What one table entry says. */
  datatype Stored = Stored(key: Key, offset: u16, size: u32)

  function ReadEntry(bytes: seq<byte>, off: nat): Stored
    requires off + ENTRY_FIXED_BYTES <= |bytes| && off + ENTRY_FIXED_BYTES + bytes[off] <= |bytes|
  {
    Stored(Key(bytes[off + 1], bytes[off + ENTRY_FIXED_BYTES..off + ENTRY_FIXED_BYTES + bytes[off]]),
           Le16(bytes, off + 2), Le32(bytes, off + 8))
  }

  // ---- Reading ---------------------------------------------------------------

  lemma Le16Window(b: seq<byte>, off: nat, v: u16)
    requires off + 2 <= |b| && b[off..off + 2] == ToLe16(v)
    ensures Le16(b, off) == v
  {
    var w := b[off..off + 2];
    assert w[0] == b[off] && w[1] == b[off + 1];
  }

  lemma Le32Window(b: seq<byte>, off: nat, v: u32)
    requires off + 4 <= |b| && b[off..off + 4] == ToLe32(v)
    ensures Le32(b, off) == v
  {
    var w := b[off..off + 4];
    assert w[0] == b[off] && w[1] == b[off + 1] && w[2] == b[off + 2] && w[3] == b[off + 3];
  }

  lemma SubWindow(b: seq<byte>, off: nat, n: nat, lo: nat, hi: nat)
    requires off + n <= |b| && lo <= hi <= n
    ensures b[off..off + n][lo..hi] == b[off + lo..off + hi]
  {
    var w := b[off..off + n];
    forall i | 0 <= i < hi - lo
      ensures w[lo..hi][i] == b[off + lo..off + hi][i]
    {
      assert w[lo..hi][i] == w[lo + i];
    }
  }

  /** An entry that was written reads back. */
  lemma EntryRoundTrip(bytes: seq<byte>, off: nat, key: Key, offset: u16, size: u32)
    requires Storable(key) && off + EntrySize(key) <= |bytes|
    requires bytes[off..off + EntrySize(key)] == EntryBytes(key, offset, size)
    ensures bytes[off] == |key.suffix| && off + ENTRY_FIXED_BYTES + bytes[off] <= |bytes|
    ensures ReadEntry(bytes, off) == Stored(key, offset, size)
  {
    var e := EntryBytes(key, offset, size);
    var n := |key.suffix|;
    FixedFields(key, offset, size);
    var fixed := FixedPart(key, offset, size);
    assert e[..ENTRY_FIXED_BYTES] == fixed;
    forall lo, hi | 0 <= lo <= hi <= |e|
      ensures bytes[off + lo..off + hi] == e[lo..hi]
    {
      SubWindow(bytes, off, |e|, lo, hi);
    }
    assert bytes[off..off + 2] == e[0..2] == fixed[0..2];
    assert bytes[off] == bytes[off..off + 2][0] && bytes[off + 1] == bytes[off..off + 2][1];
    assert bytes[off + 2..off + 4] == e[2..4] == fixed[2..4];
    assert bytes[off + 8..off + 12] == e[8..12] == fixed[8..12];
    Le16Window(bytes, off + 2, offset);
    Le32Window(bytes, off + 8, size);
    assert e[ENTRY_FIXED_BYTES..ENTRY_FIXED_BYTES + n] == key.suffix;
    assert bytes[off + ENTRY_FIXED_BYTES..off + (ENTRY_FIXED_BYTES + n)] == key.suffix;
  }

  lemma FixedFields(key: Key, offset: u16, size: u32)
    requires Storable(key)
    ensures var f := FixedPart(key, offset, size);
            f[0..2] == [|key.suffix|, key.index] && f[2..4] == ToLe16(offset) && f[8..12] == ToLe32(size)
  {
  }

  /** The block around a split of its attributes. */
  lemma SplitLayout(header: Header, left: seq<Attr>, right: seq<Attr>, blank: seq<byte>)
    requires Fits(left + right) && |blank| == Gap(left + right)
    ensures Fits(left) && Fits(right) && ValueBytes(left + right) == ValueBytes(left) + ValueBytes(right)
    ensures TableBytes(left + right) == TableBytes(left) + TableBytes(right)
    ensures Layout(header, left + right, blank)
            == header + Table(left, BLOCK_SIZE) + Table(right, BLOCK_SIZE - ValueBytes(left))
               + blank + Values(right) + Values(left)
  {
    hide Table;
    hide Values;
    hide AllStorable;
    SizesConcat(left, right);
    StorableConcat(left, right);
    TableConcat(left, right, BLOCK_SIZE);
    ValuesConcat(left, right);
    Join(header, Table(left, BLOCK_SIZE), Table(right, BLOCK_SIZE - ValueBytes(left)));
    Join(header + Table(left + right, BLOCK_SIZE) + blank, Values(right), Values(left));
  }

  lemma WindowAt(a: seq<byte>, b: seq<byte>, c: seq<byte>)
    ensures (a + b + c)[|a|..|a| + |b|] == b
  {
  }

  lemma AroundSizes(left: seq<Attr>, a: Attr, right: seq<Attr>)
    requires Fits(left + [a] + right)
    ensures Fits(left) && AllStorable(left) && AllStorable(right) && Storable(a.key) && Gap(left + [a] + right) > 0
    ensures XATTR_HEADER_BYTES + TableBytes(left) + EntrySize(a.key) < BLOCK_SIZE - ValueBytes(left)
    ensures ValueBytes(left) + |a.value| + ValueBytes(right) <= BLOCK_SIZE
  {
    hide AllStorable;
    hide EntrySize;
    SizesConcat(left + [a], right);
    SizesConcat(left, [a]);
    OneSize(a);
    StorableConcat(left + [a], right);
    StorableConcat(left, [a]);
    OneStorable(a);
  }

  /** The block as seen from one attribute. */
  lemma AroundEntry(header: Header, left: seq<Attr>, a: Attr, right: seq<Attr>, blank: seq<byte>)
    requires Fits(left + [a] + right) && |blank| == Gap(left + [a] + right)
    ensures Fits(left) && AllStorable(right) && Storable(a.key)
    ensures XATTR_HEADER_BYTES + TableBytes(left) + EntrySize(a.key) < BLOCK_SIZE - ValueBytes(left)
    ensures ValueBytes(left) + |a.value| + ValueBytes(right) <= BLOCK_SIZE
    ensures var top := BLOCK_SIZE - ValueBytes(left);
            Layout(header, left + [a] + right, blank)
            == header + Table(left, BLOCK_SIZE) + EntryBytes(a.key, top - |a.value|, |a.value|)
               + (Table(right, top - |a.value|) + (blank + Values(right) + a.value + Values(left)))
  {
    hide Table;
    hide Values;
    hide EntryBytes;
    hide AllStorable;
    hide EntrySize;
    hide Layout;
    hide Fits;
    hide Gap;
    hide ValueBytes;
    hide TableBytes;
    AroundSizes(left, a, right);
    AttrsRegroup(left, a, right);
    SplitLayout(header, left, [a] + right, blank);
    var top := BLOCK_SIZE - ValueBytes(left);
    FirstEntry(a, right, top);
    EntryInside(Layout(header, left + [a] + right, blank), header, Table(left, BLOCK_SIZE), Table([a] + right, top),
                blank, Values([a] + right), Values(left),
                EntryBytes(a.key, top - |a.value|, |a.value|), Table(right, top - |a.value|), Values(right), a.value);
  }

  lemma FirstEntry(a: Attr, right: seq<Attr>, top: nat)
    requires Storable(a.key) && AllStorable(right) && |a.value| + ValueBytes(right) <= top <= BLOCK_SIZE
    ensures AllStorable([a] + right) && ValueBytes([a] + right) == |a.value| + ValueBytes(right)
    ensures Table([a] + right, top) == EntryBytes(a.key, top - |a.value|, |a.value|) + Table(right, top - |a.value|)
    ensures Values([a] + right) == Values(right) + a.value
  {
    hide EntryBytes;
    OneStorable(a);
    StorableConcat([a], right);
    SizesConcat([a], right);
    OneAttr(a, top);
    TableUnfolds(a, right, top);
    ValuesConcat([a], right);
  }

  lemma EntryInside(b: seq<byte>, h: seq<byte>, tl: seq<byte>, tr: seq<byte>, z: seq<byte>, v: seq<byte>, vl: seq<byte>,
                    e: seq<byte>, t: seq<byte>, vr: seq<byte>, x: seq<byte>)
    requires b == h + tl + tr + z + v + vl && tr == e + t && v == vr + x
    ensures b == h + tl + e + (t + (z + vr + x + vl))
  {
    EntryAndValueRegroup(h + tl, e, t, z, vr, x, vl);
  }

  lemma AttrsRegroup(left: seq<Attr>, a: Attr, right: seq<Attr>)
    ensures left + [a] + right == left + ([a] + right)
  {
  }

  lemma EntryAndValueRegroup(p: seq<byte>, e: seq<byte>, t: seq<byte>, z: seq<byte>, vr: seq<byte>, v: seq<byte>,
                             vl: seq<byte>)
    ensures p + (e + t) + z + (vr + v) + vl == p + e + (t + (z + vr + v + vl))
  {
  }

  /** The table entry and the value of the attribute behind `left`. */
  lemma AtEntry(header: Header, left: seq<Attr>, a: Attr, right: seq<Attr>, blank: seq<byte>)
    requires Fits(left + [a] + right) && |blank| == Gap(left + [a] + right)
    ensures Storable(a.key)
    ensures var bytes := Layout(header, left + [a] + right, blank);
            var off := XATTR_HEADER_BYTES + TableBytes(left);
            var top := BLOCK_SIZE - ValueBytes(left);
            && off + EntrySize(a.key) < BLOCK_SIZE && |a.value| <= top
            && bytes[off] == |a.key.suffix| && off + ENTRY_FIXED_BYTES + bytes[off] <= |bytes|
            && bytes[off..off + EntrySize(a.key)] == EntryBytes(a.key, top - |a.value|, |a.value|)
            && ReadEntry(bytes, off) == Stored(a.key, top - |a.value|, |a.value|)
            && bytes[top - |a.value|..top] == a.value
  {
    hide Table;
    hide Values;
    hide EntryBytes;
    hide AllStorable;
    hide ReadEntry;
    hide EntrySize;
    hide Layout;
    AroundEntry(header, left, a, right, blank);
    var top := BLOCK_SIZE - ValueBytes(left);
    var pre, entry := header + Table(left, BLOCK_SIZE), EntryBytes(a.key, top - |a.value|, |a.value|);
    var tail := blank + Values(right);
    var table := Table(right, top - |a.value|);
    var bytes := Layout(header, left + [a] + right, blank);
    WindowAt(pre, entry, table + (tail + a.value + Values(left)));
    EntryRoundTrip(bytes, |pre|, a.key, top - |a.value|, |a.value|);
    ValueLast(pre + entry, table, tail, a.value, Values(left));
    assert |bytes| == BLOCK_SIZE;
  }

  lemma ValueLast(p: seq<byte>, t: seq<byte>, z: seq<byte>, v: seq<byte>, vl: seq<byte>)
    ensures var b := p + (t + (z + v + vl));
            b[|b| - |vl| - |v|..|b| - |vl|] == v
  {
  }

  lemma OneStorable(a: Attr)
    ensures AllStorable([a]) <==> Storable(a.key)
  {
    assert a in [a];
  }

  /** What comes behind the table. */
  lemma AtEnd(header: Header, attrs: seq<Attr>, blank: seq<byte>)
    requires Fits(attrs) && |blank| == Gap(attrs)
    ensures var end := XATTR_HEADER_BYTES + TableBytes(attrs);
            && end + |blank| <= BLOCK_SIZE && blank != []
            && Layout(header, attrs, blank)[end..end + |blank|] == blank
            && Layout(header, attrs, blank)[end] == blank[0]
  {
    hide Table;
    hide Values;
    var pre := header + Table(attrs, BLOCK_SIZE);
    var bytes := Layout(header, attrs, blank);
    WindowAt(pre, blank, Values(attrs));
    assert bytes[|pre|] == bytes[|pre|..|pre| + |blank|][0];
  }

  // ---- Moving ----------------------------------------------------------------

  lemma FourPartsRegroup(a: seq<byte>, b: seq<byte>, c: seq<byte>, d: seq<byte>)
    ensures a + b + c + d == a + (b + c) + d == a + (b + c + d) == a + b + (c + d)
  {
  }

  lemma Regroup(a: seq<byte>, n: nat)
    requires n <= |a|
    ensures a == a[..n] + a[n..]
  {
  }

  /** Move `m` from behind `p` to behind `x`, then clear what it left. */
  lemma MoveUp(p: seq<byte>, m: seq<byte>, x: seq<byte>, s: seq<byte>, fill: seq<byte>)
    requires |fill| == |x|
    ensures var b := p + m + x + s;
            && b[|p|..|p| + |m|] == m
            && Put(Put(b, |p| + |x|, m), |p|, fill) == p + fill + m + s
  {
    hide Put;
    var mx := m + x;
    var a, c := mx[..|x|], mx[|x|..];
    Regroup(mx, |x|);
    FourPartsRegroup(p, m, x, s);
    FourPartsRegroup(p, a, c, s);
    WindowAt(p, m, x + s);
    PutMiddle(p + a, c, s, m);
    FourPartsRegroup(p, a, m, s);
    PutMiddle(p, a, m + s, fill);
    FourPartsRegroup(p, fill, m, s);
  }

  /** Move `m` from behind `x` to behind `p`, then clear what it left. */
  lemma MoveDown(p: seq<byte>, x: seq<byte>, m: seq<byte>, s: seq<byte>, fill: seq<byte>)
    requires |fill| == |x|
    ensures var b := p + x + m + s;
            && b[|p| + |x|..|p| + |x| + |m|] == m
            && Put(Put(b, |p|, m), |p| + |m|, fill) == p + m + fill + s
  {
    hide Put;
    var xm := x + m;
    var a, c := xm[..|m|], xm[|m|..];
    Regroup(xm, |m|);
    FourPartsRegroup(p, x, m, s);
    FourPartsRegroup(p, a, c, s);
    WindowAt(p + x, m, s);
    PutMiddle(p, a, c + s, m);
    FourPartsRegroup(p, m, c, s);
    PutMiddle(p + m, c, s, fill);
  }

  /** Open a hole of `k` bytes in front of `m` by moving it up into the blank. */
  lemma OpenUp(p: seq<byte>, m: seq<byte>, blank: seq<byte>, s: seq<byte>, k: nat)
    requires k <= |blank|
    ensures var b := p + m + blank + s;
            && b[|p|..|p| + |m|] == m
            && Put(Put(b, |p| + k, m), |p|, Zeros(k)) == p + Zeros(k) + m + blank[k..] + s
  {
    hide Put;
    var x, rest := blank[..k], blank[k..];
    Regroup(blank, k);
    FourPartsRegroup(p + m, x, rest, s);
    MoveUp(p, m, x, rest + s, Zeros(k));
    FourPartsRegroup(p + Zeros(k), m, rest, s);
  }

  /** Open a hole of `k` bytes behind `m` by moving it down into the blank. */
  lemma OpenDown(p: seq<byte>, blank: seq<byte>, m: seq<byte>, s: seq<byte>, k: nat)
    requires k <= |blank|
    ensures var b := p + blank + m + s;
            var g := |blank|;
            && b[|p| + g..|p| + g + |m|] == m
            && Put(Put(b, |p| + g - k, m), |p| + g - k + |m|, Zeros(k)) == p + blank[..g - k] + m + Zeros(k) + s
  {
    hide Put;
    var rest, x := blank[..|blank| - k], blank[|blank| - k..];
    Regroup(blank, |blank| - k);
    Join(p, rest, x);
    MoveDown(p + rest, x, m, s, Zeros(k));
  }

  /** Close the hole `x` by moving `m` down over it. */
  lemma CloseUp(p: seq<byte>, x: seq<byte>, m: seq<byte>, blank: seq<byte>, s: seq<byte>)
    ensures var b := p + x + m + blank + s;
            var k := |x|;
            && b[|p| + k..|p| + k + |m|] == m
            && Put(Put(b, |p|, m), |p| + |m|, Zeros(k)) == p + m + (Zeros(k) + blank) + s
  {
    hide Put;
    FourPartsRegroup(p + x, m, blank, s);
    MoveDown(p, x, m, blank + s, Zeros(|x|));
    FourPartsRegroup(p + m, Zeros(|x|), blank, s);
  }

  /** Close the hole `x` by moving `m` up over it. */
  lemma CloseDown(p: seq<byte>, blank: seq<byte>, m: seq<byte>, x: seq<byte>, s: seq<byte>)
    ensures var b := p + blank + m + x + s;
            var k, g := |x|, |blank|;
            && b[|p| + g..|p| + g + |m|] == m
            && Put(Put(b, |p| + g + k, m), |p| + g, Zeros(k)) == p + (blank + Zeros(k)) + m + s
  {
    hide Put;
    MoveUp(p + blank, m, x, s, Zeros(|x|));
    Join(p, blank, Zeros(|x|));
  }

  lemma OpenUpAt(b: seq<byte>, from: nat, to: nat, dst: nat, clear: nat, k: nat, p: seq<byte>, m: seq<byte>,
                 blank: seq<byte>, s: seq<byte>)
    requires b == p + m + blank + s && from == |p| && to == from + |m| && dst == from + k && clear == from
             && k <= |blank|
    ensures to <= |b| && dst + (to - from) <= |b| && clear + k <= |b|
    ensures Put(Put(b, dst, b[from..to]), clear, Zeros(k)) == p + Zeros(k) + m + blank[k..] + s
  {
    hide Put;
    OpenUp(p, m, blank, s, k);
  }

  lemma OpenDownAt(b: seq<byte>, from: nat, to: nat, dst: nat, clear: nat, k: nat, p: seq<byte>, blank: seq<byte>,
                   m: seq<byte>, s: seq<byte>)
    requires b == p + blank + m + s && from == |p| + |blank| && to == from + |m| && dst + k == from && clear + k == to
             && k <= |blank|
    ensures to <= |b| && dst + (to - from) <= |b| && clear + k <= |b|
    ensures Put(Put(b, dst, b[from..to]), clear, Zeros(k)) == p + blank[..|blank| - k] + m + Zeros(k) + s
  {
    hide Put;
    OpenDown(p, blank, m, s, k);
  }

  lemma CloseUpAt(b: seq<byte>, from: nat, to: nat, dst: nat, clear: nat, k: nat, p: seq<byte>, x: seq<byte>,
                  m: seq<byte>, blank: seq<byte>, s: seq<byte>)
    requires b == p + x + m + blank + s && k == |x| && dst == |p| && from == dst + k && to == from + |m|
             && clear + k == to
    ensures to <= |b| && dst + (to - from) <= |b| && clear + k <= |b|
    ensures Put(Put(b, dst, b[from..to]), clear, Zeros(k)) == p + m + (Zeros(k) + blank) + s
  {
    hide Put;
    CloseUp(p, x, m, blank, s);
  }

  lemma CloseDownAt(b: seq<byte>, from: nat, to: nat, dst: nat, clear: nat, k: nat, p: seq<byte>, blank: seq<byte>,
                    m: seq<byte>, x: seq<byte>, s: seq<byte>)
    requires b == p + blank + m + x + s && k == |x| && from == |p| + |blank| && to == from + |m| && dst == from + k
             && clear == from
    ensures to <= |b| && dst + (to - from) <= |b| && clear + k <= |b|
    ensures Put(Put(b, dst, b[from..to]), clear, Zeros(k)) == p + (blank + Zeros(k)) + m + s
  {
    hide Put;
    CloseDown(p, blank, m, x, s);
  }

  /** Rewriting the fixed part and the name of an entry leaves its padding. */
  lemma RewriteEntry(p: seq<byte>, key: Key, was: u16, now: u16, size: u32, s: seq<byte>)
    requires Storable(key)
    ensures Put(p + EntryBytes(key, was, size) + s, |p|, FixedPart(key, now, size) + key.suffix)
            == p + EntryBytes(key, now, size) + s
  {
    hide FixedPart;
    var pad := Zeros(EntrySize(key) - ENTRY_FIXED_BYTES - |key.suffix|);
    var old_ := FixedPart(key, was, size) + key.suffix;
    assert p + EntryBytes(key, was, size) + s == p + old_ + (pad + s);
    PutMiddle(p, old_, pad + s, FixedPart(key, now, size) + key.suffix);
    assert p + (FixedPart(key, now, size) + key.suffix) + (pad + s) == p + EntryBytes(key, now, size) + s;
  }

  /** Writing an entry into zeros. */
  lemma WriteEntry(p: seq<byte>, key: Key, offset: u16, size: u32, s: seq<byte>)
    requires Storable(key)
    ensures Put(p + Zeros(EntrySize(key)) + s, |p|, FixedPart(key, offset, size) + key.suffix)
            == p + EntryBytes(key, offset, size) + s
  {
    hide FixedPart;
    var n := ENTRY_FIXED_BYTES + |key.suffix|;
    ZerosSplit(EntrySize(key), n);
    var pad := Zeros(EntrySize(key) - n);
    assert p + Zeros(EntrySize(key)) + s == p + Zeros(n) + (pad + s);
    PutMiddle(p, Zeros(n), pad + s, FixedPart(key, offset, size) + key.suffix);
    assert p + (FixedPart(key, offset, size) + key.suffix) + (pad + s) == p + EntryBytes(key, offset, size) + s;
  }

  // ---- The block -------------------------------------------------------------------

  class XattrBlock {
    const data: array<byte>
    ghost var header: Header
    ghost var attrs: seq<Attr>
    ghost var blank: seq<byte>     // between table and values

    /** What the fields say is in the block, but scans may run on behind the
        table. */
    ghost predicate Laid()
      reads this, data
    {
      && data.Length == BLOCK_SIZE
      && Fits(attrs) && |blank| == Gap(attrs) && InOrder(attrs) && Named(attrs)
      && data[..] == Layout(header, attrs, blank)
    }

    ghost predicate Valid()
      reads this, data
    {
      Laid() && Ends(blank)
    }

    constructor (data: array<byte>, ghost header: Header, ghost attrs: seq<Attr>, ghost blank: seq<byte>)
      requires data.Length == BLOCK_SIZE && Fits(attrs) && |blank| == Gap(attrs) && InOrder(attrs) && Named(attrs)
      requires data[..] == Layout(header, attrs, blank) && Ends(blank)
      ensures Valid() && this.data == data && this.attrs == attrs && this.header == header && this.blank == blank
    {
      this.data := data;
      this.header := header;
      this.attrs := attrs;
      this.blank := blank;
    }

    /** A fresh block: one reference, one block, no attribute. */
    method Init()
      requires data.Length == BLOCK_SIZE
      modifies this, data
      ensures Valid() && attrs == [] && Clear(blank)
      ensures header == NewHeader()
    {
      FillZero(data, 0, BLOCK_SIZE);
      CopyInto(data, 0, NewHeader());
      header, attrs, blank := NewHeader(), [], Zeros(BLOCK_SIZE - XATTR_HEADER_BYTES);
      EmptyLayout(NewHeader());
    }

    /** Look a name up. */
    method Get(name: seq<byte>) returns (r: Option<seq<byte>>)
      requires Valid()
      ensures var key := MatchName(name);
              r == if key in AsMap(attrs) then Some(AsMap(attrs)[key]) else None
    {
      hide Layout;
      hide AsMap;
      hide Fits;
      hide InOrder;
      hide MatchName;
      hide Compare;
      hide TableBytes;
      hide ValueBytes;
      hide ReadEntry;
      hide EntrySize;
      hide EntryBytes;
      var key := MatchName(name);
      var p := XATTR_HEADER_BYTES;
      ghost var i := 0;
      StartOfTable(attrs);
      AsMapKeys(attrs, key);
      while p < BLOCK_SIZE
        invariant 0 <= i <= |attrs| && p == XATTR_HEADER_BYTES + TableBytes(attrs[..i]) < BLOCK_SIZE
        invariant forall j :: 0 <= j < i ==> attrs[j].key != key
        decreases |attrs| - i
      {
        if i == |attrs| {
          AtEnd(header, attrs, blank);
          assert attrs[..i] == attrs;
        } else {
          NextEntry(header, attrs, blank, i);
          CompareOrder(attrs[i].key, key, key);
        }
        assert data[p] == data[..][p];
        if data[p] == 0 {
          break;
        }
        var entry := ReadEntry(data[..], p);
        if Compare(entry.key, key).Equal? {
          AsMapAt(attrs, i);
          return Some(data[entry.offset..entry.offset + entry.size]);
        }
        p := p + EntrySize(entry.key);
        i := i + 1;
      }
      return None;
    }

    /** All names, in table order. */
    method List() returns (names: seq<seq<byte>>)
      requires Valid()
      ensures |names| == |attrs|
      ensures forall i :: 0 <= i < |names| ==> names[i] == EntryName(attrs[i].key)
    {
      hide Layout;
      hide Fits;
      hide InOrder;
      hide TableBytes;
      hide ValueBytes;
      hide ReadEntry;
      hide EntrySize;
      hide EntryBytes;
      hide EntryName;
      var p := XATTR_HEADER_BYTES;
      names := [];
      StartOfTable(attrs);
      while p < BLOCK_SIZE
        invariant |names| <= |attrs| && p == XATTR_HEADER_BYTES + TableBytes(attrs[..|names|]) < BLOCK_SIZE
        invariant forall i :: 0 <= i < |names| ==> names[i] == EntryName(attrs[i].key)
        decreases |attrs| - |names|
      {
        if |names| == |attrs| {
          AtEnd(header, attrs, blank);
          assert attrs[..|names|] == attrs;
        } else {
          NextEntry(header, attrs, blank, |names|);
        }
        assert data[p] == data[..][p];
        if data[p] == 0 {
          break;
        }
        var entry := ReadEntry(data[..], p);
        names := names + [EntryName(entry.key)];
        p := p + EntrySize(entry.key);
      }
    }

    /** Where a new name belongs, and where table and values end. */
    method Place(key: Key) returns (insEntry: nat, insValue: nat, endEntry: nat, endValue: nat, ghost i: nat)
      requires Valid()
      ensures i <= |attrs|
      ensures forall j :: 0 <= j < i ==> !Compare(attrs[j].key, key).Greater?
      ensures i < |attrs| ==> Compare(attrs[i].key, key).Greater?
      ensures insEntry == XATTR_HEADER_BYTES + TableBytes(attrs[..i]) && insValue == BLOCK_SIZE - ValueBytes(attrs[..i])
      ensures endEntry == XATTR_HEADER_BYTES + TableBytes(attrs) && endValue == BLOCK_SIZE - ValueBytes(attrs)
    {
      hide Layout;
      hide Fits;
      hide InOrder;
      hide Compare;
      hide TableBytes;
      hide ValueBytes;
      hide ReadEntry;
      hide EntrySize;
      hide EntryBytes;
      endEntry, endValue := XATTR_HEADER_BYTES, BLOCK_SIZE;
      insEntry, insValue, i := endEntry, endValue, 0;
      var found := false;
      ghost var k: nat := 0;
      StartOfTable(attrs);
      while endEntry < BLOCK_SIZE
        invariant k <= |attrs|
        invariant endEntry == XATTR_HEADER_BYTES + TableBytes(attrs[..k]) < BLOCK_SIZE
        invariant endValue == BLOCK_SIZE - ValueBytes(attrs[..k])
        invariant i <= k && (!found ==> forall j :: 0 <= j < k ==> !Compare(attrs[j].key, key).Greater?)
        invariant found ==>
                    && i < |attrs| && Compare(attrs[i].key, key).Greater?
                    && (forall j :: 0 <= j < i ==> !Compare(attrs[j].key, key).Greater?)
                    && insEntry == XATTR_HEADER_BYTES + TableBytes(attrs[..i])
                    && insValue == BLOCK_SIZE - ValueBytes(attrs[..i])
        decreases |attrs| - k
      {
        if k == |attrs| {
          AtEnd(header, attrs, blank);
          assert attrs[..k] == attrs;
        } else {
          NextEntry(header, attrs, blank, k);
        }
        assert data[endEntry] == data[..][endEntry];
        if data[endEntry] == 0 {
          break;
        }
        var entry := ReadEntry(data[..], endEntry);
        if !found && Compare(entry.key, key).Greater? {
          insEntry, insValue, found, i := endEntry, endValue, true, k;
        }
        endValue := entry.offset;
        endEntry := endEntry + EntrySize(entry.key);
        k := k + 1;
      }
      if !found {
        insEntry, insValue, i := endEntry, endValue, k;
      }
    }

    /** Where a name is stored. */
    method Locate(key: Key) returns (found: bool, remEntry: nat, remValue: nat, remEntrySize: nat, remValueSize: nat,
                                     endEntry: nat, endValue: nat, ghost i: nat)
      requires Valid()
      ensures found <==> key in AsMap(attrs)
      ensures found ==>
                && i < |attrs| && attrs[i].key == key && (forall j :: 0 <= j < i ==> attrs[j].key != key)
                && remEntry == XATTR_HEADER_BYTES + TableBytes(attrs[..i])
                && remValue == BLOCK_SIZE - ValueBytes(attrs[..i]) - |attrs[i].value|
                && remEntrySize == EntrySize(key) && remValueSize == |attrs[i].value|
      ensures endEntry == XATTR_HEADER_BYTES + TableBytes(attrs) && endValue == BLOCK_SIZE - ValueBytes(attrs)
    {
      hide Layout;
      hide AsMap;
      hide Fits;
      hide InOrder;
      hide Compare;
      hide TableBytes;
      hide ValueBytes;
      hide ReadEntry;
      hide EntrySize;
      hide EntryBytes;
      endEntry, endValue := XATTR_HEADER_BYTES, BLOCK_SIZE;
      found, remEntry, remValue, remEntrySize, remValueSize, i := false, endEntry, endValue, 0, 0, 0;
      ghost var k: nat := 0;
      StartOfTable(attrs);
      AsMapKeys(attrs, key);
      while endEntry < BLOCK_SIZE
        invariant k <= |attrs|
        invariant endEntry == XATTR_HEADER_BYTES + TableBytes(attrs[..k]) < BLOCK_SIZE
        invariant endValue == BLOCK_SIZE - ValueBytes(attrs[..k])
        invariant !found ==> forall j :: 0 <= j < k ==> attrs[j].key != key
        invariant found ==>
                    && i < |attrs| && attrs[i].key == key && (forall j :: 0 <= j < i ==> attrs[j].key != key)
                    && remEntry == XATTR_HEADER_BYTES + TableBytes(attrs[..i])
                    && remValue == BLOCK_SIZE - ValueBytes(attrs[..i]) - |attrs[i].value|
                    && remEntrySize == EntrySize(key) && remValueSize == |attrs[i].value|
        decreases |attrs| - k
      {
        if k == |attrs| {
          AtEnd(header, attrs, blank);
          assert attrs[..k] == attrs;
        } else {
          NextEntry(header, attrs, blank, k);
          CompareOrder(attrs[k].key, key, key);
        }
        assert data[endEntry] == data[..][endEntry];
        if data[endEntry] == 0 {
          break;
        }
        var entry := ReadEntry(data[..], endEntry);
        endValue := entry.offset;
        if !found && Compare(entry.key, key).Equal? {
          remEntry, remValue, remEntrySize, remValueSize := endEntry, endValue, EntrySize(entry.key), entry.size;
          found, i := true, k;
        }
        endEntry := endEntry + EntrySize(entry.key);
        k := k + 1;
      }
    }

    /** Adjust the value offsets of a run of entries. */
    method ShiftOffsets(from: nat, to: nat, delta: int, ghost pre: seq<byte>, ghost moved: seq<Attr>, ghost top: nat,
                        ghost post: seq<byte>)
      requires data.Length == BLOCK_SIZE && AllStorable(moved)
      requires ValueBytes(moved) <= top <= BLOCK_SIZE && ValueBytes(moved) <= top + delta <= BLOCK_SIZE
      requires |pre| == from && to == from + TableBytes(moved)
      requires data[..] == pre + Table(moved, top) + post
      modifies data
      ensures data[..] == pre + Table(moved, top + delta) + post
    {
      hide Table;
      hide TableBytes;
      hide ValueBytes;
      hide AllStorable;
      hide ReadEntry;
      hide EntrySize;
      hide EntryBytes;
      hide FixedPart;
      hide Shifting;
      var p := from;
      ghost var k: nat := 0;
      ShiftingStart(pre, moved, top, delta, post);
      while p < to
        invariant k <= |moved| && p == from + TableBytes(moved[..k])
        invariant data[..] == Shifting(pre, moved, top, delta, post, k)
        decreases |moved| - k
      {
        ShiftingEntry(pre, moved, top, delta, post, k);
        var entry := ReadEntry(data[..], p);
        CopyInto(data, p, FixedPart(entry.key, entry.offset + delta, entry.size) + entry.key.suffix);
        p := p + EntrySize(entry.key);
        k := k + 1;
      }
      ShiftingEnd(pre, moved, top, delta, post, k);
    }

    /** Insert a name, without looking whether it is there.  Without room
        nothing changes.  With room, a new name gets its binding and an old one
        keeps the one it has.  A name that is nothing but a prefix is not found,
        and hides all names that come after it: from then on they are part of
        the blank area.  The next insertion cuts off both of its ends, so that
        scans run on into what is left, unless that begins with a zero. */
    method Insert(name: seq<byte>, value: seq<byte>) returns (ok: bool)
      requires Valid() && Storable(MatchName(name))
      modifies this`attrs, this`blank, data
      ensures header == old(header) && Laid()
      ensures ok <==> EntrySize(MatchName(name)) + |value| < |old(blank)|
      ensures ok ==>
                var key := MatchName(name);
                var i, was := PlaceOf(old(attrs), key), old(attrs);
                var left, right := was[..i], was[i..];
                var rest := Between(old(blank), EntrySize(key), |value|);
                if key.suffix != [] then
                  && attrs == left + [Attr(key, value)] + right && blank == rest && (Valid() <==> Ends(rest))
                  && AsMap(attrs)
                     == (if key in old(AsMap(attrs)) then old(AsMap(attrs)) else old(AsMap(attrs))[key := value])
                  && (old(Distinct(attrs)) && key !in old(AsMap(attrs)) ==> Distinct(attrs))
                else
                  && Valid() && attrs == left && key !in AsMap(attrs)
                  && Storable(key) && AllStorable(right)
                  && |value| + ValueBytes(right) <= BLOCK_SIZE - ValueBytes(left)
                  && blank == Hiding(Attr(key, value), right, BLOCK_SIZE - ValueBytes(left), rest)
      ensures !ok ==> attrs == old(attrs) && blank == old(blank)
      ensures old(Clear(blank)) && (ok ==> MatchName(name).suffix != []) ==> Valid() && Clear(blank)
    {
      hide Named;
      hide Distinct;
      hide PlaceOf;
      hide Layout;
      hide AsMap;
      hide Fits;
      hide InOrder;
      hide MatchName;
      hide Compare;
      hide Table;
      hide TableBytes;
      hide ValueBytes;
      hide EntrySize;
      hide EntryBytes;
      hide FixedPart;
      hide Hiding;
      hide AllStorable;
      var key := MatchName(name);
      var insEntry, insValue, endEntry, endValue, i := Place(key);
      GapIs(attrs);
      if endValue - endEntry < EntrySize(key) + |value| + 1 {
        return false;
      }
      ghost var left, x, right := attrs[..i], Attr(key, value), attrs[i..];
      ghost var rest := Between(blank, EntrySize(key), |value|);
      assert attrs == left + right;
      PlaceSplits(attrs, key, i);
      PlaceIs(attrs, key, i);
      InsertBinding(left, x, right);
      InsertNamed(left, x, right);
      WriteAttr(key, value, insEntry, insValue, endEntry, endValue, i);
      if key.suffix != [] {
        attrs, blank := left + [x] + right, rest;
      } else {
        HidesRest(header, left, x, right, rest);
        InOrderFront(left, right);
        attrs, blank := left, Hiding(x, right, BLOCK_SIZE - ValueBytes(left), rest);
      }
      return true;
    }

    /** Put a new entry and its value into the block. */
    method WriteAttr(key: Key, value: seq<byte>, insEntry: nat, insValue: nat, endEntry: nat, endValue: nat,
                     ghost i: nat)
      requires Valid() && i <= |attrs| && Storable(key) && EntrySize(key) + |value| < |blank|
      requires insEntry == XATTR_HEADER_BYTES + TableBytes(attrs[..i])
               && insValue == BLOCK_SIZE - ValueBytes(attrs[..i])
      requires endEntry == XATTR_HEADER_BYTES + TableBytes(attrs) && endValue == BLOCK_SIZE - ValueBytes(attrs)
      modifies data
      ensures var more := attrs[..i] + [Attr(key, value)] + attrs[i..];
              var rest := Between(blank, EntrySize(key), |value|);
              && Fits(more) && |rest| == Gap(more) && data[..] == Layout(header, more, rest)
    {
      hide Layout;
      hide Fits;
      hide InOrder;
      hide Table;
      hide TableBytes;
      hide ValueBytes;
      hide EntrySize;
      hide EntryBytes;
      hide FixedPart;
      var es, vs := EntrySize(key), |value|;
      GapIs(attrs);
      ghost var left, x, right := attrs[..i], Attr(key, value), attrs[i..];
      ghost var rest := Between(blank, es, vs);
      assert attrs == left + right;
      InsertFits(left, x, right);
      SplitLayout(header, left, right, blank);
      ghost var p, tr := header + Table(left, BLOCK_SIZE), Table(right, BLOCK_SIZE - ValueBytes(left));
      MakeRoom(insEntry, insValue, endEntry, endValue, es, vs, p, tr, blank, Values(right), Values(left));
      ghost var tail := rest + Values(right);
      ShiftOffsets(insEntry + es, endEntry + es, -vs, p + Zeros(es), right, BLOCK_SIZE - ValueBytes(left),
                   tail + Zeros(vs) + Values(left));
      WriteNew(insEntry, insValue, key, value, p, Table(right, BLOCK_SIZE - ValueBytes(left) - vs), tail, Values(left));
      AroundEntry(header, left, x, right, rest);
    }

    /** Open a hole in the table and one among the values. */
    method MakeRoom(insEntry: nat, insValue: nat, endEntry: nat, endValue: nat, es: nat, vs: nat,
                    ghost p: seq<byte>, ghost tr: seq<byte>, ghost g: seq<byte>, ghost vr: seq<byte>,
                    ghost vl: seq<byte>)
      requires data.Length == BLOCK_SIZE && data[..] == p + tr + g + vr + vl
      requires |p| == insEntry && endEntry == insEntry + |tr| && endValue == endEntry + |g|
               && insValue == endValue + |vr|
      requires es + vs <= |g|
      modifies data
      ensures data[..] == p + Zeros(es) + tr + (Between(g, es, vs) + vr + Zeros(vs) + vl)
    {
      FourPartsRegroup(p + tr, g, vr, vl);
      RaiseTable(insEntry, endEntry, es, p, tr, g, vr + vl);
      ghost var q, h := p + Zeros(es) + tr, g[es..];
      FourPartsRegroup(q, h, vr, vl);
      LowerValues(endValue, insValue, vs, q, h, vr, vl);
      assert h[..|h| - vs] == Between(g, es, vs);
      TailOfGapAndValue(q, Between(g, es, vs), vr, Zeros(vs), vl);
    }

    /** Move a window, then clear `n` bytes. */
    method Slide(from: nat, to: nat, dst: nat, clear: nat, n: nat, ghost was: seq<byte>)
      requires data.Length == BLOCK_SIZE && data[..] == was
      requires from <= to <= BLOCK_SIZE && dst + (to - from) <= BLOCK_SIZE && clear + n <= BLOCK_SIZE
      modifies data
      ensures data[..] == Put(Put(was, dst, was[from..to]), clear, Zeros(n))
    {
      hide Put;
      assert data[from..to] == was[from..to];
      CopyWithin(data, from, to, dst);
      FillZero(data, clear, clear + n);
    }

    method RaiseTable(insEntry: nat, endEntry: nat, es: nat, ghost p: seq<byte>, ghost tr: seq<byte>,
                      ghost g: seq<byte>, ghost s: seq<byte>)
      requires data.Length == BLOCK_SIZE && data[..] == p + tr + g + s
      requires |p| == insEntry && endEntry == insEntry + |tr| && es <= |g|
      modifies data
      ensures data[..] == p + Zeros(es) + tr + g[es..] + s
    {
      ghost var was := data[..];
      var dst := insEntry + es;
      OpenUpAt(was, insEntry, endEntry, dst, insEntry, es, p, tr, g, s);
      Slide(insEntry, endEntry, dst, insEntry, es, was);
    }

    method LowerValues(endValue: nat, insValue: nat, vs: nat, ghost q: seq<byte>, ghost g: seq<byte>,
                       ghost vr: seq<byte>, ghost s: seq<byte>)
      requires data.Length == BLOCK_SIZE && data[..] == q + g + vr + s
      requires endValue == |q| + |g| && insValue == endValue + |vr| && vs <= |g|
      modifies data
      ensures data[..] == q + g[..|g| - vs] + vr + Zeros(vs) + s
    {
      ghost var was := data[..];
      var dst, clear := endValue - vs, insValue - vs;
      OpenDownAt(was, endValue, insValue, dst, clear, vs, q, g, vr, s);
      Slide(endValue, insValue, dst, clear, vs, was);
    }

    method LowerTable(remEntry: nat, endEntry: nat, es: nat, ghost p: seq<byte>, ghost e: seq<byte>,
                      ghost tr: seq<byte>, ghost g: seq<byte>, ghost s: seq<byte>)
      requires data.Length == BLOCK_SIZE && data[..] == p + e + tr + g + s
      requires |p| == remEntry && |e| == es && endEntry == remEntry + es + |tr|
      modifies data
      ensures data[..] == p + tr + (Zeros(es) + g) + s
    {
      ghost var was := data[..];
      var from, clear := remEntry + es, endEntry - es;
      CloseUpAt(was, from, endEntry, remEntry, clear, es, p, e, tr, g, s);
      Slide(from, endEntry, remEntry, clear, es, was);
    }

    method RaiseValues(endValue: nat, remValue: nat, vs: nat, ghost q: seq<byte>, ghost g: seq<byte>,
                       ghost vr: seq<byte>, ghost v: seq<byte>, ghost s: seq<byte>)
      requires data.Length == BLOCK_SIZE && data[..] == q + g + vr + v + s
      requires |v| == vs && endValue == |q| + |g| && remValue == endValue + |vr|
      modifies data
      ensures data[..] == q + (g + Zeros(vs)) + vr + s
    {
      ghost var was := data[..];
      var dst := endValue + vs;
      CloseDownAt(was, endValue, remValue, dst, endValue, vs, q, g, vr, v, s);
      Slide(endValue, remValue, dst, endValue, vs, was);
    }

    /** Fill the two holes. */
    method WriteNew(insEntry: nat, insValue: nat, key: Key, value: seq<byte>,
                    ghost p: seq<byte>, ghost tr: seq<byte>, ghost tail: seq<byte>, ghost vl: seq<byte>)
      requires data.Length == BLOCK_SIZE && Storable(key)
      requires data[..] == p + Zeros(EntrySize(key)) + tr + (tail + Zeros(|value|) + vl)
      requires |p| == insEntry && |value| <= insValue == BLOCK_SIZE - |vl|
      modifies data
      ensures data[..] == p + EntryBytes(key, insValue - |value|, |value|) + (tr + (tail + value + vl))
    {
      hide Put;
      hide FixedPart;
      hide EntryBytes;
      hide EntrySize;
      ghost var post := tail + Zeros(|value|) + vl;
      WriteEntry(p, key, insValue - |value|, |value|, tr + post);
      Join(p + Zeros(EntrySize(key)), tr, post);
      CopyInto(data, insEntry, FixedPart(key, insValue - |value|, |value|) + key.suffix);
      PutValue(p + EntryBytes(key, insValue - |value|, |value|), tr, tail, Zeros(|value|), vl, value);
      CopyInto(data, insValue - |value|, value);
    }

    /** Remove the first entry of a name.  Where names occur once, exactly its
        binding goes.  The holes become part of the blank area, so what was
        hidden there stays hidden. */
    method Remove(name: seq<byte>) returns (ok: bool)
      requires Valid()
      modifies this`attrs, this`blank, data
      ensures Valid() && header == old(header)
      ensures ok <==> MatchName(name) in old(AsMap(attrs))
      ensures ok ==>
                var key := MatchName(name);
                var i, was := FirstOf(old(attrs), key), old(attrs);
                && i < |was| && was[i].key == key && was[i].value == old(AsMap(attrs))[key]
                && attrs == was[..i] + was[i + 1..]
                && blank == Zeros(EntrySize(key)) + old(blank) + Zeros(|was[i].value|)
                && AsMap(attrs) - {key} == old(AsMap(attrs)) - {key}
                && (old(Distinct(attrs)) ==> Distinct(attrs) && key !in AsMap(attrs))
      ensures !ok ==> attrs == old(attrs) && blank == old(blank)
    {
      hide Named;
      hide Distinct;
      hide PlaceOf;
      hide Layout;
      hide AsMap;
      hide Fits;
      hide InOrder;
      hide MatchName;
      hide Compare;
      hide Table;
      hide TableBytes;
      hide ValueBytes;
      hide EntrySize;
      hide EntryBytes;
      hide FixedPart;
      hide Gap;
      hide FirstOf;
      var key := MatchName(name);
      var found, remEntry, remValue, es, vs, endEntry, endValue, i := Locate(key);
      if !found {
        return false;
      }
      ghost var left, x, right := attrs[..i], attrs[i], attrs[i + 1..];
      assert attrs == left + [x] + right;
      FirstIs(attrs, key, i);
      AsMapAt(attrs, i);
      RemoveBinding(left, x, right);
      RemoveNamed(left, x, right);
      RemoveFits(left, x, right);
      AroundEntry(header, left, x, right, blank);
      ghost var wide := Zeros(es) + blank + Zeros(vs);
      SplitLayout(header, left, right, wide);
      ghost var p := header + Table(left, BLOCK_SIZE);
      ghost var top := BLOCK_SIZE - ValueBytes(left);
      ghost var tr := Table(right, top - vs);
      CloseHoles(remEntry, remValue, endEntry, endValue, es, vs, p, EntryBytes(key, top - vs, vs), tr, blank,
                 Values(right), x.value, Values(left));
      ShiftOffsets(remEntry, endEntry - es, vs, p, right, top - vs, wide + Values(right) + Values(left));
      TableThenTail(p, Table(right, top), wide, Values(right), Values(left));
      attrs, blank := left + right, wide;
      EntryNotEmpty(key);
      return true;
    }

    /** Close the hole of an entry in the table and of its value. */
    method CloseHoles(remEntry: nat, remValue: nat, endEntry: nat, endValue: nat, es: nat, vs: nat,
                      ghost p: seq<byte>, ghost e: seq<byte>, ghost tr: seq<byte>, ghost g: seq<byte>,
                      ghost vr: seq<byte>, ghost v: seq<byte>, ghost vl: seq<byte>)
      requires data.Length == BLOCK_SIZE && data[..] == p + e + (tr + (g + vr + v + vl))
      requires |p| == remEntry && |e| == es && |v| == vs && endEntry == remEntry + es + |tr|
      requires endValue == endEntry + |g| && remValue == endValue + |vr|
      modifies data
      ensures data[..] == p + tr + (Zeros(es) + g + Zeros(vs) + vr + vl)
    {
      EntryThenValues(p, e, tr, g, vr, v, vl);
      LowerTable(remEntry, endEntry, es, p, e, tr, g, vr + v + vl);
      GapThenValues(p + tr, Zeros(es) + g, vr, v, vl);
      RaiseValues(endValue, remValue, vs, p + tr, Zeros(es) + g, vr, v, vl);
      TailOfGap(p + tr, Zeros(es) + g + Zeros(vs), vr, vl);
    }
  }

  /** The middle of the blank area, without `es` bytes in front and `vs` bytes
      at the end. */
  function Between(blank: seq<byte>, es: nat, vs: nat): (r: seq<byte>)
    requires es + vs <= |blank|
    ensures |r| == |blank| - es - vs
    ensures Clear(blank) ==> Clear(r)
  {
    blank[es..|blank| - vs]
  }

  /** The entry `x` and the ones behind it, their values, and what is between. */
  function Hiding(x: Attr, right: seq<Attr>, top: nat, blank: seq<byte>): seq<byte>
    requires Storable(x.key) && AllStorable(right) && |x.value| + ValueBytes(right) <= top <= BLOCK_SIZE
  {
    EntryBytes(x.key, top - |x.value|, |x.value|) + Table(right, top - |x.value|) + blank + Values(right) + x.value
  }

  /** For scans, an entry without a name and all that belongs to it and to later
      ones is blank. */
  lemma HidesRest(header: Header, left: seq<Attr>, x: Attr, right: seq<Attr>, blank: seq<byte>)
    requires Fits(left + [x] + right) && |blank| == Gap(left + [x] + right)
    ensures Fits(left) && Storable(x.key) && AllStorable(right)
    ensures |x.value| + ValueBytes(right) <= BLOCK_SIZE - ValueBytes(left) <= BLOCK_SIZE
    ensures var hidden := Hiding(x, right, BLOCK_SIZE - ValueBytes(left), blank);
            && |hidden| == Gap(left) && Layout(header, left + [x] + right, blank) == Layout(header, left, hidden)
            && (x.key.suffix == [] ==> Ends(hidden))
  {
    hide Table;
    hide Values;
    hide EntryBytes;
    hide AllStorable;
    hide EntrySize;
    hide ValueBytes;
    hide TableBytes;
    hide Layout;
    hide Fits;
    hide Gap;
    AroundEntry(header, left, x, right, blank);
    AroundSizes(left, x, right);
    var top := BLOCK_SIZE - ValueBytes(left);
    var e, tr := EntryBytes(x.key, top - |x.value|, |x.value|), Table(right, top - |x.value|);
    var hidden := Hiding(x, right, top, blank);
    FirstByte(x.key, top - |x.value|, |x.value|);
    assert hidden[0] == e[0];
    HiddenRegroup(header + Table(left, BLOCK_SIZE), e, tr, blank, Values(right), x.value, Values(left));
    RestOfLayout(header, left, Layout(header, left + [x] + right, blank), hidden);
  }

  /** If the next entry takes exactly the place of the one without a name, the
      hidden entries are in the table again, although the last `vs` bytes of
      their values have been overwritten. */
  lemma HiddenComeBack(x: Attr, right: seq<Attr>, top: nat, blank: seq<byte>, vs: nat)
    requires Storable(x.key) && AllStorable(right) && |x.value| + ValueBytes(right) <= top <= BLOCK_SIZE
    requires right != [] && right[0].key.suffix != []
    requires EntrySize(x.key) + vs < |Hiding(x, right, top, blank)|
    ensures Ends(Hiding(x, right, top, blank)) <==> x.key.suffix == []
    ensures !Ends(Between(Hiding(x, right, top, blank), EntrySize(x.key), vs))
  {
    hide EntryBytes;
    hide Values;
    var hidden, at := Hiding(x, right, top, blank), top - |x.value|;
    var e, tr := EntryBytes(x.key, at, |x.value|), XattrLayout.Table(right, at);
    var a := right[0];
    assert a in right;
    FirstByte(x.key, at, |x.value|);
    FirstByte(a.key, at - |a.value|, |a.value|);
    assert tr[0] == |a.key.suffix|;
    assert hidden[0] == e[0] && hidden[|e|] == tr[0];
  }

  lemma RestOfLayout(header: Header, attrs: seq<Attr>, b: Block, blank: seq<byte>)
    requires Fits(attrs) && b == header + Table(attrs, BLOCK_SIZE) + blank + Values(attrs)
    ensures |blank| == Gap(attrs) && b == Layout(header, attrs, blank)
  {
    hide Table;
    hide Values;
    hide TableBytes;
    hide ValueBytes;
  }

  lemma HiddenRegroup(p: seq<byte>, e: seq<byte>, t: seq<byte>, z: seq<byte>, vr: seq<byte>, v: seq<byte>,
                      vl: seq<byte>)
    ensures p + e + (t + (z + vr + v + vl)) == p + (e + t + z + vr + v) + vl
  {
  }

  lemma FirstByte(key: Key, offset: u16, size: u32)
    requires Storable(key)
    ensures EntryBytes(key, offset, size) != [] && EntryBytes(key, offset, size)[0] == |key.suffix|
  {
  }

  lemma EntryNotEmpty(key: Key)
    ensures EntrySize(key) > 0
  {
  }

  function NewHeader(): Header {
    ToLe32(0xEA02_0000) + ToLe32(1) + ToLe32(1) + Zeros(20)
  }

  /** Magic number, one user, one block, and zeros. */
  lemma HeaderOnDisk()
    ensures NewHeader()[..12] == [0, 0, 0x02, 0xEA, 1, 0, 0, 0, 1, 0, 0, 0] && NewHeader()[12..] == Zeros(20)
  {
    assert ToLe32(0xEA02_0000) == [0, 0, 0x02, 0xEA] && ToLe32(1) == [1, 0, 0, 0];
  }

  lemma EmptyLayout(header: Header)
    ensures Fits([]) && InOrder([]) && Gap([]) == BLOCK_SIZE - XATTR_HEADER_BYTES
    ensures Put(Put(Zeros(BLOCK_SIZE), 0, Zeros(BLOCK_SIZE)), 0, header)
            == Layout(header, [], Zeros(BLOCK_SIZE - XATTR_HEADER_BYTES))
  {
    ZerosSplit(BLOCK_SIZE, XATTR_HEADER_BYTES);
    var rest := Zeros(BLOCK_SIZE - XATTR_HEADER_BYTES);
    assert Put(Zeros(BLOCK_SIZE), 0, Zeros(BLOCK_SIZE)) == Zeros(BLOCK_SIZE) == [] + Zeros(XATTR_HEADER_BYTES) + rest;
    PutMiddle([], Zeros(XATTR_HEADER_BYTES), rest, header);
    assert [] + header + rest == header + [] + rest + [];
  }

  lemma StartOfTable(attrs: seq<Attr>)
    ensures attrs[..0] == [] && TableBytes([]) == 0 && ValueBytes([]) == 0
  {
  }

  /** What the table holds for attribute `i`, and where the next entry is. */
  lemma NextEntry(header: Header, attrs: seq<Attr>, blank: seq<byte>, i: nat)
    requires Fits(attrs) && |blank| == Gap(attrs) && i < |attrs|
    ensures Storable(attrs[i].key)
    ensures var bytes := Layout(header, attrs, blank);
            var a := attrs[i];
            var off := XATTR_HEADER_BYTES + TableBytes(attrs[..i]);
            var top := BLOCK_SIZE - ValueBytes(attrs[..i]);
            && off + EntrySize(a.key) < BLOCK_SIZE && |a.value| <= top
            && bytes[off] == |a.key.suffix| && off + ENTRY_FIXED_BYTES + bytes[off] <= |bytes|
            && bytes[off..off + EntrySize(a.key)] == EntryBytes(a.key, top - |a.value|, |a.value|)
            && ReadEntry(bytes, off) == Stored(a.key, top - |a.value|, |a.value|)
            && bytes[top - |a.value|..top] == a.value
    ensures TableBytes(attrs[..i + 1]) == TableBytes(attrs[..i]) + EntrySize(attrs[i].key)
    ensures ValueBytes(attrs[..i + 1]) == ValueBytes(attrs[..i]) + |attrs[i].value|
  {
    hide Layout;
    hide ReadEntry;
    hide AllStorable;
    hide EntrySize;
    hide EntryBytes;
    hide Gap;
    var left, a, right := attrs[..i], attrs[i], attrs[i + 1..];
    assert attrs == left + [a] + right && attrs[..i + 1] == left + [a];
    AtEntry(header, left, a, right, blank);
    OneAttr(a, BLOCK_SIZE - ValueBytes(left));
    SizesConcat(left, [a]);
    SizesConcat(left + [a], right);
  }

  // ---- Adjusting offsets -------------------------------------------------------

  /** The first `k` entries have been adjusted. */
  ghost function Shifting(pre: seq<byte>, moved: seq<Attr>, top: nat, delta: int, post: seq<byte>, k: nat): seq<byte>
    requires AllStorable(moved) && k <= |moved|
    requires ValueBytes(moved) <= top <= BLOCK_SIZE && ValueBytes(moved) <= top + delta <= BLOCK_SIZE
  {
    PartFits(moved, k);
    pre + Table(moved[..k], top + delta) + (Table(moved[k..], top - ValueBytes(moved[..k])) + post)
  }

  lemma PartFits(attrs: seq<Attr>, k: nat)
    requires AllStorable(attrs) && k <= |attrs|
    ensures AllStorable(attrs[..k]) && AllStorable(attrs[k..])
    ensures ValueBytes(attrs[..k]) + ValueBytes(attrs[k..]) == ValueBytes(attrs)
    ensures TableBytes(attrs[..k]) + TableBytes(attrs[k..]) == TableBytes(attrs)
  {
    assert attrs == attrs[..k] + attrs[k..];
    StorableConcat(attrs[..k], attrs[k..]);
    SizesConcat(attrs[..k], attrs[k..]);
  }

  lemma ShiftingStart(pre: seq<byte>, moved: seq<Attr>, top: nat, delta: int, post: seq<byte>)
    requires AllStorable(moved)
    requires ValueBytes(moved) <= top <= BLOCK_SIZE && ValueBytes(moved) <= top + delta <= BLOCK_SIZE
    ensures Shifting(pre, moved, top, delta, post, 0) == pre + Table(moved, top) + post
    ensures TableBytes(moved[..0]) == 0
  {
    hide Table;
    hide AllStorable;
    assert moved[..0] == [] && moved[0..] == moved;
    TableNothing(top + delta);
    NothingBefore(pre, Table(moved, top), post);
  }

  lemma NothingBefore(pre: seq<byte>, t: seq<byte>, post: seq<byte>)
    ensures pre + [] + (t + post) == pre + t + post
  {
  }

  /** Once all of the table is covered, all entries are. */
  lemma ShiftingEnd(pre: seq<byte>, moved: seq<Attr>, top: nat, delta: int, post: seq<byte>, k: nat)
    requires AllStorable(moved) && k <= |moved|
    requires ValueBytes(moved) <= top <= BLOCK_SIZE && ValueBytes(moved) <= top + delta <= BLOCK_SIZE
    requires TableBytes(moved[..k]) >= TableBytes(moved)
    ensures Shifting(pre, moved, top, delta, post, k) == pre + Table(moved, top + delta) + post
  {
    PartFits(moved, k);
    assert moved[..k] == moved && moved[k..] == [];
    TableNothing(top - ValueBytes(moved));
    assert [] + post == post;
  }

  /** The sizes around entry `k`. */
  lemma ShiftingSizes(moved: seq<Attr>, k: nat)
    requires AllStorable(moved) && k <= |moved| && TableBytes(moved[..k]) < TableBytes(moved)
    ensures k < |moved| && Storable(moved[k].key)
    ensures TableBytes(moved[..k + 1]) == TableBytes(moved[..k]) + EntrySize(moved[k].key)
    ensures ValueBytes(moved[..k + 1]) == ValueBytes(moved[..k]) + |moved[k].value|
    ensures ValueBytes(moved[..k + 1]) + ValueBytes(moved[k + 1..]) == ValueBytes(moved)
    ensures AllStorable(moved[..k]) && AllStorable(moved[k + 1..]) && AllStorable([moved[k]])
  {
    hide AllStorable;
    hide EntrySize;
    PartFits(moved, k);
    assert moved[..|moved|] == moved;
    PartFits(moved, k + 1);
    assert moved[..k + 1] == moved[..k] + [moved[k]];
    SizesConcat(moved[..k], [moved[k]]);
    OneStorableIn(moved, k);
    OneSize(moved[k]);
  }

  /** Entry `k` as it was. */
  lemma ShiftingBefore(pre: seq<byte>, moved: seq<Attr>, top: nat, delta: int, post: seq<byte>, k: nat)
    requires AllStorable(moved) && k < |moved| && Storable(moved[k].key)
    requires AllStorable(moved[..k]) && AllStorable(moved[k + 1..])
    requires ValueBytes(moved) <= top <= BLOCK_SIZE && ValueBytes(moved) <= top + delta <= BLOCK_SIZE
    requires ValueBytes(moved[..k]) + |moved[k].value| + ValueBytes(moved[k + 1..]) == ValueBytes(moved)
    ensures var at := top - ValueBytes(moved[..k]) - |moved[k].value|;
            Shifting(pre, moved, top, delta, post, k)
            == pre + Table(moved[..k], top + delta) + EntryBytes(moved[k].key, at, |moved[k].value|)
               + (Table(moved[k + 1..], at) + post)
  {
    hide Table;
    hide EntryBytes;
    hide AllStorable;
    hide ValueBytes;
    var a, rest := moved[k], moved[k + 1..];
    assert moved[k..] == [a] + rest;
    var t := top - ValueBytes(moved[..k]);
    FirstEntry(a, rest, t);
    FourPartsRegroup(pre + Table(moved[..k], top + delta), EntryBytes(a.key, t - |a.value|, |a.value|),
                     Table(rest, t - |a.value|), post);
  }

  /** Entry `k` as it is afterwards. */
  lemma ShiftingAfter(pre: seq<byte>, moved: seq<Attr>, top: nat, delta: int, post: seq<byte>, k: nat)
    requires AllStorable(moved) && k < |moved| && Storable(moved[k].key)
    requires AllStorable(moved[..k]) && AllStorable([moved[k]]) && AllStorable(moved[k + 1..])
    requires ValueBytes(moved) <= top <= BLOCK_SIZE && ValueBytes(moved) <= top + delta <= BLOCK_SIZE
    requires ValueBytes(moved[..k]) + |moved[k].value| + ValueBytes(moved[k + 1..]) == ValueBytes(moved)
    requires ValueBytes(moved[..k + 1]) == ValueBytes(moved[..k]) + |moved[k].value|
    ensures var at := top - ValueBytes(moved[..k]) - |moved[k].value|;
            Shifting(pre, moved, top, delta, post, k + 1)
            == pre + Table(moved[..k], top + delta) + EntryBytes(moved[k].key, at + delta, |moved[k].value|)
               + (Table(moved[k + 1..], at) + post)
  {
    hide Table;
    hide EntryBytes;
    hide AllStorable;
    hide ValueBytes;
    var a := moved[k];
    assert moved[..k + 1] == moved[..k] + [a];
    OneAttr(a, top + delta - ValueBytes(moved[..k]));
    TableConcat(moved[..k], [a], top + delta);
    Join(pre, Table(moved[..k], top + delta),
         EntryBytes(a.key, top + delta - ValueBytes(moved[..k]) - |a.value|, |a.value|));
  }

  /** Reading and rewriting entry `k`. */
  lemma ShiftingEntry(pre: seq<byte>, moved: seq<Attr>, top: nat, delta: int, post: seq<byte>, k: nat)
    requires AllStorable(moved) && k <= |moved|
    requires ValueBytes(moved) <= top <= BLOCK_SIZE && ValueBytes(moved) <= top + delta <= BLOCK_SIZE
    requires TableBytes(moved[..k]) < TableBytes(moved)
    ensures k < |moved| && Storable(moved[k].key)
    ensures TableBytes(moved[..k + 1]) == TableBytes(moved[..k]) + EntrySize(moved[k].key)
    ensures var bytes := Shifting(pre, moved, top, delta, post, k);
            var off := |pre| + TableBytes(moved[..k]);
            var a := moved[k];
            var at := top - ValueBytes(moved[..k]) - |a.value|;
            && off + EntrySize(a.key) <= |bytes| && bytes[off] as int + off + ENTRY_FIXED_BYTES <= |bytes|
            && 0 <= at && 0 <= at + delta < 0x1_0000
            && ReadEntry(bytes, off) == Stored(a.key, at, |a.value|)
            && Put(bytes, off, FixedPart(a.key, at + delta, |a.value|) + a.key.suffix)
               == Shifting(pre, moved, top, delta, post, k + 1)
  {
    hide Table;
    hide TableBytes;
    hide ValueBytes;
    hide EntryBytes;
    hide EntrySize;
    hide FixedPart;
    hide ReadEntry;
    hide Put;
    hide AllStorable;
    hide Shifting;
    ShiftingSizes(moved, k);
    ShiftingBefore(pre, moved, top, delta, post, k);
    ShiftingAfter(pre, moved, top, delta, post, k);
    var a, rest := moved[k], moved[k + 1..];
    var at := top - ValueBytes(moved[..k]) - |a.value|;
    var p := pre + Table(moved[..k], top + delta);
    var e, tail := EntryBytes(a.key, at, |a.value|), Table(rest, at) + post;
    WindowAt(p, e, tail);
    EntryRoundTrip(p + e + tail, |p|, a.key, at, |a.value|);
    RewriteEntry(p, a.key, at, at + delta, |a.value|, tail);
  }

  lemma OneSize(a: Attr)
    ensures TableBytes([a]) == EntrySize(a.key) && ValueBytes([a]) == |a.value|
  {
    assert [a][1..] == [] && TableBytes([]) == 0 && ValueBytes([]) == 0;
  }

  lemma OneStorableIn(attrs: seq<Attr>, k: nat)
    requires AllStorable(attrs) && k < |attrs|
    ensures Storable(attrs[k].key) && AllStorable([attrs[k]])
  {
    assert attrs[k] in attrs;
    OneStorable(attrs[k]);
  }

  // ---- Inserting -----------------------------------------------------------------

  lemma GapIs(attrs: seq<Attr>)
    requires Fits(attrs)
    ensures Gap(attrs) == (BLOCK_SIZE - ValueBytes(attrs)) - (XATTR_HEADER_BYTES + TableBytes(attrs)) > 0
  {
  }

  /** The place that was found has no greater names before it. */
  lemma PlaceSplits(attrs: seq<Attr>, key: Key, i: nat)
    requires i <= |attrs|
    requires forall j :: 0 <= j < i ==> !Compare(attrs[j].key, key).Greater?
    requires i < |attrs| ==> Compare(attrs[i].key, key).Greater?
    ensures forall a :: a in attrs[..i] ==> !Compare(a.key, key).Greater?
    ensures attrs[i..] != [] ==> Compare(key, attrs[i..][0].key).Less?
  {
    hide Compare;
    forall a | a in attrs[..i]
      ensures !Compare(a.key, key).Greater?
    {
      var j :| 0 <= j < i && attrs[..i][j] == a;
    }
    if i < |attrs| {
      CompareOrder(attrs[i].key, key, key);
    }
  }

  lemma InsertNamed(left: seq<Attr>, x: Attr, right: seq<Attr>)
    requires Named(left + right)
    ensures Named(left) && (Named(left + [x] + right) <==> x.key.suffix != [])
    ensures x.key.suffix == [] ==> x.key !in AsMap(left)
  {
    hide AsMap;
    var was, all := left + right, left + [x] + right;
    assert forall i :: 0 <= i < |left| ==> left[i] == was[i];
    assert all[|left|] == x;
    if x.key.suffix != [] {
      forall i | 0 <= i < |all|
        ensures all[i].key.suffix != []
      {
        assert all[i] == if i < |left| then was[i] else if i == |left| then x else was[i - 1];
      }
    }
    AsMapKeys(left, x.key);
  }

  lemma RemoveNamed(left: seq<Attr>, x: Attr, right: seq<Attr>)
    requires Named(left + [x] + right)
    ensures Named(left + right)
  {
    var all, rest := left + [x] + right, left + right;
    forall i | 0 <= i < |rest|
      ensures rest[i].key.suffix != []
    {
      assert rest[i] == all[if i < |left| then i else i + 1];
    }
  }

  lemma InsertFits(left: seq<Attr>, x: Attr, right: seq<Attr>)
    requires Fits(left + right) && Storable(x.key) && EntrySize(x.key) + |x.value| < Gap(left + right)
    ensures Fits(left + [x] + right)
    ensures Gap(left + [x] + right) == Gap(left + right) - EntrySize(x.key) - |x.value|
    ensures AllStorable(left) && AllStorable(right) && AllStorable(left + right)
    ensures ValueBytes(left) + ValueBytes(right) + |x.value| < BLOCK_SIZE
  {
    hide AllStorable;
    hide EntrySize;
    SizesConcat(left, right);
    SizesConcat(left + [x], right);
    SizesConcat(left, [x]);
    OneSize(x);
    StorableConcat(left, right);
    StorableConcat(left + [x], right);
    StorableConcat(left, [x]);
    OneStorable(x);
  }

  lemma TailOfGapAndValue(q: seq<byte>, z: seq<byte>, vr: seq<byte>, v: seq<byte>, vl: seq<byte>)
    ensures q + z + vr + v + vl == q + (z + vr + v + vl)
  {
  }

  lemma TailOfGap(q: seq<byte>, z: seq<byte>, vr: seq<byte>, vl: seq<byte>)
    ensures q + z + vr + vl == q + (z + vr + vl)
  {
  }

  lemma TableThenTail(p: seq<byte>, t: seq<byte>, z: seq<byte>, vr: seq<byte>, vl: seq<byte>)
    ensures p + t + (z + vr + vl) == p + t + z + vr + vl
  {
  }

  lemma GapThenValues(q: seq<byte>, z: seq<byte>, vr: seq<byte>, v: seq<byte>, vl: seq<byte>)
    ensures q + z + (vr + v + vl) == q + z + vr + v + vl
  {
  }

  lemma EntryThenValues(p: seq<byte>, e: seq<byte>, t: seq<byte>, z: seq<byte>, vr: seq<byte>, v: seq<byte>,
                        vl: seq<byte>)
    ensures p + e + (t + (z + vr + v + vl)) == p + e + t + z + (vr + v + vl)
  {
  }

  lemma RemoveFits(left: seq<Attr>, x: Attr, right: seq<Attr>)
    requires Fits(left + [x] + right)
    ensures Fits(left + right) && AllStorable(left) && AllStorable(right)
    ensures Gap(left + [x] + right) >= 0
    ensures Gap(left + right) == Gap(left + [x] + right) + EntrySize(x.key) + |x.value|
    ensures TableBytes(left + [x] + right) == TableBytes(left) + EntrySize(x.key) + TableBytes(right)
    ensures ValueBytes(left + [x] + right) == ValueBytes(left) + |x.value| + ValueBytes(right)
    ensures Gap(left + [x] + right)
            == BLOCK_SIZE - XATTR_HEADER_BYTES - TableBytes(left + [x] + right) - ValueBytes(left + [x] + right)
  {
    hide AllStorable;
    hide EntrySize;
    SizesConcat(left, right);
    SizesConcat(left + [x], right);
    SizesConcat(left, [x]);
    OneSize(x);
    StorableConcat(left, right);
    StorableConcat(left + [x], right);
    StorableConcat(left, [x]);
  }

  /** The value goes into the zeros that were left for it. */
  lemma PutValue(p: seq<byte>, t: seq<byte>, z: seq<byte>, hole: seq<byte>, vl: seq<byte>, value: seq<byte>)
    requires |value| == |hole|
    ensures var b := p + (t + (z + hole + vl));
            Put(b, |b| - |vl| - |hole|, value) == p + (t + (z + value + vl))
  {
    hide Put;
    GapAndValueFlatten(p, t, z, hole, vl);
    GapAndValueFlatten(p, t, z, value, vl);
    PutMiddle(p + t + z, hole, vl, value);
  }

  lemma GapAndValueFlatten(p: seq<byte>, t: seq<byte>, z: seq<byte>, v: seq<byte>, vl: seq<byte>)
    ensures p + (t + (z + v + vl)) == p + t + z + v + vl
  {
  }
}
