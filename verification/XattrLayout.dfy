/** The layout of an extended-attribute block: a header, a table of entries in
    name order that grows up, values that grow down from the end of the block,
    and a blank area in between, which a zero byte begins. */
module XattrLayout {
  import opened Bytes

  const XATTR_HEADER_BYTES: nat := 32
  const ENTRY_FIXED_BYTES: nat := 16

  /** A name as it is stored: a prefix number and the rest of the name. */
  datatype Key = Key(index: byte, suffix: seq<byte>)

  datatype Attr = Attr(key: Key, value: seq<byte>)

  // ---- Names -----------------------------------------------------------------

  function Ascii(s: string): (r: seq<byte>)
    ensures |r| == |s|
  {
    seq(|s|, i requires 0 <= i < |s| => s[i] as int % 256)
  }

  function Prefix(index: byte): seq<byte> {
    match index
    case 1 => Ascii("user.")
    case 2 => Ascii("system.posix_acl_access.")
    case 3 => Ascii("system.posix_acl_default.")
    case 4 => Ascii("trusted.")
    case 6 => Ascii("security.")
    case 7 => Ascii("system.")
    case _ => []
  }

  /** The first prefix that matches, in this order, is cut off. */
  function MatchName(name: seq<byte>): Key {
    MatchFrom(name, [1, 2, 3, 4, 6, 7])
  }

  function MatchFrom(name: seq<byte>, indexes: seq<byte>): Key {
    if indexes == [] then Key(0, name)
    else if Prefix(indexes[0]) <= name then Key(indexes[0], name[|Prefix(indexes[0])|..])
    else MatchFrom(name, indexes[1..])
  }

  function EntryName(key: Key): seq<byte> {
    Prefix(key.index) + key.suffix
  }

  /** Splitting a name loses nothing, so different names have different keys. */
  lemma NameRoundTrip(name: seq<byte>)
    ensures EntryName(MatchName(name)) == name
  {
    MatchFromRoundTrip(name, [1, 2, 3, 4, 6, 7]);
  }

  lemma {:induction false} MatchFromRoundTrip(name: seq<byte>, indexes: seq<byte>)
    ensures EntryName(MatchFrom(name, indexes)) == name
    decreases |indexes|
  {
    hide Prefix;
    if indexes == [] {
      NoPrefix();
      assert [] + name == name;
    } else if !(Prefix(indexes[0]) <= name) {
      MatchFromRoundTrip(name, indexes[1..]);
    }
  }

  lemma NoPrefix()
    ensures Prefix(0) == []
  {
  }

  /** The numbers of the prefixes on disk, and the prefixes in listed names. */
  lemma ListedNames(rest: seq<byte>)
    ensures EntryName(Key(1, rest)) == Ascii("user.") + rest
    ensures EntryName(Key(2, rest)) == Ascii("system.posix_acl_access.") + rest
    ensures EntryName(Key(3, rest)) == Ascii("system.posix_acl_default.") + rest
    ensures EntryName(Key(4, rest)) == Ascii("trusted.") + rest
    ensures EntryName(Key(6, rest)) == Ascii("security.") + rest
    ensures EntryName(Key(7, rest)) == Ascii("system.") + rest
  {
  }

  predicate Begins(name: seq<byte>, s: string) {
    |s| <= |name| && forall i :: 0 <= i < |s| ==> name[i] == s[i] as int % 256
  }

  lemma BeginsIff(name: seq<byte>, s: string)
    ensures Begins(name, s) <==> Ascii(s) <= name
  {
    if Ascii(s) <= name {
      assert forall i :: 0 <= i < |s| ==> name[i] == Ascii(s)[i];
    }
  }

  /** The number under which a name is stored, and what is cut off.  The
      prefixes of the two access control lists go before the shorter one that
      they begin with. */
  lemma StoredNames(name: seq<byte>)
    ensures MatchName(name) ==
            if Begins(name, "user.") then Key(1, name[5..])
            else if Begins(name, "system.posix_acl_access.") then Key(2, name[24..])
            else if Begins(name, "system.posix_acl_default.") then Key(3, name[25..])
            else if Begins(name, "trusted.") then Key(4, name[8..])
            else if Begins(name, "security.") then Key(6, name[9..])
            else if Begins(name, "system.") then Key(7, name[7..])
            else Key(0, name)
  {
    hide Begins;
    hide Ascii;
    BeginsIff(name, "user.");
    BeginsIff(name, "system.posix_acl_access.");
    BeginsIff(name, "system.posix_acl_default.");
    BeginsIff(name, "trusted.");
    BeginsIff(name, "security.");
    BeginsIff(name, "system.");
    var l: seq<byte> := [1, 2, 3, 4, 6, 7];
    assert l[1..] == [2, 3, 4, 6, 7] && l[1..][1..] == [3, 4, 6, 7] && l[1..][1..][1..] == [4, 6, 7];
    assert l[1..][1..][1..][1..] == [6, 7] && l[1..][1..][1..][1..][1..] == [7];
    assert l[1..][1..][1..][1..][1..][1..] == [];
    assert MatchFrom(name, []) == Key(0, name);
    MatchStep(name, 7, []);
    MatchStep(name, 6, [7]);
    MatchStep(name, 4, [6, 7]);
    MatchStep(name, 3, [4, 6, 7]);
    MatchStep(name, 2, [3, 4, 6, 7]);
    MatchStep(name, 1, [2, 3, 4, 6, 7]);
  }

  lemma MatchStep(name: seq<byte>, index: byte, rest: seq<byte>)
    ensures MatchFrom(name, [index] + rest)
            == if Prefix(index) <= name then Key(index, name[|Prefix(index)|..]) else MatchFrom(name, rest)
  {
    hide Prefix;
    assert ([index] + rest)[1..] == rest;
  }

  // ---- Order -------------------------------------------------------------------

  datatype Ordering = Less | Equal | Greater

  function CompareBytes(a: seq<byte>, b: seq<byte>): Ordering
    requires |a| == |b|
  {
    if a == [] then Equal
    else if a[0] < b[0] then Less
    else if a[0] > b[0] then Greater
    else CompareBytes(a[1..], b[1..])
  }

  /** By prefix number, then by length, then by bytes. */
  function Compare(a: Key, b: Key): Ordering {
    if a.index < b.index then Less
    else if a.index > b.index then Greater
    else if |a.suffix| < |b.suffix| then Less
    else if |a.suffix| > |b.suffix| then Greater
    else CompareBytes(a.suffix, b.suffix)
  }

  lemma {:induction false} CompareBytesOrder(a: seq<byte>, b: seq<byte>, c: seq<byte>)
    requires |a| == |b| == |c|
    ensures CompareBytes(a, b).Equal? <==> a == b
    ensures CompareBytes(a, b).Greater? <==> CompareBytes(b, a).Less?
    ensures CompareBytes(a, b).Less? && CompareBytes(b, c).Less? ==> CompareBytes(a, c).Less?
    decreases |a|
  {
    if a != [] {
      CompareBytesOrder(a[1..], b[1..], c[1..]);
      assert a == [a[0]] + a[1..] && b == [b[0]] + b[1..];
    }
  }

  /** The comparison is a total order. */
  lemma CompareOrder(a: Key, b: Key, c: Key)
    ensures Compare(a, b).Equal? <==> a == b
    ensures Compare(a, b).Greater? <==> Compare(b, a).Less?
    ensures Compare(a, b).Less? && Compare(b, c).Less? ==> Compare(a, c).Less?
  {
    if |a.suffix| == |b.suffix| == |c.suffix| {
      CompareBytesOrder(a.suffix, b.suffix, c.suffix);
    } else if |a.suffix| == |b.suffix| {
      CompareBytesOrder(a.suffix, b.suffix, a.suffix);
    }
  }

  /** Sorted; a name may occur more than once. */
  ghost predicate InOrder(attrs: seq<Attr>) {
    forall i, j :: 0 <= i < j < |attrs| ==> !Compare(attrs[i].key, attrs[j].key).Greater?
  }

  lemma InOrderFront(a: seq<Attr>, b: seq<Attr>)
    requires InOrder(a + b)
    ensures InOrder(a)
  {
    forall i, j | 0 <= i < j < |a|
      ensures !Compare(a[i].key, a[j].key).Greater?
    {
      assert a[i] == (a + b)[i] && a[j] == (a + b)[j];
    }
  }

  ghost predicate Distinct(attrs: seq<Attr>) {
    forall i, j :: 0 <= i < j < |attrs| ==> attrs[i].key != attrs[j].key
  }

  /** How many of the names do not come after `key`. */
  function PlaceOf(attrs: seq<Attr>, key: Key): (i: nat)
    ensures i <= |attrs|
  {
    if attrs == [] || Compare(attrs[0].key, key).Greater? then 0 else 1 + PlaceOf(attrs[1..], key)
  }

  lemma {:induction false} PlaceIs(attrs: seq<Attr>, key: Key, i: nat)
    requires i <= |attrs| && forall j :: 0 <= j < i ==> !Compare(attrs[j].key, key).Greater?
    requires i < |attrs| ==> Compare(attrs[i].key, key).Greater?
    ensures PlaceOf(attrs, key) == i
    decreases i
  {
    hide Compare;
    if i > 0 {
      assert forall j :: 0 <= j < i - 1 ==> attrs[1..][j] == attrs[j + 1];
      PlaceIs(attrs[1..], key, i - 1);
    }
  }

  /** Where a name is first. */
  function FirstOf(attrs: seq<Attr>, key: Key): (i: nat)
    ensures i <= |attrs|
  {
    if attrs == [] || attrs[0].key == key then 0 else 1 + FirstOf(attrs[1..], key)
  }

  lemma {:induction false} FirstIs(attrs: seq<Attr>, key: Key, i: nat)
    requires i < |attrs| && attrs[i].key == key && forall j :: 0 <= j < i ==> attrs[j].key != key
    ensures FirstOf(attrs, key) == i
    decreases i
  {
    if i > 0 {
      assert forall j :: 0 <= j < i - 1 ==> attrs[1..][j] == attrs[j + 1];
      FirstIs(attrs[1..], key, i - 1);
    }
  }

  // ---- What a scan sees --------------------------------------------------------------

  /** No entry looks like the end of the table. */
  ghost predicate Named(attrs: seq<Attr>) {
    forall i :: 0 <= i < |attrs| ==> attrs[i].key.suffix != []
  }

  /** The byte behind the table ends it. */
  predicate Ends(blank: seq<byte>) {
    blank != [] && blank[0] == 0
  }

  predicate Clear(blank: seq<byte>) {
    forall i :: 0 <= i < |blank| ==> blank[i] == 0
  }

  // ---- Bytes -------------------------------------------------------------------

  /** The length fits into its byte. */
  predicate Storable(key: Key) {
    |key.suffix| < 256
  }

  function Padding(n: nat): (p: nat)
    ensures p < 4 && (n + p) % 4 == 0
  {
    (4 - n % 4) % 4
  }

  /** Table space of an entry, rounded up to four bytes. */
  function EntrySize(key: Key): (n: nat)
    ensures n % 4 == 0 && ENTRY_FIXED_BYTES + |key.suffix| <= n
  {
    ENTRY_FIXED_BYTES + |key.suffix| + Padding(ENTRY_FIXED_BYTES + |key.suffix|)
  }

  /** Name length, prefix number, value offset, no inode, value size, no hash. */
  function FixedPart(key: Key, offset: u16, size: u32): (s: seq<byte>)
    requires Storable(key)
    ensures |s| == ENTRY_FIXED_BYTES
  {
    [|key.suffix|, key.index] + ToLe16(offset) + Zeros(4) + ToLe32(size) + Zeros(4)
  }

  function EntryBytes(key: Key, offset: u16, size: u32): (s: seq<byte>)
    requires Storable(key)
    ensures |s| == EntrySize(key)
  {
    FixedPart(key, offset, size) + key.suffix + Zeros(EntrySize(key) - ENTRY_FIXED_BYTES - |key.suffix|)
  }

  /** The bytes of an entry: name length and prefix number, value offset, no
      inode, value size, no hash, the rest of the name, and zeros up to the next
      multiple of four. */
  lemma EntryOnDisk(key: Key, offset: u16, size: u32)
    requires Storable(key)
    ensures var s, n := EntryBytes(key, offset, size), |key.suffix|;
            && n < 256 && |s| % 4 == 0 && 16 + n <= |s| < 16 + n + 4
            && s[0] == n && s[1] == key.index && LittleEndian(s[2..4]) == offset && s[4..8] == [0, 0, 0, 0]
            && LittleEndian(s[8..12]) == size && s[12..16] == [0, 0, 0, 0] && s[16..16 + n] == key.suffix
            && forall i :: 16 + n <= i < |s| ==> s[i] == 0
  {
    hide LittleEndian;
    var s, n := EntryBytes(key, offset, size), |key.suffix|;
    var a, b := ToLe16(offset), ToLe32(size);
    var fixed := FixedPart(key, offset, size);
    assert fixed[2..4] == a && fixed[8..12] == b && fixed[4..8] == Zeros(4) && fixed[12..16] == Zeros(4);
    assert s[2..4] == fixed[2..4] && s[4..8] == fixed[4..8] && s[8..12] == fixed[8..12] && s[12..16] == fixed[12..16];
    ReadsLittleEndian(a, 0);
    ReadsLittleEndian(b, 0);
    assert a[0..2] == a && b[0..4] == b && Zeros(4) == [0, 0, 0, 0];
  }

  function ValueBytes(attrs: seq<Attr>): nat {
    if attrs == [] then 0 else |attrs[0].value| + ValueBytes(attrs[1..])
  }

  function TableBytes(attrs: seq<Attr>): nat {
    if attrs == [] then 0 else EntrySize(attrs[0].key) + TableBytes(attrs[1..])
  }

  predicate AllStorable(attrs: seq<Attr>) {
    forall a :: a in attrs ==> Storable(a.key)
  }

  /** The table when the first value ends at `top`. */
  function Table(attrs: seq<Attr>, top: nat): (s: seq<byte>)
    requires AllStorable(attrs) && ValueBytes(attrs) <= top <= BLOCK_SIZE
    ensures |s| == TableBytes(attrs)
    decreases |attrs|
  {
    if attrs == [] then []
    else
      var a := attrs[0];
      EntryBytes(a.key, top - |a.value|, |a.value|) + Table(attrs[1..], top - |a.value|)
  }

  /** The values, the first one last. */
  function Values(attrs: seq<Attr>): (s: seq<byte>)
    ensures |s| == ValueBytes(attrs)
    decreases |attrs|
  {
    if attrs == [] then [] else Values(attrs[1..]) + attrs[0].value
  }

  /** Everything fits and at least one zero ends the table. */
  predicate Fits(attrs: seq<Attr>) {
    AllStorable(attrs) && XATTR_HEADER_BYTES + TableBytes(attrs) + ValueBytes(attrs) < BLOCK_SIZE
  }

  type Header = h: seq<byte> | |h| == XATTR_HEADER_BYTES witness Zeros(XATTR_HEADER_BYTES)

  function Gap(attrs: seq<Attr>): int {
    BLOCK_SIZE - XATTR_HEADER_BYTES - TableBytes(attrs) - ValueBytes(attrs)
  }

  /** The block with `blank` between the table and the values. */
  function Layout(header: Header, attrs: seq<Attr>, blank: seq<byte>): (b: Block)
    requires Fits(attrs) && |blank| == Gap(attrs)
  {
    header + Table(attrs, BLOCK_SIZE) + blank + Values(attrs)
  }

  /** Behind 32 bytes of header stands the table; the last value but for none
      ends with the block. */
  lemma LayoutOnDisk(header: Header, attrs: seq<Attr>, blank: seq<byte>)
    requires Fits(attrs) && |blank| == Gap(attrs)
    ensures var b := Layout(header, attrs, blank);
            && |header| == 32 && b[..32] == header && b[32..32 + TableBytes(attrs)] == Table(attrs, 4096)
            && b[4096 - ValueBytes(attrs)..] == Values(attrs)
            && b[32 + TableBytes(attrs)..4096 - ValueBytes(attrs)] == blank
  {
    hide Table;
    hide Values;
    hide TableBytes;
    hide ValueBytes;
  }

  lemma {:induction false} SizesConcat(a: seq<Attr>, b: seq<Attr>)
    ensures TableBytes(a + b) == TableBytes(a) + TableBytes(b)
    ensures ValueBytes(a + b) == ValueBytes(a) + ValueBytes(b)
    decreases |a|
  {
    if a == [] {
      assert a + b == b;
    } else {
      assert (a + b)[1..] == a[1..] + b;
      SizesConcat(a[1..], b);
    }
  }

  lemma {:induction false} ValuesConcat(a: seq<Attr>, b: seq<Attr>)
    ensures Values(a + b) == Values(b) + Values(a)
    decreases |a|
  {
    if a == [] {
      assert a + b == b;
      assert Values(b) + [] == Values(b);
    } else {
      assert (a + b)[1..] == a[1..] + b;
      ValuesConcat(a[1..], b);
      assert Values(b) + Values(a[1..]) + a[0].value == Values(b) + (Values(a[1..]) + a[0].value);
    }
  }

  lemma StorableConcat(a: seq<Attr>, b: seq<Attr>)
    ensures AllStorable(a + b) <==> AllStorable(a) && AllStorable(b)
  {
    assert forall x :: x in a + b <==> x in a || x in b;
  }

  lemma Join(a: seq<byte>, b: seq<byte>, c: seq<byte>)
    ensures a + b + c == a + (b + c)
  {
  }

  lemma TableUnfolds(a: Attr, rest: seq<Attr>, top: nat)
    requires AllStorable([a] + rest) && ValueBytes([a] + rest) <= top <= BLOCK_SIZE
    ensures Storable(a.key) && AllStorable(rest)
    ensures ValueBytes([a] + rest) == |a.value| + ValueBytes(rest)
    ensures Table([a] + rest, top) == EntryBytes(a.key, top - |a.value|, |a.value|) + Table(rest, top - |a.value|)
  {
    hide EntryBytes;
    assert ([a] + rest)[1..] == rest;
    assert forall x :: x in rest ==> x in [a] + rest;
    assert a in [a] + rest;
  }

  lemma ValueSizes(x: Attr, rest: seq<Attr>)
    ensures ValueBytes([x] + rest) == |x.value| + ValueBytes(rest)
    ensures ValueBytes([]) == 0
  {
    assert ([x] + rest)[1..] == rest;
  }

  lemma {:induction false} TableConcat(a: seq<Attr>, b: seq<Attr>, top: nat)
    requires AllStorable(a) && AllStorable(b) && ValueBytes(a) + ValueBytes(b) <= top <= BLOCK_SIZE
    ensures AllStorable(a + b) && ValueBytes(a + b) <= top
    ensures Table(a + b, top) == Table(a, top) + Table(b, top - ValueBytes(a))
    decreases |a|
  {
    hide EntryBytes;
    hide EntrySize;
    hide AllStorable;
    hide Table;
    hide ValueBytes;
    hide TableBytes;
    SizesConcat(a, b);
    StorableConcat(a, b);
    if a == [] {
      assert a + b == b;
      TableNothing(top);
    } else {
      var x, rest := a[0], a[1..];
      assert a == [x] + rest && a + b == [x] + (rest + b);
      ValueSizes(x, rest);
      ValueSizes(x, rest + b);
      SizesConcat(rest, b);
      TableUnfolds(x, rest, top);
      TableUnfolds(x, rest + b, top);
      TableConcat(rest, b, top - |x.value|);
      Join(EntryBytes(x.key, top - |x.value|, |x.value|), Table(rest, top - |x.value|), Table(b, top - ValueBytes(a)));
    }
  }

  lemma TableNothing(top: nat)
    requires top <= BLOCK_SIZE
    ensures AllStorable([]) && ValueBytes([]) == 0 && TableBytes([]) == 0 && Table([], top) == []
  {
  }

  lemma OneAttr(a: Attr, top: nat)
    requires Storable(a.key) && |a.value| <= top <= BLOCK_SIZE
    ensures ValueBytes([a]) == |a.value| && TableBytes([a]) == EntrySize(a.key)
    ensures AllStorable([a]) && Table([a], top) == EntryBytes(a.key, top - |a.value|, |a.value|)
    ensures Values([a]) == a.value
  {
    assert [a][1..] == [];
    assert ValueBytes([]) == 0 && TableBytes([]) == 0;
    assert Values([]) + a.value == a.value;
    var e := EntryBytes(a.key, top - |a.value|, |a.value|);
    assert Table([], top - |a.value|) == [];
    assert e + [] == e;
  }

  // ---- The map -------------------------------------------------------------------

  /** The attributes by name; the first entry of a name counts. */
  function AsMap(attrs: seq<Attr>): map<Key, seq<byte>> {
    if attrs == [] then map[]
    else
      var rest, last := AsMap(attrs[..|attrs| - 1]), attrs[|attrs| - 1];
      if last.key in rest then rest else rest[last.key := last.value]
  }

  lemma {:induction false} AsMapConcat(a: seq<Attr>, b: seq<Attr>)
    ensures AsMap(a + b) == AsMap(b) + AsMap(a)
    decreases |b|
  {
    if b == [] {
      assert a + b == a;
    } else {
      assert (a + b)[..|a + b| - 1] == a + b[..|b| - 1];
      AsMapConcat(a, b[..|b| - 1]);
    }
  }

  lemma {:induction false} AsMapKeys(attrs: seq<Attr>, key: Key)
    ensures key in AsMap(attrs) <==> exists i :: 0 <= i < |attrs| && attrs[i].key == key
    decreases |attrs|
  {
    if attrs != [] {
      var n := |attrs| - 1;
      AsMapKeys(attrs[..n], key);
      assert forall i :: 0 <= i < n ==> attrs[..n][i] == attrs[i];
    }
  }

  lemma {:induction false} AsMapAt(attrs: seq<Attr>, i: nat)
    requires i < |attrs| && forall j :: 0 <= j < i ==> attrs[j].key != attrs[i].key
    ensures attrs[i].key in AsMap(attrs) && AsMap(attrs)[attrs[i].key] == attrs[i].value
    decreases |attrs|
  {
    var n := |attrs| - 1;
    if i < n {
      AsMapAt(attrs[..n], i);
    } else {
      AsMapKeys(attrs[..n], attrs[i].key);
    }
  }

  /** A name between its neighbours keeps the order, and adds one binding unless
      there is one already, which then goes on to count. */
  lemma InsertBinding(left: seq<Attr>, x: Attr, right: seq<Attr>)
    requires InOrder(left + right)
    requires forall a :: a in left ==> !Compare(a.key, x.key).Greater?
    requires right != [] ==> Compare(x.key, right[0].key).Less?
    ensures InOrder(left + [x] + right)
    ensures AsMap(left + [x] + right) ==
            if x.key in AsMap(left + right) then AsMap(left + right) else AsMap(left + right)[x.key := x.value]
    ensures Distinct(left + right) && x.key !in AsMap(left + right) ==> Distinct(left + [x] + right)
  {
    hide AsMap;
    var all, was := left + [x] + right, left + right;
    forall i | 0 <= i < |right|
      ensures Compare(x.key, right[i].key).Less? && right[i].key != x.key
    {
      assert was[|left|] == right[0] && was[|left| + i] == right[i];
      CompareOrder(x.key, right[0].key, right[i].key);
      CompareOrder(right[0].key, right[i].key, x.key);
      CompareOrder(x.key, right[i].key, x.key);
    }
    forall i, j | 0 <= i < j < |all|
      ensures !Compare(all[i].key, all[j].key).Greater?
      ensures Distinct(was) && x.key !in AsMap(was) ==> all[i].key != all[j].key
    {
      AsMapKeys(was, x.key);
      assert i != |left| ==> all[i] == was[if i < |left| then i else i - 1];
      assert j != |left| ==> all[j] == was[if j < |left| then j else j - 1];
      if i == |left| {
        assert all[j] == right[j - |left| - 1];
      } else if j == |left| {
        assert all[i] == left[i];
      }
    }
    AsMapConcat(left + [x], right);
    AsMapConcat(left, [x]);
    AsMapConcat(left, right);
    AsMapOne(x);
    AsMapKeys(right, x.key);
  }

  lemma AsMapOne(x: Attr)
    ensures AsMap([x]) == map[x.key := x.value]
  {
    assert [x][..0] == [];
    assert AsMap([]) == map[];
  }

  /** Dropping the first entry of a name keeps the order and all other bindings;
      the next entry of the name counts then, if there is one. */
  lemma RemoveBinding(left: seq<Attr>, x: Attr, right: seq<Attr>)
    requires InOrder(left + [x] + right) && forall i :: 0 <= i < |left| ==> left[i].key != x.key
    ensures InOrder(left + right)
    ensures x.key in AsMap(left + [x] + right) && AsMap(left + [x] + right)[x.key] == x.value
    ensures AsMap(left + right) - {x.key} == AsMap(left + [x] + right) - {x.key}
    ensures x.key in AsMap(left + right) <==> x.key in AsMap(right)
    ensures Distinct(left + [x] + right) ==> Distinct(left + right) && x.key !in AsMap(left + right)
  {
    hide AsMap;
    var all, rest := left + [x] + right, left + right;
    forall i, j | 0 <= i < j < |rest|
      ensures !Compare(rest[i].key, rest[j].key).Greater?
      ensures Distinct(all) ==> rest[i].key != rest[j].key
    {
      assert rest[i] == all[if i < |left| then i else i + 1];
      assert rest[j] == all[if j < |left| then j else j + 1];
    }
    AsMapConcat(left + [x], right);
    AsMapConcat(left, [x]);
    AsMapConcat(left, right);
    AsMapOne(x);
    AsMapKeys(left, x.key);
    AsMapKeys(right, x.key);
    if Distinct(all) {
      forall i | 0 <= i < |right|
        ensures right[i].key != x.key
      {
        assert all[|left|] == x && all[|left| + 1 + i] == right[i];
      }
    }
  }
}
