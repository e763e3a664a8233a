/** Descriptor blocks of the journal: how a group of staged images is described
    in the log and how recovery reads the description back. */
module LogTags {
  import opened Bytes
  import opened Jbd2

  /** A physical block number: 64 bits wide. */
  type PBlock = x: int | 0 <= x < 0x1_0000_0000_0000_0000

  /** One staged block: its home address and its final image. */
  datatype Entry = Entry(home: PBlock, image: Block)

  datatype Tag = Tag(block: PBlock, flags: u32, checksum: Option<u32>)

  /** A log image never starts with the journal magic: it is blanked in the
      log and restored by replay when the tag says so. */
  function Escaped(image: Block): Block {
    if Be32(image, 0) == MAGIC then Put(image, 0, Zeros(4)) else image
  }

  function Unescaped(flags: u32, data: Block): Block {
    if EscapeFlag(flags) then Put(data, 0, ToBe32(MAGIC)) else data
  }

  function TagFlags(image: Block, index: nat, count: nat): (flags: u32)
    requires index < count
    ensures flags <= 11
    ensures SameUuidFlag(flags) <==> index != 0
    ensures EscapeFlag(flags) <==> Be32(image, 0) == MAGIC
    ensures LastTagFlag(flags) <==> index + 1 == count
    ensures !DeletedFlag(flags)
  {
    (if index != 0 then FLAG_SAME_UUID else 0)
    + (if Be32(image, 0) == MAGIC then FLAG_ESCAPE else 0)
    + (if index + 1 == count then FLAG_LAST_TAG else 0)
  }

  /** Replay undoes the escape. */
  lemma EscapeRoundTrip(image: Block, index: nat, count: nat)
    requires index < count
    ensures Unescaped(TagFlags(image, index, count), Escaped(image)) == image
  {
    if Be32(image, 0) == MAGIC {
      var data := Put(image, 0, Zeros(4));
      var back := Put(data, 0, ToBe32(MAGIC));
      Be32Bytes(image, 0);
      assert back[..4] == back[0..0 + 4] == ToBe32(MAGIC) == image[0..4];
      assert back[4..] == data[4..] == image[4..];
      assert back == back[..4] + back[4..] && image == image[..4] + image[4..];
    }
  }

  /** No image in the log can be taken for a header. */
  lemma EscapedIsNoHeader(image: Block)
    ensures ParseHeader(Escaped(image)).Err?
  {
    if Be32(image, 0) == MAGIC {
      var data := Put(image, 0, Zeros(4));
      assert data[0..0 + 4] == Zeros(4);
      assert Zeros(4) == ToBe32(0);
      Be32Written(data, 0, 0);
    }
  }

  // ---- The writer's side --------------------------------------------------

  /** Can the tag format of this journal name the block? */
  predicate Encodable(features: Features, home: PBlock) {
    home < U32_LIMIT || (features.v3 && features.has64bit)
  }

  /** How many tags one descriptor block holds: the room left by the header,
      the UUID and the checksum tail, divided by the tag size. */
  function TagsPerDescriptor(features: Features): (n: nat)
    ensures n >= 1
  {
    var available := BLOCK_SIZE - (HEADER_BYTES + 16 + features.TailBytes());
    if features.v3 then available / 16 else if features.has64bit then available / 12 else available / 8
  }

  /** It is the largest such number. */
  lemma TagsPerDescriptorExact(features: Features)
    ensures var n, size := TagsPerDescriptor(features), features.TagBytes();
            var used := HEADER_BYTES + UUID_BYTES + n * size;
            used <= BLOCK_SIZE - features.TailBytes() < used + size
  {
    if features.v3 {
      assert TagsPerDescriptor(features) == 254;
    } else if features.has64bit {
      assert TagsPerDescriptor(features) == 339;
    } else {
      assert TagsPerDescriptor(features) == 508;
    }
  }

  function FixedTagBytes(fmt: Format, sequence: u32, e: Entry, flags: u32): (s: seq<byte>)
    requires flags <= 11
    ensures |s| == fmt.features.TagBytes()
  {
    if fmt.features.v3 then
      ToBe32(e.home % 0x1_0000_0000) + ToBe32(flags) + ToBe32(e.home / 0x1_0000_0000)
      + ToBe32(fmt.TagChecksum(sequence, Escaped(e.image)))
    else
      ToBe32(e.home % 0x1_0000_0000) + Zeros(2) + ToBe16(flags) + Zeros(if fmt.features.has64bit then 4 else 0)
  }

  /** The bytes of tag `index`; the first one is followed by the journal UUID. */
  function TagBytesAt(fmt: Format, sequence: u32, group: seq<Entry>, index: nat): (s: seq<byte>)
    requires index < |group|
    ensures |s| == fmt.features.TagBytes() + (if index == 0 then UUID_BYTES else 0)
  {
    FixedTagBytes(fmt, sequence, group[index], TagFlags(group[index].image, index, |group|))
    + (if index == 0 then fmt.uuid else [])
  }

  /** The header and the first `count` tags of a descriptor. */
  function DescriptorPrefix(fmt: Format, sequence: u32, group: seq<Entry>, count: nat): (s: seq<byte>)
    requires count <= |group|
  {
    if count == 0 then HeaderBytes(Header(Descriptor, sequence))
    else DescriptorPrefix(fmt, sequence, group, count - 1) + TagBytesAt(fmt, sequence, group, count - 1)
  }

  lemma Distribute(index: nat, size: nat)
    ensures (index + 1) * size == index * size + size
  {
  }

  lemma Scale(a: nat, b: nat, size: nat)
    requires a <= b
    ensures a * size <= b * size
  {
  }

  /** The moving write offset of the encoder after `count` tags. */
  lemma PrefixLength(fmt: Format, sequence: u32, group: seq<Entry>, count: nat)
    requires count <= |group|
    ensures |DescriptorPrefix(fmt, sequence, group, count)|
            == HEADER_BYTES + count * fmt.features.TagBytes() + (if count == 0 then 0 else UUID_BYTES)
  {
    if count > 0 {
      PrefixLength(fmt, sequence, group, count - 1);
      Distribute(count - 1, fmt.features.TagBytes());
    }
  }

  function SealDescriptor(fmt: Format, body: Block): Block {
    if fmt.features.v3 then Put(body, BLOCK_SIZE - 4, ToBe32(fmt.BlockChecksum(body))) else body
  }

  predicate FitsDescriptor(features: Features, group: seq<Entry>) {
    0 < |group| <= TagsPerDescriptor(features)
  }

  /** No descriptor overflows its block, and the tag that is written next
      still fits before the checksum tail. */
  lemma PrefixFits(fmt: Format, sequence: u32, group: seq<Entry>, count: nat)
    requires FitsDescriptor(fmt.features, group) && count <= |group|
    ensures var used := |DescriptorPrefix(fmt, sequence, group, count)|;
            && used <= BLOCK_SIZE - fmt.features.TailBytes()
            && (count < |group| ==> used + fmt.features.TagBytes() <= BLOCK_SIZE - fmt.features.TailBytes())
  {
    PrefixLength(fmt, sequence, group, count);
    TagsPerDescriptorExact(fmt.features);
    Scale(count, TagsPerDescriptor(fmt.features), fmt.features.TagBytes());
    if count < |group| {
      Scale(count + 1, TagsPerDescriptor(fmt.features), fmt.features.TagBytes());
      Distribute(count, fmt.features.TagBytes());
    }
  }

  lemma PrefixGrows(fmt: Format, sequence: u32, group: seq<Entry>, a: nat, b: nat)
    requires a <= b <= |group|
    ensures DescriptorPrefix(fmt, sequence, group, a) <= DescriptorPrefix(fmt, sequence, group, b)
    decreases b
  {
    if a < b {
      PrefixGrows(fmt, sequence, group, a, b - 1);
    }
  }

  function DescriptorBlock(fmt: Format, sequence: u32, group: seq<Entry>): Block
    requires FitsDescriptor(fmt.features, group)
  {
    PrefixFits(fmt, sequence, group, |group|);
    SealDescriptor(fmt, Put(Zeros(BLOCK_SIZE), 0, DescriptorPrefix(fmt, sequence, group, |group|)))
  }

  // ---- The reader's side --------------------------------------------------

  /** The tag at `off`, and the offset behind it. */
  function ParseTag(fmt: Format, bytes: Block, off: nat, targetBlocks: nat): (r: Result<(Tag, nat)>)
    ensures r.Ok? ==> off < r.value.1 && r.value.1 <= BLOCK_SIZE && r.value.0.block < targetBlocks
  {
    var size := fmt.features.TagBytes();
    if off + size > BLOCK_SIZE - fmt.features.TailBytes() then Err(EIO)
    else
      var low := Be32(bytes, off);
      var flags := if fmt.features.v3 then Be32(bytes, off + 4) else Be16(bytes, off + 6);
      var rawHigh := if fmt.features.v3 || fmt.features.has64bit then Be32(bytes, off + 8) else 0;
      var checksum := if fmt.features.v3 then Some(Be32(bytes, off + 12)) else None;
      if fmt.features.v3 && !fmt.features.has64bit && rawHigh != 0 then Err(EIO)
      else if !SameUuidFlag(flags)
              && (off + size + 16 > BLOCK_SIZE || bytes[off + size..off + size + 16] != fmt.uuid) then Err(EIO)
      else
        var next := off + size + (if SameUuidFlag(flags) then 0 else 16);
        var target := low + rawHigh * 0x1_0000_0000;
        if target >= targetBlocks then Err(EIO)
        else Ok((Tag(target, flags, checksum), next))
  }

  /** All tags from `off` up to the one flagged as last. */
  function ParseTagsFrom(fmt: Format, bytes: Block, off: nat, targetBlocks: nat): (r: Result<seq<Tag>>)
    ensures r.Ok? ==> forall t :: t in r.value ==> t.block < targetBlocks
    decreases BLOCK_SIZE - off
  {
    match ParseTag(fmt, bytes, off, targetBlocks)
    case Err(e) => Err(e)
    case Ok((tag, next)) =>
      if LastTagFlag(tag.flags) then Ok([tag])
      else
        match ParseTagsFrom(fmt, bytes, next, targetBlocks)
        case Err(e) => Err(e)
        case Ok(rest) => Ok([tag] + rest)
  }

  function ParseTags(fmt: Format, bytes: Block, targetBlocks: nat): (r: Result<seq<Tag>>)
    ensures r.Ok? ==> forall t :: t in r.value ==> t.block < targetBlocks
  {
    ParseTagsFrom(fmt, bytes, HEADER_BYTES, targetBlocks)
  }

  // ---- Round trip -----------------------------------------------------------

  function TagOf(fmt: Format, sequence: u32, group: seq<Entry>, index: nat): Tag
    requires index < |group|
  {
    Tag(group[index].home, TagFlags(group[index].image, index, |group|),
        if fmt.features.v3 then Some(fmt.TagChecksum(sequence, Escaped(group[index].image))) else None)
  }

  function TagsOf(fmt: Format, sequence: u32, group: seq<Entry>): seq<Tag> {
    seq(|group|, i requires 0 <= i < |group| => TagOf(fmt, sequence, group, i))
  }

  /** The four words of a checksummed tag. */
  lemma Quarters(a: seq<byte>, b: seq<byte>, c: seq<byte>, d: seq<byte>)
    requires |a| == |b| == |c| == |d| == 4
    ensures var s := a + b + c + d;
            && Be32(s, 0) == Be32(a, 0) && Be32(s, 4) == Be32(b, 0)
            && Be32(s, 8) == Be32(c, 0) && Be32(s, 12) == Be32(d, 0)
  {
  }

  /** The fields of a checksum-free tag. */
  lemma PlainFields(low: seq<byte>, flags: seq<byte>, tail: nat)
    requires |low| == 4 && |flags| == 2
    ensures var s := low + Zeros(2) + flags + Zeros(tail);
            && Be32(s, 0) == Be32(low, 0) && Be16(s, 6) == Be16(flags, 0)
            && (tail == 4 ==> Be32(s, 8) == 0)
  {
  }

  /** Reading at `at` in a window of `bytes` reads `bytes` itself. */
  lemma InWindow(bytes: seq<byte>, off: nat, s: seq<byte>, at: nat)
    requires off + |s| <= |bytes| && bytes[off..off + |s|] == s
    ensures at + 2 <= |s| ==> Be16(bytes, off + at) == Be16(s, at)
    ensures at + 4 <= |s| ==> Be32(bytes, off + at) == Be32(s, at)
  {
    var w := bytes[off..off + |s|];
    if at + 4 <= |s| {
      assert w[at] == s[at] && w[at + 1] == s[at + 1] && w[at + 2] == s[at + 2] && w[at + 3] == s[at + 3];
    } else if at + 2 <= |s| {
      assert w[at] == s[at] && w[at + 1] == s[at + 1];
    }
  }

  /** Bytes that hold the fixed part of a tag parse to that tag's fields. */
  lemma FixedTagFields(fmt: Format, bytes: Block, off: nat, sequence: u32, e: Entry, flags: u32)
    requires flags <= 11 && off + fmt.features.TagBytes() <= BLOCK_SIZE
    requires bytes[off..off + fmt.features.TagBytes()] == FixedTagBytes(fmt, sequence, e, flags)
    ensures Be32(bytes, off) == e.home % 0x1_0000_0000
    ensures fmt.features.v3 ==>
              && Be32(bytes, off + 4) == flags
              && Be32(bytes, off + 8) == e.home / 0x1_0000_0000
              && Be32(bytes, off + 12) == fmt.TagChecksum(sequence, Escaped(e.image))
    ensures !fmt.features.v3 ==> Be16(bytes, off + 6) == flags
    ensures !fmt.features.v3 && fmt.features.has64bit ==> Be32(bytes, off + 8) == 0
  {
    var s := FixedTagBytes(fmt, sequence, e, flags);
    InWindow(bytes, off, s, 0);
    if fmt.features.v3 {
      Quarters(ToBe32(e.home % 0x1_0000_0000), ToBe32(flags), ToBe32(e.home / 0x1_0000_0000),
               ToBe32(fmt.TagChecksum(sequence, Escaped(e.image))));
      InWindow(bytes, off, s, 4);
      InWindow(bytes, off, s, 8);
      InWindow(bytes, off, s, 12);
    } else {
      PlainFields(ToBe32(e.home % 0x1_0000_0000), ToBe16(flags), if fmt.features.has64bit then 4 else 0);
      InWindow(bytes, off, s, 6);
      InWindow(bytes, off, s, 8);
    }
  }

  lemma TagBytesStart(fmt: Format, sequence: u32, group: seq<Entry>, index: nat)
    requires index < |group|
    ensures TagBytesAt(fmt, sequence, group, index)[..fmt.features.TagBytes()]
            == FixedTagBytes(fmt, sequence, group[index], TagFlags(group[index].image, index, |group|))
  {
    hide FixedTagBytes;
  }

  lemma TagRoundTrip(
    fmt: Format, sequence: u32, group: seq<Entry>, index: nat, bytes: Block, off: nat, next: nat, targetBlocks: nat)
    requires index < |group|
    requires Encodable(fmt.features, group[index].home) && group[index].home < targetBlocks
    requires next == off + |TagBytesAt(fmt, sequence, group, index)| <= BLOCK_SIZE
    requires off + fmt.features.TagBytes() <= BLOCK_SIZE - fmt.features.TailBytes()
    requires bytes[off..next] == TagBytesAt(fmt, sequence, group, index)
    ensures ParseTag(fmt, bytes, off, targetBlocks) == Ok((TagOf(fmt, sequence, group, index), next))
  {
    hide FixedTagBytes;
    hide TagFlags;
    var size := fmt.features.TagBytes();
    var e := group[index];
    var flags := TagFlags(e.image, index, |group|);
    var w := bytes[off..next];
    TagBytesStart(fmt, sequence, group, index);
    assert bytes[off..off + size] == w[..size];
    FixedTagFields(fmt, bytes, off, sequence, e, flags);
    if index == 0 {
      assert bytes[off + size..off + size + 16] == w[size..] == fmt.uuid;
    }
  }

  /** A tag names its home to recovery exactly when the format can encode the
      home: otherwise recovery refuses the tag or goes to another block. */
  lemma TagNamesHome(
    fmt: Format, sequence: u32, group: seq<Entry>, index: nat, bytes: Block, off: nat, next: nat, targetBlocks: nat)
    requires index < |group| && group[index].home < targetBlocks
    requires next == off + |TagBytesAt(fmt, sequence, group, index)| <= BLOCK_SIZE
    requires off + fmt.features.TagBytes() <= BLOCK_SIZE - fmt.features.TailBytes()
    requires bytes[off..next] == TagBytesAt(fmt, sequence, group, index)
    ensures var r := ParseTag(fmt, bytes, off, targetBlocks);
            (r.Ok? && r.value.0.block == group[index].home) <==> Encodable(fmt.features, group[index].home)
  {
    if Encodable(fmt.features, group[index].home) {
      TagRoundTrip(fmt, sequence, group, index, bytes, off, next, targetBlocks);
    } else {
      var size := fmt.features.TagBytes();
      var e := group[index];
      TagBytesStart(fmt, sequence, group, index);
      assert bytes[off..off + size] == bytes[off..next][..size];
      FixedTagFields(fmt, bytes, off, sequence, e, TagFlags(e.image, index, |group|));
    }
  }

  /** A blank block with the tag that the encoder writes for `e` alone. */
  function LoneTag(fmt: Format, sequence: u32, e: Entry): Block {
    Put(Zeros(BLOCK_SIZE), HEADER_BYTES, TagBytesAt(fmt, sequence, [e], 0))
  }

  /** Does recovery find the way from the tag of `e` back to its home? */
  predicate ReadsBack(fmt: Format, sequence: u32, e: Entry) {
    var r := ParseTag(fmt, LoneTag(fmt, sequence, e), HEADER_BYTES, e.home + 1);
    r.Ok? && r.value.0.block == e.home
  }

  /** The encoder takes exactly the entries whose tags read back. */
  lemma EncodableIffReadsBack(fmt: Format, sequence: u32, e: Entry)
    ensures ReadsBack(fmt, sequence, e) <==> Encodable(fmt.features, e.home)
  {
    hide ParseTag;
    hide Encodable;
    hide FixedTagBytes;
    var tag := TagBytesAt(fmt, sequence, [e], 0);
    TagNamesHome(fmt, sequence, [e], 0, LoneTag(fmt, sequence, e), HEADER_BYTES, HEADER_BYTES + |tag|, e.home + 1);
  }

  predicate GroupEncodable(features: Features, group: seq<Entry>, targetBlocks: nat) {
    forall e :: e in group ==> Encodable(features, e.home) && e.home < targetBlocks
  }

  lemma TagInDescriptor(fmt: Format, sequence: u32, group: seq<Entry>, index: nat, bytes: Block, targetBlocks: nat)
    requires FitsDescriptor(fmt.features, group) && index < |group|
    requires GroupEncodable(fmt.features, group, targetBlocks)
    requires DescriptorPrefix(fmt, sequence, group, |group|) <= bytes
    ensures ParseTag(fmt, bytes, |DescriptorPrefix(fmt, sequence, group, index)|, targetBlocks)
            == Ok((TagOf(fmt, sequence, group, index), |DescriptorPrefix(fmt, sequence, group, index + 1)|))
  {
    hide *;
    var before := DescriptorPrefix(fmt, sequence, group, index);
    var tag := TagBytesAt(fmt, sequence, group, index);
    var off, next := |before|, |DescriptorPrefix(fmt, sequence, group, index + 1)|;
    PrefixStep(fmt, sequence, group, index);
    PrefixGrows(fmt, sequence, group, index + 1, |group|);
    PrefixFits(fmt, sequence, group, index);
    GroupMember(fmt.features, group, index, targetBlocks);
    MiddleOfPrefix(before, tag, bytes);
    TagRoundTrip(fmt, sequence, group, index, bytes, off, next, targetBlocks);
  }

  lemma GroupMember(features: Features, group: seq<Entry>, index: nat, targetBlocks: nat)
    requires index < |group| && GroupEncodable(features, group, targetBlocks)
    ensures Encodable(features, group[index].home) && group[index].home < targetBlocks
  {
  }

  lemma PrefixStep(fmt: Format, sequence: u32, group: seq<Entry>, index: nat)
    requires index < |group|
    ensures DescriptorPrefix(fmt, sequence, group, index + 1)
            == DescriptorPrefix(fmt, sequence, group, index) + TagBytesAt(fmt, sequence, group, index)
  {
  }

  lemma MiddleOfPrefix(before: seq<byte>, tag: seq<byte>, bytes: seq<byte>)
    requires before + tag <= bytes
    ensures bytes[|before|..|before| + |tag|] == tag
  {
    var after := before + tag;
    assert bytes[..|after|] == after;
    assert bytes[|before|..|after|] == after[|before|..];
  }

  lemma {:induction false} TagsRoundTripFrom(
    fmt: Format, sequence: u32, group: seq<Entry>, index: nat, bytes: Block, targetBlocks: nat)
    requires FitsDescriptor(fmt.features, group) && index < |group|
    requires GroupEncodable(fmt.features, group, targetBlocks)
    requires DescriptorPrefix(fmt, sequence, group, |group|) <= bytes
    ensures ParseTagsFrom(fmt, bytes, |DescriptorPrefix(fmt, sequence, group, index)|, targetBlocks)
            == Ok(TagsOf(fmt, sequence, group)[index..])
    decreases |group| - index
  {
    hide ParseTag;
    hide TagOf;
    hide TagsOf;
    hide DescriptorPrefix;
    TagInDescriptor(fmt, sequence, group, index, bytes, targetBlocks);
    TagsTail(fmt, sequence, group, index);
    if index + 1 < |group| {
      TagsRoundTripFrom(fmt, sequence, group, index + 1, bytes, targetBlocks);
    }
  }

  lemma TagsTail(fmt: Format, sequence: u32, group: seq<Entry>, index: nat)
    requires index < |group|
    ensures var tags := TagsOf(fmt, sequence, group);
            tags[index..] == [TagOf(fmt, sequence, group, index)] + tags[index + 1..]
            && (index + 1 == |group| ==> tags[index..] == [TagOf(fmt, sequence, group, index)])
    ensures LastTagFlag(TagOf(fmt, sequence, group, index).flags) <==> index + 1 == |group|
  {
  }

  /** Recovery reads a descriptor back exactly as it was written: right header,
      valid checksum, the same tags in the same order. */
  lemma DescriptorRoundTrip(fmt: Format, sequence: u32, group: seq<Entry>, targetBlocks: nat)
    requires FitsDescriptor(fmt.features, group)
    requires GroupEncodable(fmt.features, group, targetBlocks)
    ensures var d := DescriptorBlock(fmt, sequence, group);
            && ParseHeader(d) == Ok(Header(Descriptor, sequence))
            && (fmt.features.v3 ==> fmt.BlockChecksumValid(d))
            && ParseTags(fmt, d, targetBlocks) == Ok(TagsOf(fmt, sequence, group))
  {
    hide *;
    var prefix := DescriptorPrefix(fmt, sequence, group, |group|);
    var d := DescriptorBlock(fmt, sequence, group);
    DescriptorShape(fmt, sequence, group);
    PrefixHeader(fmt, sequence, group, |group|);
    ParseTagsStart(fmt, sequence, group, d, targetBlocks);
    assert d[..HEADER_BYTES] == prefix[..HEADER_BYTES];
    HeaderRoundTrip(d, Header(Descriptor, sequence));
    TagsRoundTripFrom(fmt, sequence, group, 0, d, targetBlocks);
  }

  lemma ParseTagsStart(fmt: Format, sequence: u32, group: seq<Entry>, d: Block, targetBlocks: nat)
    requires FitsDescriptor(fmt.features, group)
    ensures 0 < |group|
    ensures ParseTags(fmt, d, targetBlocks)
            == ParseTagsFrom(fmt, d, |DescriptorPrefix(fmt, sequence, group, 0)|, targetBlocks)
    ensures TagsOf(fmt, sequence, group)[0..] == TagsOf(fmt, sequence, group)
  {
  }

  /** A descriptor starts with its prefix, and its tail seals it. */
  lemma DescriptorShape(fmt: Format, sequence: u32, group: seq<Entry>)
    requires FitsDescriptor(fmt.features, group)
    ensures DescriptorPrefix(fmt, sequence, group, |group|) <= DescriptorBlock(fmt, sequence, group)
    ensures fmt.features.v3 ==> fmt.BlockChecksumValid(DescriptorBlock(fmt, sequence, group))
  {
    hide DescriptorPrefix;
    PrefixFits(fmt, sequence, group, |group|);
    var prefix := DescriptorPrefix(fmt, sequence, group, |group|);
    var body: Block := Put(Zeros(BLOCK_SIZE), 0, prefix);
    assert body[..|prefix|] == body[0..0 + |prefix|] == prefix;
    if fmt.features.v3 {
      var sum := ToBe32(fmt.BlockChecksum(body));
      var d := Put(body, BLOCK_SIZE - 4, sum);
      assert d[..|prefix|] == d[..BLOCK_SIZE - 4][..|prefix|] == body[..|prefix|];
      assert d[BLOCK_SIZE - 4..BLOCK_SIZE - 4 + 4] == sum;
      Be32Written(d, BLOCK_SIZE - 4, fmt.BlockChecksum(body));
      assert d[..|d| - 4] == body[..|body| - 4];
    }
  }

  lemma PrefixHeader(fmt: Format, sequence: u32, group: seq<Entry>, count: nat)
    requires count <= |group|
    ensures |DescriptorPrefix(fmt, sequence, group, count)| >= HEADER_BYTES
    ensures DescriptorPrefix(fmt, sequence, group, count)[..HEADER_BYTES] == HeaderBytes(Header(Descriptor, sequence))
  {
  }
}
