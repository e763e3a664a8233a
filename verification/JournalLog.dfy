/** The writer's half of the journal: how many log blocks a transaction needs,
    where in the ring they go, and what they contain. */
module JournalLog {
  import opened Bytes
  import opened Jbd2
  import opened LogTags

  // ---- Reservation ---------------------------------------------------------

  function RingLen(sb: Superblock): Result<nat> {
    if sb.first <= sb.maxLen then Ok(sb.maxLen - sb.first) else Err(EIO)
  }

  /** Payload, descriptors and the commit block of `blocks` staged images. */
  function RequiredLogBlocks(blocks: nat, features: Features): (n: nat) {
    blocks + DescriptorCount(blocks, features) + 1
  }

  /** Rounding division by the number of tags in a descriptor. */
  function DescriptorCount(blocks: nat, features: Features): nat {
    if features.v3 then (blocks + 254 - 1) / 254
    else if features.has64bit then (blocks + 339 - 1) / 339
    else (blocks + 508 - 1) / 508
  }

  lemma DescriptorCountRoundsUp(blocks: nat, features: Features)
    ensures var per := TagsPerDescriptor(features);
            DescriptorCount(blocks, features) == (blocks + per - 1) / per
  {
  }

  lemma DescriptorCountStep(blocks: nat, features: Features)
    ensures DescriptorCount(blocks, features)
            == if blocks == 0 then 0
               else if blocks <= TagsPerDescriptor(features) then 1
               else 1 + DescriptorCount(blocks - TagsPerDescriptor(features), features)
  {
  }

  lemma RequiredMonotone(a: nat, b: nat, features: Features)
    requires a <= b
    ensures RequiredLogBlocks(a, features) <= RequiredLogBlocks(b, features)
  {
  }

  // ---- Ring positions ------------------------------------------------------

  function RingNext(first: nat, maxLen: nat, current: nat): nat {
    if current + 1 == maxLen then first else current + 1
  }

  /** The ring slot `i` places after `head`. */
  function RingAt(first: nat, maxLen: nat, head: nat, i: nat): nat
    requires first <= head < maxLen && i <= maxLen - first
  {
    if head + i < maxLen then head + i else head + i - (maxLen - first)
  }

  /** Walking the ring stays inside it, and within one turn never meets the
      same slot twice. */
  lemma RingAtInside(first: nat, maxLen: nat, head: nat, i: nat)
    requires first <= head < maxLen && i <= maxLen - first
    ensures first <= RingAt(first, maxLen, head, i) < maxLen
    ensures i < maxLen - first ==>
              RingAt(first, maxLen, head, i + 1) == RingNext(first, maxLen, RingAt(first, maxLen, head, i))
    ensures forall j :: 0 <= j < i && i < maxLen - first
                        ==> RingAt(first, maxLen, head, j) != RingAt(first, maxLen, head, i)
  {
  }

  method RingPositions(sb: Superblock, head: nat, count: nat) returns (r: Result<seq<nat>>)
    ensures r.Ok? <==> sb.first <= head < sb.maxLen && count <= sb.maxLen - sb.first
    ensures r.Ok? ==>
              && |r.value| == count
              && (forall i :: 0 <= i < count ==> r.value[i] == RingAt(sb.first, sb.maxLen, head, i))
              && (forall i :: 0 <= i < count ==> sb.first <= r.value[i] < sb.maxLen)
              && (forall i, j :: 0 <= i < j < count ==> r.value[i] != r.value[j])
    ensures r.Err? ==> r.code in {E2BIG, EIO}
  {
    var len := RingLen(sb);
    if len.Err? {
      return Err(len.code);
    }
    if count > len.value || head < sb.first || head >= sb.maxLen {
      return Err(E2BIG);
    }
    var result: seq<nat> := [];
    var current := head;
    for i := 0 to count
      invariant |result| == i
      invariant current == RingAt(sb.first, sb.maxLen, head, i)
      invariant forall k :: 0 <= k < i ==> result[k] == RingAt(sb.first, sb.maxLen, head, k)
    {
      result := result + [current];
      current := RingNext(sb.first, sb.maxLen, current);
    }
    return Ok(result);
  }

  // ---- Log contents --------------------------------------------------------

  function FirstGroup(features: Features, entries: seq<Entry>): (group: seq<Entry>)
    ensures group <= entries
    ensures |entries| > 0 ==> FitsDescriptor(features, group)
  {
    var per := TagsPerDescriptor(features);
    if |entries| <= per then entries else entries[..per]
  }

  function EscapedImages(group: seq<Entry>): (r: seq<Block>)
    ensures |r| == |group|
  {
    seq(|group|, i requires 0 <= i < |group| => Escaped(group[i].image))
  }

  /** The log payload: for each group a descriptor followed by its images. */
  function LogBlocks(fmt: Format, sequence: u32, entries: seq<Entry>): (r: seq<Block>)
    decreases |entries|
  {
    if entries == [] then []
    else
      var group := FirstGroup(fmt.features, entries);
      [DescriptorBlock(fmt, sequence, group)] + EscapedImages(group)
      + LogBlocks(fmt, sequence, entries[|group|..])
  }

  /** Payload plus commit is exactly as long as was reserved. */
  lemma {:induction false} LogLength(fmt: Format, sequence: u32, entries: seq<Entry>)
    ensures |LogBlocks(fmt, sequence, entries)| + 1 == RequiredLogBlocks(|entries|, fmt.features)
    decreases |entries|
  {
    if entries != [] {
      var group := FirstGroup(fmt.features, entries);
      LogLength(fmt, sequence, entries[|group|..]);
      DescriptorCountStep(|entries|, fmt.features);
    }
  }

  predicate AllEncodable(features: Features, entries: seq<Entry>) {
    forall e :: e in entries ==> Encodable(features, e.home)
  }

  /** Recovery finds the home of every entry from its tag. */
  predicate AllReadBack(fmt: Format, sequence: u32, entries: seq<Entry>) {
    forall e :: e in entries ==> ReadsBack(fmt, sequence, e)
  }

  lemma AllEncodableIffReadBack(fmt: Format, sequence: u32, entries: seq<Entry>)
    ensures AllEncodable(fmt.features, entries) <==> AllReadBack(fmt, sequence, entries)
  {
    hide Encodable;
    hide ReadsBack;
    forall e | e in entries
      ensures Encodable(fmt.features, e.home) <==> ReadsBack(fmt, sequence, e)
    {
      EncodableIffReadsBack(fmt, sequence, e);
    }
  }

  /** A partly filled block: what was written so far, then zeros. */
  ghost function Padded(prefix: seq<byte>): (r: seq<byte>)
    requires |prefix| <= BLOCK_SIZE
    ensures |r| == BLOCK_SIZE
  {
    prefix + Zeros(BLOCK_SIZE - |prefix|)
  }

  /** Writing behind the used part of a zeroed buffer appends to it. */
  lemma PutAfterPrefix(prefix: seq<byte>, data: seq<byte>)
    requires |prefix| + |data| <= BLOCK_SIZE
    ensures Put(Padded(prefix), |prefix|, data) == Padded(prefix + data)
  {
    var padded := Padded(prefix);
    assert padded[..|prefix|] == prefix;
    assert padded[|prefix| + |data|..] == Zeros(BLOCK_SIZE - |prefix| - |data|);
  }

  /** Write tag `index` at the moving offset. */
  method EncodeTag(fmt: Format, sequence: u32, group: seq<Entry>, index: nat, buffer: array<byte>, offset: nat)
    returns (next: nat)
    requires FitsDescriptor(fmt.features, group) && index < |group|
    requires buffer.Length == BLOCK_SIZE
    requires offset == |DescriptorPrefix(fmt, sequence, group, index)| <= BLOCK_SIZE
    requires buffer[..] == Padded(DescriptorPrefix(fmt, sequence, group, index))
    modifies buffer
    ensures next == |DescriptorPrefix(fmt, sequence, group, index + 1)| <= BLOCK_SIZE
    ensures buffer[..] == Padded(DescriptorPrefix(fmt, sequence, group, index + 1))
  {
    hide DescriptorPrefix;
    hide Padded;
    ghost var prefix := DescriptorPrefix(fmt, sequence, group, index);
    PrefixStep(fmt, sequence, group, index);
    PrefixFits(fmt, sequence, group, index + 1);
    var e := group[index];
    var tag := FixedTagBytes(fmt, sequence, e, TagFlags(e.image, index, |group|));
    assert TagBytesAt(fmt, sequence, group, index) == if index == 0 then tag + fmt.uuid else tag;
    PutAfterPrefix(prefix, tag);
    CopyInto(buffer, offset, tag);
    next := offset + fmt.features.TagBytes();
    if index == 0 {
      PutAfterPrefix(prefix + tag, fmt.uuid);
      CopyInto(buffer, next, fmt.uuid);
      next := next + 16;
      Associate(prefix, tag, fmt.uuid);
    }
  }

  lemma Associate<T>(a: seq<T>, b: seq<T>, c: seq<T>)
    ensures a + b + c == a + (b + c)
  {
  }

  lemma EscapedImagesStep(group: seq<Entry>, index: nat)
    requires index < |group|
    ensures EscapedImages(group)[..index + 1] == EscapedImages(group)[..index] + [Escaped(group[index].image)]
  {
  }

  /** A zeroed block that holds a descriptor header. */
  method NewDescriptor(fmt: Format, sequence: u32, ghost group: seq<Entry>) returns (buffer: array<byte>)
    ensures fresh(buffer) && buffer.Length == BLOCK_SIZE
    ensures |DescriptorPrefix(fmt, sequence, group, 0)| == HEADER_BYTES <= BLOCK_SIZE
    ensures buffer[..] == Padded(DescriptorPrefix(fmt, sequence, group, 0))
  {
    buffer := new byte[BLOCK_SIZE](_ => 0);
    var header := HeaderBytes(Header(Descriptor, sequence));
    assert buffer[..] == Padded([]);
    PutAfterPrefix([], header);
    assert [] + header == DescriptorPrefix(fmt, sequence, group, 0);
    CopyInto(buffer, 0, header);
  }

  /** Add the checksum tail of a complete descriptor. */
  method SealBuffer(fmt: Format, sequence: u32, ghost group: seq<Entry>, buffer: array<byte>) returns (d: Block)
    requires FitsDescriptor(fmt.features, group) && buffer.Length == BLOCK_SIZE
    requires |DescriptorPrefix(fmt, sequence, group, |group|)| <= BLOCK_SIZE
    requires buffer[..] == Padded(DescriptorPrefix(fmt, sequence, group, |group|))
    modifies buffer
    ensures d == DescriptorBlock(fmt, sequence, group)
  {
    var body: Block := buffer[..];
    SealedDescriptor(fmt, sequence, group);
    if fmt.features.v3 {
      CopyInto(buffer, BLOCK_SIZE - 4, ToBe32(fmt.BlockChecksum(body)));
    }
    d := buffer[..];
  }

  /** Fill one descriptor block and collect the escaped images behind it. */
  method EncodeGroup(fmt: Format, sequence: u32, group: seq<Entry>)
    returns (r: Result<(Block, seq<Block>)>)
    requires FitsDescriptor(fmt.features, group)
    ensures r.Ok? <==> AllReadBack(fmt, sequence, group)
    ensures r.Ok? ==> r.value == (DescriptorBlock(fmt, sequence, group), EscapedImages(group))
    ensures r.Err? ==> r.code == ENOTSUP
  {
    hide *;
    AllEncodableIffReadBack(fmt, sequence, group);
    var buffer := NewDescriptor(fmt, sequence, group);
    var offset := HEADER_BYTES;
    var images: seq<Block> := [];
    for index := 0 to |group|
      invariant offset == |DescriptorPrefix(fmt, sequence, group, index)| <= BLOCK_SIZE
      invariant buffer[..] == Padded(DescriptorPrefix(fmt, sequence, group, index))
      invariant images == EscapedImages(group)[..index]
      invariant forall i :: 0 <= i < index ==> Encodable(fmt.features, group[i].home)
    {
      var e := group[index];
      if !Encodable(fmt.features, e.home) {
        NotEncodable(fmt.features, group, index);
        return Err(ENOTSUP);
      }
      offset := EncodeTag(fmt, sequence, group, index, buffer, offset);
      images := images + [Escaped(e.image)];
      EscapedImagesStep(group, index);
    }
    var descriptor := SealBuffer(fmt, sequence, group, buffer);
    assert EscapedImages(group)[..|group|] == EscapedImages(group);
    r := Ok((descriptor, images));
    AllIndexed(fmt.features, group);
  }

  lemma NotEncodable(features: Features, group: seq<Entry>, index: nat)
    requires index < |group| && !Encodable(features, group[index].home)
    ensures !AllEncodable(features, group)
  {
  }

  lemma AllIndexed(features: Features, group: seq<Entry>)
    requires forall i :: 0 <= i < |group| ==> Encodable(features, group[i].home)
    ensures AllEncodable(features, group)
  {
  }

  lemma SealedDescriptor(fmt: Format, sequence: u32, group: seq<Entry>)
    requires FitsDescriptor(fmt.features, group)
    requires |DescriptorPrefix(fmt, sequence, group, |group|)| <= BLOCK_SIZE
    ensures DescriptorBlock(fmt, sequence, group)
            == SealDescriptor(fmt, Padded(DescriptorPrefix(fmt, sequence, group, |group|)))
  {
    var prefix := DescriptorPrefix(fmt, sequence, group, |group|);
    PutAfterPrefix([], prefix);
    assert Padded([]) == Zeros(BLOCK_SIZE) && [] + prefix == prefix;
  }

  /** Encode a whole transaction, one descriptor per chunk of staged blocks. */
  method EncodeLog(fmt: Format, sequence: u32, staged: seq<Entry>) returns (r: Result<seq<Block>>)
    ensures r.Ok? <==> AllReadBack(fmt, sequence, staged)
    ensures r.Ok? ==> r.value == LogBlocks(fmt, sequence, staged)
    ensures r.Err? ==>
              && r.code == ENOTSUP
              && exists e :: e in staged && e.home >= 0x1_0000_0000 && !(fmt.features.v3 && fmt.features.has64bit)
  {
    hide ReadsBack;
    var output: seq<Block> := [];
    var rest := staged;
    while rest != []
      invariant AllReadBack(fmt, sequence, staged) <==> AllReadBack(fmt, sequence, rest)
      invariant LogBlocks(fmt, sequence, staged) == output + LogBlocks(fmt, sequence, rest)
      decreases |rest|
    {
      var group := FirstGroup(fmt.features, rest);
      SplitReadBack(fmt, sequence, group, rest);
      var encoded := EncodeGroup(fmt, sequence, group);
      if encoded.Err? {
        AllEncodableIffReadBack(fmt, sequence, staged);
        return Err(encoded.code);
      }
      var (descriptor, images) := encoded.value;
      AppendGroup(output, descriptor, images, LogBlocks(fmt, sequence, rest[|group|..]));
      output := output + [descriptor] + images;
      rest := rest[|group|..];
    }
    return Ok(output);
  }

  lemma SplitReadBack(fmt: Format, sequence: u32, group: seq<Entry>, entries: seq<Entry>)
    requires group <= entries
    ensures AllReadBack(fmt, sequence, entries)
            <==> AllReadBack(fmt, sequence, group) && AllReadBack(fmt, sequence, entries[|group|..])
  {
    hide ReadsBack;
    assert entries == group + entries[|group|..];
  }

  lemma AppendGroup(output: seq<Block>, descriptor: Block, images: seq<Block>, rest: seq<Block>)
    ensures output + ([descriptor] + images + rest) == output + [descriptor] + images + rest
  {
  }
}
