/** The journal's on-disk format spelled out in bytes: numbers, flags, field
    positions and what each checksum covers.  The codecs are compared with it
    field by field. */
module JournalFormat {
  import opened Bytes
  import opened Jbd2
  import opened LogTags

  // ---- Numbers and flags -------------------------------------------------------

  /** Tag flags by bit: escape, same UUID, deleted, last tag. */
  lemma FlagBits(escape: nat, same: nat, deleted: nat, last: nat, rest: nat)
    requires escape < 2 && same < 2 && deleted < 2 && last < 2
    ensures var flags := escape + 2 * same + 4 * deleted + 8 * last + 16 * rest;
            && (EscapeFlag(flags) <==> escape == 1) && (SameUuidFlag(flags) <==> same == 1)
            && (DeletedFlag(flags) <==> deleted == 1) && (LastTagFlag(flags) <==> last == 1)
  {
    var flags := escape + 2 * same + 4 * deleted + 8 * last + 16 * rest;
    assert flags / 2 == same + 2 * deleted + 4 * last + 8 * rest;
    assert flags / 4 == deleted + 2 * last + 4 * rest;
    assert flags / 8 == last + 2 * rest;
  }

  /** Incompatible features by bit: revoke records, 64-bit block numbers,
      asynchronous commit, checksum version 2, version 3 and higher ones.  The
      first two and version 3 are supported, and no feature of another kind. */
  lemma FeatureBits(compat: u32, readOnly: u32, revoke: nat, wide: nat, async: nat, v2: nat, v3: nat, rest: nat)
    requires revoke < 2 && wide < 2 && async < 2 && v2 < 2 && v3 < 2
    requires revoke + 2 * wide + 4 * async + 8 * v2 + 16 * v3 + 32 * rest < 0x1_0000_0000
    ensures var r := ValidateFeatures(compat, revoke + 2 * wide + 4 * async + 8 * v2 + 16 * v3 + 32 * rest, readOnly);
            && (r.Ok? <==> compat == 0 && readOnly == 0 && async == 0 && v2 == 0 && rest == 0)
            && (r.Ok? ==> r.value == Features(v3 == 1, wide == 1, revoke == 1))
            && (r.Err? ==> r.code == ENOTSUP)
  {
    var bits := revoke + 2 * wide + 4 * async + 8 * v2 + 16 * v3 + 32 * rest;
    assert bits / 2 == wide + 2 * async + 4 * v2 + 8 * v3 + 16 * rest;
    assert bits / 4 == async + 2 * v2 + 4 * v3 + 8 * rest;
    assert bits / 8 == v2 + 2 * v3 + 4 * rest;
    assert bits / 16 == v3 + 2 * rest;
  }

  /** The number of each type of block. */
  function TypeNumber(t: BlockType): nat {
    if t == Descriptor then 1
    else if t == Commit then 2
    else if t == SuperblockV1 then 3
    else if t == SuperblockV2 then 4
    else 5
  }

  /** A header is accepted exactly if it has the magic number and one of the
      five types; these and the sequence number are its three words. */
  lemma HeaderOnDisk(bytes: seq<byte>, h: Header)
    ensures ParseHeader(bytes) == Ok(h) <==>
              && |bytes| >= 12 && bytes[..4] == [0xc0, 0x3b, 0x39, 0x98]
              && BigEndian(bytes[4..8]) == TypeNumber(h.blockType) && BigEndian(bytes[8..12]) == h.sequence
    ensures ParseHeader(bytes).Err? ==> ParseHeader(bytes).code == EIO
  {
    hide BigEndian;
    if |bytes| >= 12 {
      ReadsBigEndian(bytes, 4);
      ReadsBigEndian(bytes, 8);
      MagicBytes(bytes);
    }
  }

  lemma MagicBytes(bytes: seq<byte>)
    requires |bytes| >= 4
    ensures Be32(bytes, 0) == MAGIC <==> bytes[..4] == [0xc0, 0x3b, 0x39, 0x98]
  {
    Be32Bytes(bytes, 0);
    assert bytes[0..0 + 4] == bytes[..4];
    if Be32(bytes, 0) == MAGIC {
      assert ToBe32(MAGIC) == [0xc0, 0x3b, 0x39, 0x98];
    }
  }

  // ---- Tags -------------------------------------------------------------------------

  /** A tag has the low half of the block number first.  With checksums follow
      flags, high half and checksum of the image as words; else two bytes that
      are zero, the flags as half a word and, in a 64-bit journal, four bytes
      that are zero. */
  lemma TagOnDisk(fmt: Format, sequence: u32, e: Entry, flags: u32)
    requires flags <= 11
    ensures var s := FixedTagBytes(fmt, sequence, e, flags);
            && |s| == (if fmt.features.v3 then 16 else if fmt.features.has64bit then 12 else 8)
            && BigEndian(s[..4]) == e.home % 0x1_0000_0000
            && (fmt.features.v3 ==>
                  && BigEndian(s[4..8]) == flags && BigEndian(s[8..12]) == e.home / 0x1_0000_0000
                  && BigEndian(s[12..16]) == fmt.TagChecksum(sequence, Escaped(e.image)))
            && (!fmt.features.v3 ==> s[4..6] == [0, 0] && BigEndian(s[6..8]) == flags)
            && (!fmt.features.v3 && fmt.features.has64bit ==> s[8..] == [0, 0, 0, 0])
  {
    hide BigEndian;
    var s := FixedTagBytes(fmt, sequence, e, flags);
    assert s[0..4] == s[..4];
    ReadsBigEndian(s, 0);
    if fmt.features.v3 {
      Quarters(ToBe32(e.home % 0x1_0000_0000), ToBe32(flags), ToBe32(e.home / 0x1_0000_0000),
               ToBe32(fmt.TagChecksum(sequence, Escaped(e.image))));
      ReadsBigEndian(s, 4);
      ReadsBigEndian(s, 8);
      ReadsBigEndian(s, 12);
    } else {
      PlainFields(ToBe32(e.home % 0x1_0000_0000), ToBe16(flags), if fmt.features.has64bit then 4 else 0);
      ReadsBigEndian(s, 6);
    }
  }

  // ---- Checksums --------------------------------------------------------------------

  /** The checksum of two pieces, one after the other, is that of the whole. */
  ghost predicate Streams(crc: Crc) {
    forall seed: u32, a: seq<byte>, b: seq<byte> :: crc(crc(seed, a), b) == crc(seed, a + b)
  }

  /** `bytes` with four bytes blanked. */
  function Blanked(bytes: seq<byte>, off: nat): seq<byte>
    requires off + 4 <= |bytes|
  {
    bytes[..off] + [0, 0, 0, 0] + bytes[off + 4..]
  }

  lemma StreamsAt(crc: Crc, seed: u32, a: seq<byte>, b: seq<byte>)
    requires Streams(crc)
    ensures crc(crc(seed, a), b) == crc(seed, a + b)
  {
  }

  /** What the checksums cover: that of an image the journal's UUID, the
      sequence number and the image as it stands in the log; that of a
      descriptor or revoke block, and of a commit block, the UUID and the block
      with the checksum itself blanked. */
  lemma ChecksumsCover(fmt: Format, sequence: u32, bytes: Block)
    requires Streams(fmt.crc)
    ensures fmt.TagChecksum(sequence, bytes) == fmt.crc(0xFFFF_FFFF, fmt.uuid + ToBe32(sequence) + bytes)
    ensures fmt.BlockChecksum(bytes) == fmt.crc(0xFFFF_FFFF, fmt.uuid + Blanked(bytes, 4092))
    ensures fmt.CommitChecksum(bytes) == fmt.crc(0xFFFF_FFFF, fmt.uuid + Blanked(bytes, 16))
  {
    hide Streams;
    hide ToBe32;
    assert Zeros(4) == [0, 0, 0, 0];
    StreamsAt(fmt.crc, 0xFFFF_FFFF, fmt.uuid, ToBe32(sequence));
    StreamsAt(fmt.crc, 0xFFFF_FFFF, fmt.uuid + ToBe32(sequence), bytes);
    StreamsAt(fmt.crc, 0xFFFF_FFFF, fmt.uuid, bytes[..4092]);
    StreamsAt(fmt.crc, 0xFFFF_FFFF, fmt.uuid + bytes[..4092], [0, 0, 0, 0]);
    assert fmt.uuid + bytes[..4092] + [0, 0, 0, 0] == fmt.uuid + Blanked(bytes, 4092);
    StreamsAt(fmt.crc, 0xFFFF_FFFF, fmt.uuid, bytes[..16]);
    StreamsAt(fmt.crc, 0xFFFF_FFFF, fmt.uuid + bytes[..16], [0, 0, 0, 0]);
    StreamsAt(fmt.crc, 0xFFFF_FFFF, fmt.uuid + bytes[..16] + [0, 0, 0, 0], bytes[20..]);
    assert fmt.uuid + bytes[..16] + [0, 0, 0, 0] + bytes[20..] == fmt.uuid + Blanked(bytes, 16);
  }

  /** That of the superblock covers its 1024 bytes, the checksum blanked. */
  lemma SuperblockChecksumCovers(crc: Crc, bytes: seq<byte>)
    requires Streams(crc) && |bytes| >= 1024
    ensures SuperblockChecksum(crc, bytes) == crc(0xFFFF_FFFF, Blanked(bytes[..1024], 252))
  {
    hide Streams;
    assert Zeros(4) == [0, 0, 0, 0];
    StreamsAt(crc, 0xFFFF_FFFF, bytes[..252], [0, 0, 0, 0]);
    StreamsAt(crc, 0xFFFF_FFFF, bytes[..252] + [0, 0, 0, 0], bytes[256..1024]);
    assert bytes[..252] + [0, 0, 0, 0] + bytes[256..1024] == Blanked(bytes[..1024], 252);
  }

  /** Where the checksums are kept. */
  lemma ChecksumsKept(fmt: Format, sequence: u32, bytes: Block)
    ensures fmt.BlockChecksumValid(bytes) <==> BigEndian(bytes[4092..]) == fmt.BlockChecksum(bytes)
    ensures IsCommitOf(fmt, bytes, sequence) <==>
              && ParseHeader(bytes) == Ok(Header(Commit, sequence))
              && (fmt.features.v3 ==> BigEndian(bytes[16..20]) == fmt.CommitChecksum(bytes))
  {
    hide BigEndian;
    hide ParseHeader;
    assert bytes[4092..4096] == bytes[4092..];
    ReadsBigEndian(bytes, 4092);
    ReadsBigEndian(bytes, 16);
  }

  // ---- The superblock -------------------------------------------------------------------

  /** The words of the superblock behind its header: block size, length and
      first block of the log, next sequence number, start of the log, error,
      and compatible, incompatible and read-only features. */
  function SuperblockWords(sb: Superblock): seq<byte> {
    ToBe32(4096) + ToBe32(sb.maxLen) + ToBe32(sb.first) + ToBe32(sb.sequence) + ToBe32(sb.start) + ToBe32(sb.errno)
    + ToBe32(0)
    + ToBe32((if sb.features.hasRevoke then 1 else 0) + (if sb.features.has64bit then 2 else 0)
             + (if sb.features.v3 then 16 else 0))
    + ToBe32(0)
  }

  /** The image of a superblock: header, words, UUID, the checksum type at byte
      80, and anything else that is said elsewhere about the journal.  The
      checksum is at byte 252. */
  ghost predicate SuperblockImage(crc: Crc, bytes: seq<byte>, sb: Superblock) {
    && |bytes| >= 1024
    && bytes[..12] == [0xc0, 0x3b, 0x39, 0x98, 0, 0, 0, 4] + bytes[8..12]
    && bytes[12..48] == SuperblockWords(sb)
    && bytes[48..64] == sb.uuid
    && bytes[80] == (if sb.features.v3 then 4 else 0)
    && (sb.features.v3 ==> BigEndian(bytes[252..256]) == SuperblockChecksum(crc, bytes))
  }

  lemma WordsAt(s: seq<byte>, sb: Superblock)
    requires s == SuperblockWords(sb)
    ensures |s| == 36
    ensures Be32(s, 0) == 4096 && Be32(s, 4) == sb.maxLen && Be32(s, 8) == sb.first
    ensures Be32(s, 12) == sb.sequence && Be32(s, 16) == sb.start && Be32(s, 20) == sb.errno
    ensures Be32(s, 24) == 0 && Be32(s, 32) == 0
    ensures ValidateFeatures(Be32(s, 24), Be32(s, 28), Be32(s, 32)) == Ok(sb.features)
  {
    hide ToBe32;
    hide Be32;
    hide ValidateFeatures;
    var incompat := (if sb.features.hasRevoke then 1 else 0) + (if sb.features.has64bit then 2 else 0)
                    + (if sb.features.v3 then 16 else 0);
    NineParts(s, ToBe32(4096), ToBe32(sb.maxLen), ToBe32(sb.first), ToBe32(sb.sequence), ToBe32(sb.start),
              ToBe32(sb.errno), ToBe32(0), ToBe32(incompat), ToBe32(0));
    Be32Written(s, 0, 4096);
    Be32Written(s, 4, sb.maxLen);
    Be32Written(s, 8, sb.first);
    Be32Written(s, 12, sb.sequence);
    Be32Written(s, 16, sb.start);
    Be32Written(s, 20, sb.errno);
    Be32Written(s, 24, 0);
    Be32Written(s, 28, incompat);
    Be32Written(s, 32, 0);
    FeatureBits(0, 0, if sb.features.hasRevoke then 1 else 0, if sb.features.has64bit then 1 else 0, 0, 0,
                if sb.features.v3 then 1 else 0, 0);
  }

  lemma NineParts(s: seq<byte>, a: seq<byte>, b: seq<byte>, c: seq<byte>, d: seq<byte>, e: seq<byte>, f: seq<byte>,
                  g: seq<byte>, h: seq<byte>, i: seq<byte>)
    requires |a| == |b| == |c| == |d| == |e| == |f| == |g| == |h| == |i| == 4
    requires s == a + b + c + d + e + f + g + h + i
    ensures |s| == 36 && s[0..4] == a && s[4..8] == b && s[8..12] == c && s[12..16] == d && s[16..20] == e
    ensures s[20..24] == f && s[24..28] == g && s[28..32] == h && s[32..36] == i
  {
  }

  /** Superblock round trip: mount reads exactly what such an image says, if the
      log has a block and begins inside it. */
  lemma SuperblockReads(crc: Crc, bytes: seq<byte>, sb: Superblock)
    requires SuperblockImage(crc, bytes, sb)
    requires 0 < sb.first < sb.maxLen && (sb.start == 0 || sb.first <= sb.start < sb.maxLen)
    ensures ParseSuperblock(crc, bytes) == Ok(sb)
  {
    hide BigEndian;
    hide SuperblockWords;
    hide SuperblockChecksum;
    hide ValidateFeatures;
    hide ParseHeader;
    var words := bytes[12..48];
    WordsAt(words, sb);
    assert bytes[..4] == bytes[..12][..4] && bytes[4..8] == bytes[..12][4..8];
    assert bytes[4..8] == ToBe32(4);
    NumberOf(4, bytes[4..8]);
    ReadsBigEndian(bytes, 8);
    HeaderOnDisk(bytes, Header(SuperblockV2, Be32(bytes, 8)));
    InWindow(bytes, 12, words, 0);
    InWindow(bytes, 12, words, 4);
    InWindow(bytes, 12, words, 8);
    InWindow(bytes, 12, words, 12);
    InWindow(bytes, 12, words, 16);
    InWindow(bytes, 12, words, 20);
    InWindow(bytes, 12, words, 24);
    InWindow(bytes, 12, words, 28);
    InWindow(bytes, 12, words, 32);
    ReadsBigEndian(bytes, 252);
  }

  lemma NumberOf(v: u32, s: seq<byte>)
    requires s == ToBe32(v)
    ensures BigEndian(s) == v
  {
    hide BigEndian;
    ReadsBigEndian(s, 0);
    assert s[0..4] == s;
  }

  /** Nothing else is accepted. */
  lemma OnlySuperblocksRead(crc: Crc, bytes: seq<byte>)
    requires ParseSuperblock(crc, bytes).Ok?
    ensures SuperblockImage(crc, bytes, ParseSuperblock(crc, bytes).value)
  {
    hide BigEndian;
    hide SuperblockChecksum;
    hide ParseHeader;
    hide ToBe32;
    hide Be32;
    var sb := ParseSuperblock(crc, bytes).value;
    HeaderOnDisk(bytes, ParseHeader(bytes).value);
    TypeBytes(bytes);
    FeatureWord(Be32(bytes, 36), Be32(bytes, 40), Be32(bytes, 44));
    assert bytes[..12] == bytes[..4] + bytes[4..8] + bytes[8..12];
    Be32Bytes(bytes, 12);
    Be32Bytes(bytes, 16);
    Be32Bytes(bytes, 20);
    Be32Bytes(bytes, 24);
    Be32Bytes(bytes, 28);
    Be32Bytes(bytes, 32);
    Be32Bytes(bytes, 36);
    Be32Bytes(bytes, 40);
    Be32Bytes(bytes, 44);
    NineWords(bytes);
    ReadsBigEndian(bytes, 252);
  }

  lemma TypeBytes(bytes: seq<byte>)
    requires |bytes| >= 12 && BigEndian(bytes[4..8]) == 4
    ensures bytes[4..8] == [0, 0, 0, 4]
  {
    ReadsBigEndian(bytes, 4);
    Be32Bytes(bytes, 4);
    assert ToBe32(4) == [0, 0, 0, 4];
  }

  /** The feature word is determined by the features. */
  lemma FeatureWord(compat: u32, incompat: u32, readOnly: u32)
    requires ValidateFeatures(compat, incompat, readOnly).Ok?
    ensures compat == 0 && readOnly == 0
    ensures var f := ValidateFeatures(compat, incompat, readOnly).value;
            incompat == (if f.hasRevoke then 1 else 0) + (if f.has64bit then 2 else 0) + (if f.v3 then 16 else 0)
  {
  }

  lemma NineWords(b: seq<byte>)
    requires |b| >= 48
    ensures b[12..48] == b[12..16] + b[16..20] + b[20..24] + b[24..28] + b[28..32] + b[32..36] + b[36..40]
                         + b[40..44] + b[44..48]
  {
  }
}
