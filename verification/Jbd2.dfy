/** JBD2 on-disk structures: block headers, the journal superblock, descriptor
    tags, commit and revoke blocks.  Every integer is big-endian.  The checksum
    is an arbitrary function, so nothing here relies on CRC32C detecting
    corruption. */
module Jbd2 {
  import opened Bytes

  const MAGIC: u32 := 0xc03b_3998
  const SUPERBLOCK_BYTES: nat := 1024
  const HEADER_BYTES: nat := 12
  const BLOCK_TAIL_BYTES: nat := 4
  const UUID_BYTES: nat := 16

  const FLAG_ESCAPE: nat := 1
  const FLAG_SAME_UUID: nat := 2
  const FLAG_LAST_TAG: nat := 8

  predicate EscapeFlag(flags: nat) { flags % 2 == 1 }
  predicate SameUuidFlag(flags: nat) { flags / 2 % 2 == 1 }
  predicate DeletedFlag(flags: nat) { flags / 4 % 2 == 1 }
  predicate LastTagFlag(flags: nat) { flags / 8 % 2 == 1 }

  const CRC32C_CHKSUM: byte := 4

  /** `crc(seed, data)`: the running checksum of `data` started from `seed`. */
  type Crc = (u32, seq<byte>) -> u32

  // ---- Block headers ----------------------------------------------------

  datatype BlockType = Descriptor | Commit | SuperblockV1 | SuperblockV2 | Revoke

  datatype Header = Header(blockType: BlockType, sequence: u32)

  function RawBlockType(t: BlockType): u32 {
    match t
    case Descriptor => 1
    case Commit => 2
    case SuperblockV1 => 3
    case SuperblockV2 => 4
    case Revoke => 5
  }

  function BlockTypeFromRaw(raw: u32): Result<BlockType> {
    match raw
    case 1 => Ok(Descriptor)
    case 2 => Ok(Commit)
    case 3 => Ok(SuperblockV1)
    case 4 => Ok(SuperblockV2)
    case 5 => Ok(Revoke)
    case _ => Err(EIO)
  }

  function ParseHeader(bytes: seq<byte>): Result<Header> {
    if |bytes| < HEADER_BYTES || Be32(bytes, 0) != MAGIC then Err(EIO)
    else
      match BlockTypeFromRaw(Be32(bytes, 4))
      case Err(e) => Err(e)
      case Ok(t) => Ok(Header(t, Be32(bytes, 8)))
  }

  function HeaderBytes(h: Header): (s: seq<byte>)
    ensures |s| == HEADER_BYTES
  {
    ToBe32(MAGIC) + ToBe32(RawBlockType(h.blockType)) + ToBe32(h.sequence)
  }

  lemma HeaderRoundTrip(bytes: seq<byte>, h: Header)
    requires |bytes| >= HEADER_BYTES && bytes[..HEADER_BYTES] == HeaderBytes(h)
    ensures ParseHeader(bytes) == Ok(h)
  {
    var s := HeaderBytes(h);
    assert bytes[0..4] == s[0..4] == ToBe32(MAGIC);
    assert bytes[4..8] == s[4..8] == ToBe32(RawBlockType(h.blockType));
    assert bytes[8..12] == s[8..12] == ToBe32(h.sequence);
    Be32Written(bytes, 0, MAGIC);
    Be32Written(bytes, 4, RawBlockType(h.blockType));
    Be32Written(bytes, 8, h.sequence);
  }

  /** The header depends on the first twelve bytes only. */
  lemma HeaderWindow(a: seq<byte>, b: seq<byte>)
    requires |a| >= HEADER_BYTES && |b| >= HEADER_BYTES
    requires a[..HEADER_BYTES] == b[..HEADER_BYTES]
    ensures ParseHeader(a) == ParseHeader(b)
  {
    assert a[0..4] == a[..HEADER_BYTES][0..4] == b[0..4];
    assert a[4..8] == a[..HEADER_BYTES][4..8] == b[4..8];
    assert a[8..12] == a[..HEADER_BYTES][8..12] == b[8..12];
    Be32Window(a, 0, b, 0);
    Be32Window(a, 4, b, 4);
    Be32Window(a, 8, b, 8);
  }

  /** A block that the scan of transaction `sequence` would follow. */
  predicate IsHeaderOf(bytes: seq<byte>, sequence: u32) {
    var h := ParseHeader(bytes);
    h.Ok? && h.value.sequence == sequence
  }

  // ---- Features and the journal superblock -------------------------------

  datatype Features = Features(v3: bool, has64bit: bool, hasRevoke: bool)
  {
    function TagBytes(): (n: nat)
      ensures 8 <= n <= 16
    {
      if v3 then 16 else if has64bit then 12 else 8
    }

    function TailBytes(): nat {
      if v3 then BLOCK_TAIL_BYTES else 0
    }
  }

  /** Bit 0 is revoke, bit 1 is 64-bit block numbers, bit 4 is checksum v3;
      every other incompatible bit and every other feature word is refused. */
  function ValidateFeatures(compat: u32, incompat: u32, roCompat: u32): Result<Features> {
    if roCompat != 0 || compat != 0 then Err(ENOTSUP)
    else if incompat >= 32 || incompat / 4 % 2 == 1 || incompat / 8 % 2 == 1 then Err(ENOTSUP)
    else
      Ok(Features(incompat / 16 % 2 == 1,
                  incompat / 2 % 2 == 1,
                  incompat % 2 == 1))
  }

  type Uuid = s: seq<byte> | |s| == UUID_BYTES witness Zeros(UUID_BYTES)

  datatype Superblock = Superblock(
    maxLen: u32, first: u32, sequence: u32, start: u32, errno: u32,
    features: Features, uuid: Uuid)

  function SuperblockChecksum(crc: Crc, bytes: seq<byte>): u32
    requires |bytes| >= SUPERBLOCK_BYTES
  {
    crc(crc(crc(0xFFFF_FFFF, bytes[..252]), Zeros(4)), bytes[256..SUPERBLOCK_BYTES])
  }

  function ParseSuperblock(crc: Crc, bytes: seq<byte>): (r: Result<Superblock>)
    ensures r.Ok? ==> 0 < r.value.first < r.value.maxLen
    ensures r.Ok? ==> r.value.start == 0 || r.value.first <= r.value.start < r.value.maxLen
  {
    if |bytes| < SUPERBLOCK_BYTES then Err(EIO)
    else
      match ParseHeader(bytes)
      case Err(e) => Err(e)
      case Ok(h) =>
        var maxLen, first, start := Be32(bytes, 16), Be32(bytes, 20), Be32(bytes, 28);
        if h.blockType != SuperblockV2 then Err(ENOTSUP)
        else if Be32(bytes, 12) != BLOCK_SIZE then Err(ENOTSUP)
        else if maxLen <= first || first == 0 || start >= maxLen || (start != 0 && start < first) then Err(EIO)
        else
          match ValidateFeatures(Be32(bytes, 36), Be32(bytes, 40), Be32(bytes, 44))
          case Err(e) => Err(e)
          case Ok(features) =>
            if features.v3 && bytes[80] != CRC32C_CHKSUM then Err(ENOTSUP)
            else if features.v3 && SuperblockChecksum(crc, bytes) != Be32(bytes, 252) then Err(EIO)
            else if !features.v3 && bytes[80] != 0 then Err(ENOTSUP)
            else Ok(Superblock(maxLen, first, Be32(bytes, 24), start, Be32(bytes, 32), features, bytes[48..64]))
  }

  /** Rewrite the tail pointer of a superblock image: the next sequence, the
      first log block (zero for a clean journal) and the checksum. */
  function UpdateSuperblock(crc: Crc, image: seq<byte>, sequence: u32, start: u32, v3: bool): (r: seq<byte>)
    requires |image| >= SUPERBLOCK_BYTES
    ensures |r| == |image|
  {
    var moved := Put(Put(image, 24, ToBe32(sequence)), 28, ToBe32(start));
    if v3 then Put(moved, 252, ToBe32(SuperblockChecksum(crc, moved))) else moved
  }

  /** Only the eight tail-pointer bytes and the checksum change. */
  lemma UpdateSuperblockFrame(crc: Crc, image: seq<byte>, sequence: u32, start: u32, v3: bool, lo: nat, hi: nat)
    requires |image| >= SUPERBLOCK_BYTES && lo <= hi <= |image|
    requires hi <= 24 || (32 <= lo && hi <= 252) || 256 <= lo
    ensures UpdateSuperblock(crc, image, sequence, start, v3)[lo..hi] == image[lo..hi]
  {
    var one := Put(image, 24, ToBe32(sequence));
    var two := Put(one, 28, ToBe32(start));
    PutElsewhere(image, 24, ToBe32(sequence), lo, hi);
    PutElsewhere(one, 28, ToBe32(start), lo, hi);
    PutElsewhere(two, 252, ToBe32(SuperblockChecksum(crc, two)), lo, hi);
  }

  lemma UpdateSuperblockField(crc: Crc, image: seq<byte>, sequence: u32, start: u32, v3: bool, off: nat)
    requires |image| >= SUPERBLOCK_BYTES && off + 4 <= |image|
    requires off + 4 <= 24 || (32 <= off && off + 4 <= 252) || 256 <= off
    ensures Be32(UpdateSuperblock(crc, image, sequence, start, v3), off) == Be32(image, off)
  {
    UpdateSuperblockFrame(crc, image, sequence, start, v3, off, off + 4);
    Be32Window(UpdateSuperblock(crc, image, sequence, start, v3), off, image, off);
  }

  /** The two tail-pointer fields read back. */
  lemma UpdateSuperblockPointers(crc: Crc, image: seq<byte>, sequence: u32, start: u32, v3: bool)
    requires |image| >= SUPERBLOCK_BYTES
    ensures var r := UpdateSuperblock(crc, image, sequence, start, v3);
            Be32(r, 24) == sequence && Be32(r, 28) == start
  {
    var one := Put(image, 24, ToBe32(sequence));
    var two := Put(one, 28, ToBe32(start));
    var three := Put(two, 252, ToBe32(SuperblockChecksum(crc, two)));
    PutElsewhere(one, 28, ToBe32(start), 24, 28);
    PutElsewhere(two, 252, ToBe32(SuperblockChecksum(crc, two)), 24, 28);
    PutElsewhere(two, 252, ToBe32(SuperblockChecksum(crc, two)), 28, 32);
    Be32Written(two, 24, sequence);
    Be32Written(two, 28, start);
    Be32Written(three, 24, sequence);
    Be32Written(three, 28, start);
  }

  /** With checksums on, the rewritten superblock carries its own checksum. */
  lemma UpdateSuperblockChecksum(crc: Crc, image: seq<byte>, sequence: u32, start: u32)
    requires |image| >= SUPERBLOCK_BYTES
    ensures var r := UpdateSuperblock(crc, image, sequence, start, true);
            SuperblockChecksum(crc, r) == Be32(r, 252)
  {
    var two := Put(Put(image, 24, ToBe32(sequence)), 28, ToBe32(start));
    var sum := SuperblockChecksum(crc, two);
    var three := Put(two, 252, ToBe32(sum));
    PutElsewhere(two, 252, ToBe32(sum), 0, 252);
    PutElsewhere(two, 252, ToBe32(sum), 256, SUPERBLOCK_BYTES);
    assert three[..252] == three[0..252] == two[0..252] == two[..252];
    Be32Written(three, 252, sum);
  }

  /** Moving the tail of a valid superblock yields a valid superblock that
      differs in exactly the two fields. */
  lemma SuperblockRoundTrip(crc: Crc, image: seq<byte>, sequence: u32, start: u32)
    requires ParseSuperblock(crc, image).Ok?
    requires var sb := ParseSuperblock(crc, image).value;
             start == 0 || sb.first <= start < sb.maxLen
    ensures var sb := ParseSuperblock(crc, image).value;
            ParseSuperblock(crc, UpdateSuperblock(crc, image, sequence, start, sb.features.v3))
            == Ok(sb.(sequence := sequence, start := start))
  {
    var sb := ParseSuperblock(crc, image).value;
    var v3 := sb.features.v3;
    var r := UpdateSuperblock(crc, image, sequence, start, v3);
    UpdateSuperblockFrame(crc, image, sequence, start, v3, 0, HEADER_BYTES);
    assert r[..HEADER_BYTES] == r[0..HEADER_BYTES] == image[0..HEADER_BYTES] == image[..HEADER_BYTES];
    HeaderWindow(r, image);
    UpdateSuperblockField(crc, image, sequence, start, v3, 12);
    UpdateSuperblockField(crc, image, sequence, start, v3, 16);
    UpdateSuperblockField(crc, image, sequence, start, v3, 20);
    UpdateSuperblockField(crc, image, sequence, start, v3, 32);
    UpdateSuperblockField(crc, image, sequence, start, v3, 36);
    UpdateSuperblockField(crc, image, sequence, start, v3, 40);
    UpdateSuperblockField(crc, image, sequence, start, v3, 44);
    UpdateSuperblockFrame(crc, image, sequence, start, v3, 80, 81);
    assert r[80] == r[80..81][0] == image[80..81][0] == image[80];
    UpdateSuperblockFrame(crc, image, sequence, start, v3, 48, 64);
    UpdateSuperblockPointers(crc, image, sequence, start, v3);
    if v3 {
      UpdateSuperblockChecksum(crc, image, sequence, start);
    }
  }

  // ---- Checksums of log blocks -------------------------------------------

  /** What the encoders and the parsers of one journal agree on. */
  datatype Format = Format(crc: Crc, features: Features, uuid: Uuid)
  {
    function Seed(): u32 { crc(0xFFFF_FFFF, uuid) }

    function TagChecksum(sequence: u32, data: seq<byte>): u32 {
      crc(crc(Seed(), ToBe32(sequence)), data)
    }

    function BlockChecksum(bytes: seq<byte>): u32
      requires |bytes| >= BLOCK_TAIL_BYTES
    {
      crc(crc(Seed(), bytes[..|bytes| - BLOCK_TAIL_BYTES]), Zeros(4))
    }

    predicate BlockChecksumValid(bytes: Block) {
      BlockChecksum(bytes) == Be32(bytes, BLOCK_SIZE - 4)
    }

    function CommitChecksum(bytes: seq<byte>): u32
      requires |bytes| >= 20
    {
      crc(crc(crc(Seed(), bytes[..16]), Zeros(4)), bytes[20..])
    }
  }

  // ---- Commit blocks ------------------------------------------------------

  /** Does `bytes` commit transaction `sequence`? */
  predicate IsCommitOf(fmt: Format, bytes: Block, sequence: u32) {
    && ParseHeader(bytes) == Ok(Header(Commit, sequence))
    && (fmt.features.v3 ==> fmt.CommitChecksum(bytes) == Be32(bytes, 16))
  }

  function CommitBlock(fmt: Format, sequence: u32): Block {
    var blank := Put(Zeros(BLOCK_SIZE), 0, HeaderBytes(Header(Commit, sequence)));
    if fmt.features.v3 then Put(blank, 16, ToBe32(fmt.CommitChecksum(blank))) else blank
  }

  lemma CommitRoundTrip(fmt: Format, sequence: u32)
    ensures IsCommitOf(fmt, CommitBlock(fmt, sequence), sequence)
  {
    var h := Header(Commit, sequence);
    var blank := Put(Zeros(BLOCK_SIZE), 0, HeaderBytes(h));
    assert blank[..HEADER_BYTES] == blank[0..0 + |HeaderBytes(h)|];
    HeaderRoundTrip(blank, h);
    if fmt.features.v3 {
      var sum := ToBe32(fmt.CommitChecksum(blank));
      var full := Put(blank, 16, sum);
      assert full[..HEADER_BYTES] == full[..16][..HEADER_BYTES] == blank[..HEADER_BYTES];
      HeaderWindow(full, blank);
      Be32Written(full, 16, fmt.CommitChecksum(blank));
      assert full[..16] == blank[..16] && full[20..] == blank[20..];
    }
  }

  // ---- Revoke blocks ------------------------------------------------------

  function RevokeRecordsFrom(features: Features, bytes: Block, offset: nat, count: nat,
                             targetBlocks: nat): Result<seq<nat>>
    requires offset <= count <= BLOCK_SIZE
    requires (count - offset) % (if features.has64bit then 8 else 4) == 0
    decreases count - offset
  {
    var width := if features.has64bit then 8 else 4;
    if offset >= count then Ok([])
    else
      var record := if width == 8 then Be64(bytes, offset) else Be32(bytes, offset);
      if record >= targetBlocks then Err(EIO)
      else
        match RevokeRecordsFrom(features, bytes, offset + width, count, targetBlocks)
        case Err(e) => Err(e)
        case Ok(rest) => Ok([record] + rest)
  }

  function ParseRevokeRecords(features: Features, bytes: Block, sequence: u32, targetBlocks: nat): Result<seq<nat>> {
    if !features.hasRevoke then Err(ENOTSUP)
    else if ParseHeader(bytes) != Ok(Header(Revoke, sequence)) then Err(EIO)
    else
      var count := Be32(bytes, 12);
      if count < 16 || count > BLOCK_SIZE - features.TailBytes() then Err(EIO)
      else if (count - 16) % (if features.has64bit then 8 else 4) != 0 then Err(EIO)
      else RevokeRecordsFrom(features, bytes, 16, count, targetBlocks)
  }

  /** The big-endian numbers of `width` bytes each that make up `s`. */
  function Numbers(s: seq<byte>, width: nat): (r: seq<nat>)
    requires width > 0
    decreases |s|
  {
    if |s| < width then [] else [BigEndian(s[..width])] + Numbers(s[width..], width)
  }

  /** The block numbers that a revoke block lists: behind the header and the
      byte count, eight or four bytes each, as far as the byte count reaches. */
  function RevokedBlocks(wide: bool, bytes: Block): seq<nat> {
    var count := BigEndian(bytes[12..16]);
    if 16 <= count <= BLOCK_SIZE then Numbers(bytes[16..count], if wide then 8 else 4) else []
  }

  lemma NumbersStep(bytes: Block, offset: nat, count: nat, width: nat)
    requires 0 < width && offset + width <= count <= BLOCK_SIZE
    ensures Numbers(bytes[offset..count], width)
            == [BigEndian(bytes[offset..offset + width])] + Numbers(bytes[offset + width..count], width)
  {
    hide BigEndian;
    var s := bytes[offset..count];
    assert s[..width] == bytes[offset..offset + width] && s[width..] == bytes[offset + width..count];
  }

  lemma RevokeRecordsStep(features: Features, bytes: Block, offset: nat, count: nat, targetBlocks: nat, width: nat)
    requires width == (if features.has64bit then 8 else 4)
    requires offset < count <= BLOCK_SIZE && (count - offset) % width == 0
    ensures offset + width <= count && (count - (offset + width)) % width == 0
    ensures var record := BigEndian(bytes[offset..offset + width]);
            var rest := RevokeRecordsFrom(features, bytes, offset + width, count, targetBlocks);
            RevokeRecordsFrom(features, bytes, offset, count, targetBlocks)
            == if record >= targetBlocks || rest.Err? then Err(if record >= targetBlocks then EIO else rest.code)
               else Ok([record] + rest.value)
  {
    hide BigEndian;
    hide Be32;
    hide Be64;
    ReadsBigEndian(bytes, offset);
  }

  lemma {:induction false} RevokeRecordsAre(features: Features, bytes: Block, offset: nat, count: nat,
                                            targetBlocks: nat)
    requires offset <= count <= BLOCK_SIZE && (count - offset) % (if features.has64bit then 8 else 4) == 0
    ensures var numbers := Numbers(bytes[offset..count], if features.has64bit then 8 else 4);
            RevokeRecordsFrom(features, bytes, offset, count, targetBlocks)
            == if forall b :: b in numbers ==> b < targetBlocks then Ok(numbers) else Err(EIO)
    decreases count - offset
  {
    hide BigEndian;
    if offset < count {
      hide Numbers;
      hide RevokeRecordsFrom;
      var width := if features.has64bit then 8 else 4;
      NumbersStep(bytes, offset, count, width);
      RevokeRecordsStep(features, bytes, offset, count, targetBlocks, width);
      RevokeRecordsAre(features, bytes, offset + width, count, targetBlocks);
    }
  }

  /** A revoke block is accepted exactly if its byte count is that of a whole
      number of records in front of the checksum, and all of them are blocks of
      the file system; it yields just these. */
  lemma RevokeParsesTo(features: Features, bytes: Block, sequence: u32, targetBlocks: nat)
    ensures var r := ParseRevokeRecords(features, bytes, sequence, targetBlocks);
            && (r.Ok? <==>
                  && features.hasRevoke && ParseHeader(bytes) == Ok(Header(Revoke, sequence))
                  && 16 <= BigEndian(bytes[12..16]) <= BLOCK_SIZE - (if features.v3 then 4 else 0)
                  && (BigEndian(bytes[12..16]) - 16) % (if features.has64bit then 8 else 4) == 0
                  && forall b :: b in RevokedBlocks(features.has64bit, bytes) ==> b < targetBlocks)
            && (r.Ok? ==> r.value == RevokedBlocks(features.has64bit, bytes))
  {
    hide ParseHeader;
    hide RevokeRecordsFrom;
    hide Numbers;
    hide BigEndian;
    ReadsBigEndian(bytes, 12);
    var count := Be32(bytes, 12);
    if 16 <= count <= BLOCK_SIZE && (count - 16) % (if features.has64bit then 8 else 4) == 0 {
      RevokeRecordsAre(features, bytes, 16, count, targetBlocks);
      assert RevokedBlocks(features.has64bit, bytes)
             == Numbers(bytes[16..count], if features.has64bit then 8 else 4);
    }
  }
}
