/** The frame of a table file: handles, blocks with their checksums, and the footer (table/format.cc). */
module TableFormat {
  import opened InternalKeys
  import opened Varints
  import opened Coding
  import opened Octet
  import Crc32c

  /** The extent of a block in its file. */
  datatype BlockHandle = BlockHandle(offset: nat, size: nat)

  const MAX_ENCODED_LENGTH: nat := 20

  const FOOTER_LENGTH: nat := 48

  const TABLE_MAGIC_NUMBER: nat := 0xdb47_7524_8b80_fb57

  const BLOCK_TRAILER_SIZE: nat := 5

  predicate Encodable(h: BlockHandle) { h.offset < TWO_TO_64 && h.size < TWO_TO_64 }

  // ---------------------------------------------------------------- handles

  function HandleBytes(h: BlockHandle): Bytes { Varint(h.offset) + Varint(h.size) }

  function DecodeHandle(s: Bytes): Option<(BlockHandle, Bytes)> {
    var o := GetVarint64(s);
    if o.None? then None
    else
      var n := GetVarint64(o.value.1);
      if n.None? then None else Some((BlockHandle(o.value.0, n.value.0), n.value.1))
  }

  lemma HandleIsReadBack(h: BlockHandle, rest: Bytes)
    requires Encodable(h)
    ensures DecodeHandle(HandleBytes(h) + rest) == Some((h, rest))
    ensures |HandleBytes(h)| <= MAX_ENCODED_LENGTH
  {
    hide Varint, GetVarint64;
    assert HandleBytes(h) + rest == Varint(h.offset) + (Varint(h.size) + rest);
    Varint64IsReadBack(h.offset, Varint(h.size) + rest);
    Varint64IsReadBack(h.size, rest);
    VarintFitsBuffer(h.offset);
    VarintFitsBuffer(h.size);
  }

  // ---------------------------------------------------------------- the footer

  datatype Footer = Footer(metaindex: BlockHandle, index: BlockHandle)

  function Zeros(n: nat): (z: Bytes)
    ensures |z| == n
  {
    seq(n, i => 0)
  }

  /** Resizing pads with zeros, or cuts off. */
  function Resized(s: Bytes, n: nat): (r: Bytes)
    ensures |r| == n
  {
    if |s| <= n then s + Zeros(n - |s|) else s[..n]
  }

  function FooterBytes(f: Footer): (r: Bytes)
    ensures |r| == FOOTER_LENGTH
  {
    Resized(HandleBytes(f.metaindex) + HandleBytes(f.index), 2 * MAX_ENCODED_LENGTH) +
    Fixed32(TABLE_MAGIC_NUMBER % TWO_TO_32) + Fixed32(TABLE_MAGIC_NUMBER / TWO_TO_32)
  }

  function DecodeFooter(s: Bytes): Option<Footer>
    requires |s| == FOOTER_LENGTH
  {
    var magicLo := DecodeFixed32(s[FOOTER_LENGTH - 8..FOOTER_LENGTH - 4]);
    var magicHi := DecodeFixed32(s[FOOTER_LENGTH - 4..]);
    if magicHi * TWO_TO_32 + magicLo != TABLE_MAGIC_NUMBER then None
    else
      var m := DecodeHandle(s);
      if m.None? then None
      else
        var i := DecodeHandle(m.value.1);
        if i.None? then None else Some(Footer(m.value.0, i.value.0))
  }

  lemma FooterIsReadBack(f: Footer)
    requires Encodable(f.metaindex) && Encodable(f.index)
    ensures DecodeFooter(FooterBytes(f)) == Some(f)
  {
    hide HandleBytes, DecodeHandle, Fixed32, DecodeFixed32;
    var s, a, b := FooterBytes(f), HandleBytes(f.metaindex), HandleBytes(f.index);
    HandleIsReadBack(f.metaindex, []);
    HandleIsReadBack(f.index, []);
    var lo, hi := Fixed32(TABLE_MAGIC_NUMBER % TWO_TO_32), Fixed32(TABLE_MAGIC_NUMBER / TWO_TO_32);
    var rest := Zeros(40 - |a| - |b|) + lo + hi;
    assert s == a + (b + rest);
    HandleIsReadBack(f.metaindex, b + rest);
    HandleIsReadBack(f.index, rest);
    assert s[40..44] == lo && s[44..] == hi;
    Fixed32IsReadBack(TABLE_MAGIC_NUMBER % TWO_TO_32);
    Fixed32IsReadBack(TABLE_MAGIC_NUMBER / TWO_TO_32);
  }

  // ---------------------------------------------------------------- blocks

  const NO_COMPRESSION: Byte := 0

  const SNAPPY_COMPRESSION: Byte := 1

  /** The checksum of a block and its type byte, as it is stored. */
  function StoredChecksum(contents: Bytes, kind: Byte): (r: Bytes)
    ensures |r| == 4
  {
    FromOctets(Crc32c.EncodeFixed32(Crc32c.Mask(Crc32c.Extended(Crc32c.Value(Octets(contents)), [Pattern(kind)]))))
  }

  function Trailer(contents: Bytes, kind: Byte): (r: Bytes)
    ensures |r| == BLOCK_TRAILER_SIZE
  {
    [kind] + StoredChecksum(contents, kind)
  }

  datatype ReadResult = Contents(data: Bytes) | Truncated | ChecksumMismatch | NotUncompressed | BadType

  /** Whether the last four bytes are the masked checksum of all before them. */
  predicate ChecksumOk(raw: Bytes)
    requires |raw| >= 4
  {
    var n, c := |raw| - 4, Octets(raw[|raw| - 4..]);
    Crc32c.Unmask(Crc32c.DecodeFixed32(c[0], c[1], c[2], c[3])) == Crc32c.Value(Octets(raw[..n]))
  }

  /** What reading the block at a handle gives. */
  function BlockAt(file: Bytes, verifyChecksums: bool, h: BlockHandle): ReadResult {
    var n := h.size;
    if h.offset + n + BLOCK_TRAILER_SIZE > |file| then Truncated
    else
      var raw := file[h.offset..h.offset + n + BLOCK_TRAILER_SIZE];
      if verifyChecksums && !ChecksumOk(raw) then ChecksumMismatch
      else if raw[n] == NO_COMPRESSION then Contents(raw[..n])
      else if raw[n] == SNAPPY_COMPRESSION then NotUncompressed
      else BadType
  }

  method ReadBlock(file: Bytes, verifyChecksums: bool, h: BlockHandle) returns (r: ReadResult)
    ensures r == BlockAt(file, verifyChecksums, h)
  {
    hide Crc32c.Extended, Crc32c.Unmask, Crc32c.DecodeFixed32;
    var n := h.size;
    var from := if h.offset <= |file| then h.offset else |file|;
    var to := if from + n + BLOCK_TRAILER_SIZE <= |file| then from + n + BLOCK_TRAILER_SIZE else |file|;
    var raw := file[from..to];
    if |raw| != n + BLOCK_TRAILER_SIZE { return Truncated; }
    if verifyChecksums {
      var c := Octets(raw[n + 1..]);
      var crc := Crc32c.Unmask(Crc32c.DecodeFixed32(c[0], c[1], c[2], c[3]));
      var actual := Crc32c.Extend(0, Octets(raw[..n + 1]), 0);
      if actual != crc { return ChecksumMismatch; }
    }
    if raw[n] == NO_COMPRESSION {
      r := Contents(raw[..n]);
    } else if raw[n] == SNAPPY_COMPRESSION {
      r := NotUncompressed;
    } else {
      r := BadType;
    }
  }

  /** A block as it is written lies at h. */
  ghost predicate WrittenAt(file: Bytes, h: BlockHandle, contents: Bytes) {
    |contents| == h.size && h.offset + h.size + BLOCK_TRAILER_SIZE <= |file| &&
    file[h.offset..h.offset + h.size + BLOCK_TRAILER_SIZE] == contents + Trailer(contents, NO_COMPRESSION)
  }

  lemma StillWritten(file: Bytes, more: Bytes, h: BlockHandle, contents: Bytes)
    requires WrittenAt(file, h, contents)
    ensures WrittenAt(file + more, h, contents)
  {
    hide Trailer;
    var end := h.offset + h.size + BLOCK_TRAILER_SIZE;
    assert (file + more)[h.offset..end] == file[h.offset..end];
  }

  lemma OctetsOfSum(a: Bytes, b: Byte)
    ensures Octets(a + [b]) == Octets(a) + [Pattern(b)]
  {
    hide Pattern;
  }

  lemma OctetsOfOctets(s: seq<bv8>)
    ensures Octets(FromOctets(s)) == s
  {
    hide Pattern;
    forall i | 0 <= i < |s| ensures Octets(FromOctets(s))[i] == s[i] { PatternIsExact(s[i]); }
  }

  /** The stored checksum is found to be right. */
  lemma ChecksumIsRight(contents: Bytes, kind: Byte)
    ensures ChecksumOk(contents + Trailer(contents, kind))
  {
    hide Octets, FromOctets, Crc32c.Extended, Crc32c.Mask, Crc32c.Unmask, Crc32c.DecodeFixed32, Crc32c.EncodeFixed32,
         Pattern;
    var raw := contents + Trailer(contents, kind);
    var crc := Crc32c.Extended(Crc32c.Value(Octets(contents)), [Pattern(kind)]);
    assert raw[|raw| - 4..] == StoredChecksum(contents, kind) && raw[..|raw| - 4] == contents + [kind];
    OctetsOfOctets(Crc32c.EncodeFixed32(Crc32c.Mask(crc)));
    OctetsOfSum(contents, kind);
    Crc32c.ExtendedTwice(0, Octets(contents), [Pattern(kind)]);
    Crc32c.MaskingIsUndone(crc);
  }

  /** What has been written is read back, whether checksums are verified or not. */
  lemma WrittenIsRead(file: Bytes, verifyChecksums: bool, h: BlockHandle, contents: Bytes)
    requires WrittenAt(file, h, contents)
    ensures BlockAt(file, verifyChecksums, h) == Contents(contents)
  {
    hide ChecksumOk, StoredChecksum;
    ChecksumIsRight(contents, NO_COMPRESSION);
    var raw := contents + Trailer(contents, NO_COMPRESSION);
    assert raw[..h.size] == contents && raw[h.size] == NO_COMPRESSION;
  }
}
