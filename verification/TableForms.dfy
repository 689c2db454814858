/** Table files in the numerals of their format (table/format.cc, table/block_builder.cc,
    table/filter_block.cc, db/dbformat.cc, util/hash.cc). */
module TableForms {
  import opened InternalKeys
  import opened Varints
  import opened Numerals
  import opened Coding
  import opened Comparators
  import opened Block
  import opened FilterBlocks
  import opened TableFormat
  import opened Spellings
  import Bloom
  import Crc32c
  import Octet

  // ---------------------------------------------------------------- keys

  /** A user key, one byte of type, and seven bytes of sequence number. */
  lemma TagIsSpelled(user: Bytes, sn: nat, kind: nat)
    requires sn < 0x100_0000_0000_0000 && kind < 256
    ensures var k, n := WithTag(user, sn * 256 + kind), |user|;
            |k| == n + 8 && k[..n] == user && k[n] == kind && Word(k[n + 1..]) == sn
  {
    hide Word, Little;
    var n, w := |user|, Fixed64(sn * 256 + kind);
    TagBytes(sn, kind);
    SevenBytes();
    LittleIsWord(sn, 7);
    assert (user + w)[n..] == w && (user + w)[n + 1..] == w[1..];
  }

  lemma TagBytes(sn: nat, kind: nat)
    requires sn < 0x100_0000_0000_0000 && kind < 256
    ensures Fixed64(sn * 256 + kind) == [kind] + Little(sn, 7)
  {
    var tag := sn * 256 + kind;
    SmallRemainder(tag, TWO_TO_64);
    assert tag % 256 == kind && tag / 256 == sn;
    hide Little;
    FirstByte(tag, 7);
  }

  lemma FirstByte(v: nat, n: nat)
    ensures Little(v, n + 1) == [v % 256] + Little(v / 256, n)
  {
  }

  lemma SevenBytes()
    ensures Pow256(7) == 0x100_0000_0000_0000
  {
    assert Pow256(3) == 0x100_0000;
    assert Pow256(5) == 256 * (256 * Pow256(3));
    assert Pow256(7) == 256 * (256 * Pow256(5));
  }

  lemma SeekTag()
    ensures Fixed64(SEEK_TAG) == [1, 255, 255, 255, 255, 255, 255, 255]
  {
    assert Little(0xff_ffff, 3) == [255, 255, 255];
    assert Little(0xff_ffff_ffff, 5) == [255, 255] + Little(0xff_ffff, 3);
    assert Little(0xff_ffff_ffff_ffff, 7) == [255, 255] + Little(0xff_ffff_ffff, 5);
    assert Fixed64(SEEK_TAG) == [1] + Little(0xff_ffff_ffff_ffff, 7);
  }

  /** Where the keys differ and there is a byte in between, the separator ends with that byte. */
  lemma SeparatorIsShort(start: Bytes, limit: Bytes, n: nat)
    requires n < |start| && n < |limit| && start[..n] == limit[..n] && start[n] != limit[n]
    ensures start[n] as int + 1 < limit[n] ==> Separator(start, limit) == start[..n] + [start[n] + 1]
    ensures start[n] as int + 1 >= limit[n] ==> Separator(start, limit) == start
  {
    PrefixIsLongest(start, limit, n);
  }

  /** Where one key continues the other, nothing is cut off. */
  lemma SeparatorOfPrefix(start: Bytes, limit: Bytes)
    requires start <= limit || limit <= start
    ensures Separator(start, limit) == start
  {
    PrefixIsLongest(start, limit, if |start| <= |limit| then |start| else |limit|);
  }

  /** A user key that has become shorter gets the type 1 and the largest sequence number; otherwise the key stays. */
  lemma InternalSeparatorIsShort(start: Bytes, limit: Bytes)
    requires |start| >= 8 && |limit| >= 8 && Less(start[..|start| - 8], limit[..|limit| - 8])
    ensures var user := Separator(start[..|start| - 8], limit[..|limit| - 8]);
            InternalSeparator(start, limit)
              == if |user| < |start| - 8 then user + [1, 255, 255, 255, 255, 255, 255, 255] else start
  {
    hide Separator, Less, Fixed64;
    SeekTag();
    SeparatorSeparates(start[..|start| - 8], limit[..|limit| - 8]);
  }

  // ---------------------------------------------------------------- blocks

  /** The three lengths of an entry. */
  ghost predicate SpellsLengths(p: Bytes, shared: nat, nonShared: nat, valueLength: nat) {
    exists a: Bytes, b: Bytes, c: Bytes ::
      Spells32(a, shared) && Spells32(b, nonShared) && Spells32(c, valueLength) && p == a + (b + c)
  }

  /** The lengths of an entry, the rest of its key, its value. */
  lemma EntryIsSpelled(shared: nat, p: Pair)
    requires shared <= |p.key| < 0x1_0000_0000 && |p.value| < 0x1_0000_0000
    ensures exists lengths :: SpellsLengths(lengths, shared, |p.key| - shared, |p.value|) &&
              EntryBytes(shared, p) == lengths + (p.key[shared..] + p.value)
  {
    hide Varint, Spells32;
    SpelledNumber(shared);
    SpelledNumber(|p.key| - shared);
    SpelledNumber(|p.value|);
    var a, b, c := Varint(shared), Varint(|p.key| - shared), Varint(|p.value|);
    var lengths := a + (b + c);
    assert SpellsLengths(lengths, shared, |p.key| - shared, |p.value|);
    assert EntryBytes(shared, p) == lengths + (p.key[shared..] + p.value);
  }

  lemma SpelledNumber(v: nat)
    requires v < 0x1_0000_0000
    ensures Spells32(Varint(v), v)
  {
    hide Varint, Number;
    VarintGroups(v);
    VarintFitsBuffer(v);
  }

  /** The lengths of an entry are read exactly when they are spelled there; the short cut for three single bytes makes
      no difference. */
  lemma LengthsAreRead(s: Bytes, l: Lengths)
    ensures DecodeLengths(s) == Some(l) <==>
              exists p :: SpellsLengths(p, l.shared, l.nonShared, l.valueLength) && s == p + l.rest
  {
    hide GetVarint32, SpellsLengths;
    if DecodeLengths(s) == Some(l) { var p := ReadLengths(s, l); }
    forall p | SpellsLengths(p, l.shared, l.nonShared, l.valueLength) && s == p + l.rest
      ensures DecodeLengths(s) == Some(l)
    {
      SpelledLengths(s, p, l);
    }
  }

  lemma ReadLengths(s: Bytes, l: Lengths) returns (p: Bytes)
    requires DecodeLengths(s) == Some(l)
    ensures SpellsLengths(p, l.shared, l.nonShared, l.valueLength) && s == p + l.rest
  {
    hide GetVarint32, Spells32;
    if s[0] < 128 && s[1] < 128 && s[2] < 128 {
      OneByteVarint(s);
      OneByteVarint(s[1..]);
      OneByteVarint(s[2..]);
      assert s[1..][1..] == s[2..] && s[2..][1..] == s[3..];
    }
    var s1 := GetVarint32(s).value.1;
    var s2 := GetVarint32(s1).value.1;
    var a := Read32(s, l.shared, s1);
    var b := Read32(s1, l.nonShared, s2);
    var c := Read32(s2, l.valueLength, l.rest);
    p := a + (b + c);
  }

  lemma NotEmpty(p: Bytes, v: nat)
    requires Spells32(p, v)
    ensures |p| > 0
  {
  }

  lemma SpelledLengths(s: Bytes, p: Bytes, l: Lengths)
    requires SpellsLengths(p, l.shared, l.nonShared, l.valueLength) && s == p + l.rest
    ensures DecodeLengths(s) == Some(l)
  {
    hide GetVarint32, Spells32;
    var a: Bytes, b: Bytes, c: Bytes :|
      Spells32(a, l.shared) && Spells32(b, l.nonShared) && Spells32(c, l.valueLength) && p == a + (b + c);
    NotEmpty(a, l.shared);
    NotEmpty(b, l.nonShared);
    NotEmpty(c, l.valueLength);
    var s1, s2 := b + (c + l.rest), c + l.rest;
    assert s == a + s1;
    Number32IsRead(s, l.shared, s1);
    Number32IsRead(s1, l.nonShared, s2);
    Number32IsRead(s2, l.valueLength, l.rest);
    if s[0] < 128 && s[1] < 128 && s[2] < 128 {
      ThreeSmallLengths(s, l.shared, s1, l.nonShared, s2, l.valueLength, l.rest);
    }
  }

  lemma FourBytes(v: nat)
    ensures Word(Fixed32(v)) == v % 0x1_0000_0000
  {
    hide Little, Word;
    WordSizes();
    LittleIsWord(v % 0x1_0000_0000, 4);
  }

  /** Every interval-th entry is a restart point. */
  lemma {:induction false} RestartsAreRegular(l: Layout, interval: nat, r: nat)
    requires Started(l) && Spaced(l, interval) && r < |l.starts|
    ensures l.starts[r] == r * interval
  {
    if r == 0 {
    } else {
      RestartsAreRegular(l, interval, r - 1);
      assert r * interval == (r - 1) * interval + interval;
    }
  }

  lemma StartsAreEntries(l: Layout)
    requires Started(l) && |l.offsets| == |l.shared| + 1
    ensures forall i :: 0 <= i < |l.starts| ==> 0 <= l.starts[i] < |l.offsets|
  {
  }

  /** A restart array: four bytes for each offset, and four for their number at the very end. */
  lemma RestartsAreSpelled(data: Bytes, entries: seq<Pair>, l: Layout)
    requires IsFinished(data, entries, l) && |l.shared| == |entries|
    ensures var n, r := Limit(l), |l.starts|;
            |data| == n + 4 * r + 4 && Word(data[n + 4 * r..]) == r % 0x1_0000_0000 &&
            forall i :: 0 <= i < r ==>
              0 <= l.starts[i] < |l.offsets| &&
              Word(data[n + 4 * i..n + 4 * i + 4]) == l.offsets[l.starts[i]] % 0x1_0000_0000
  {
    hide Laid, Word, Fixed32, Started;
    StartsAreEntries(l);
    var n, r, ns := Limit(l), |l.starts|, RestartOffsets(l);
    var tail := data[n..];
    assert data == data[..n] + tail && tail == Words(ns) + Fixed32(r);
    assert data[n + 4 * r..] == Fixed32(r);
    FourBytes(r);
    forall i | 0 <= i < r
      ensures 0 <= l.starts[i] < |l.offsets|
      ensures Word(data[n + 4 * i..n + 4 * i + 4]) == l.offsets[l.starts[i]] % 0x1_0000_0000
    {
      WordAt(ns, i);
      assert data[n + 4 * i..n + 4 * i + 4] == Words(ns)[4 * i..4 * i + 4];
      FourBytes(ns[i]);
    }
  }

  // ---------------------------------------------------------------- filters

  /** The user keys of the blocks that start in the same 2048 bytes share a filter; behind the filters four bytes for
      the start of each and for the end of all, and a last byte 11, the logarithm of 2048. */
  lemma FilterOffsetsAreSpelled(data: Bytes, ends: seq<nat>, groups: seq<seq<Bytes>>, k: nat)
    requires IsFinishedFilter(data, ends, groups, k)
    ensures var n, g := ends[|groups|], |groups|;
            |data| == n + 4 * g + 5 && data[|data| - 1] == 11 &&
            forall i :: 0 <= i <= g ==> Word(data[n + 4 * i..n + 4 * i + 4]) == ends[i] % 0x1_0000_0000
  {
    hide FiltersOf, Word, Fixed32;
    var n, g := ends[|groups|], |groups|;
    assert data == data[..n] + data[n..];
    forall i | 0 <= i <= g ensures Word(data[n + 4 * i..n + 4 * i + 4]) == ends[i] % 0x1_0000_0000 {
      WordAt(ends, i);
      assert data[n + 4 * i..n + 4 * i + 4] == Words(ends)[4 * i..4 * i + 4];
      FourBytes(ends[i]);
    }
  }

  // ---------------------------------------------------------------- the frame of the file

  /** Two handles of two numbers each, zeros up to forty bytes, and the eight bytes of the magic number. */
  lemma FooterIsSpelled(f: Footer)
    requires f.metaindex.offset < 0x1_0000_0000_0000_0000 && f.metaindex.size < 0x1_0000_0000_0000_0000
    requires f.index.offset < 0x1_0000_0000_0000_0000 && f.index.size < 0x1_0000_0000_0000_0000
    ensures var s := FooterBytes(f);
            |s| == 48 && s[40..] == [0x57, 0xfb, 0x80, 0x8b, 0x24, 0x75, 0x47, 0xdb] &&
            exists a, b, c, d ::
              Spells64(a, f.metaindex.offset) && Spells64(b, f.metaindex.size) &&
              Spells64(c, f.index.offset) && Spells64(d, f.index.size) &&
              var handles := a + b + (c + d);
              |handles| <= 40 && s[..|handles|] == handles && forall i :: |handles| <= i < 40 ==> s[i] == 0
  {
    hide Varint, Spells64, Fixed32;
    Magic();
    SpelledNumber64(f.metaindex.offset);
    SpelledNumber64(f.metaindex.size);
    SpelledNumber64(f.index.offset);
    SpelledNumber64(f.index.size);
    var a, b := Varint(f.metaindex.offset), Varint(f.metaindex.size);
    var c, d := Varint(f.index.offset), Varint(f.index.size);
    var handles := a + b + (c + d);
    var s := FooterBytes(f);
    assert s[..|handles|] == handles;
    assert s[40..] == Fixed32(0x8b80_fb57) + Fixed32(0xdb47_7524);
  }

  lemma Magic()
    ensures Fixed32(0x8b80_fb57) == [0x57, 0xfb, 0x80, 0x8b] && Fixed32(0xdb47_7524) == [0x24, 0x75, 0x47, 0xdb]
  {
    assert Little(0x8b80, 2) == [0x80, 0x8b] && Little(0xdb47, 2) == [0x47, 0xdb];
    assert Little(0x8b80_fb57, 4) == [0x57, 0xfb] + Little(0x8b80, 2);
    assert Little(0xdb47_7524, 4) == [0x24, 0x75] + Little(0xdb47, 2);
  }

  lemma SpelledNumber64(v: nat)
    requires v < 0x1_0000_0000_0000_0000
    ensures Spells64(Varint(v), v) && |Varint(v)| <= 10
  {
    hide Varint, Number;
    VarintGroups(v);
    VarintFitsBuffer(v);
  }

  /** Behind the contents of a block a byte 0, and the masked checksum of the contents and that byte. */
  lemma TrailerIsSpelled(contents: Bytes)
    ensures var t := Trailer(contents, NO_COMPRESSION);
            var c := Octet.Octets(t[1..]);
            |t| == 5 && t[0] == 0 &&
            Crc32c.DecodeFixed32(c[0], c[1], c[2], c[3]) == Crc32c.Mask(Crc32c.Value(Octet.Octets(contents + [0])))
  {
    hide Crc32c.Extended, Crc32c.Mask, Octet.Pattern, Crc32c.DecodeFixed32;
    var crc := Crc32c.Mask(Crc32c.Extended(Crc32c.Value(Octet.Octets(contents)), [Octet.Pattern(0)]));
    assert Trailer(contents, NO_COMPRESSION)[1..] == Octet.FromOctets(Crc32c.EncodeFixed32(crc));
    OctetsOfOctets(Crc32c.EncodeFixed32(crc));
    OctetsOfSum(contents, 0);
    Crc32c.ExtendedTwice(0, Octet.Octets(contents), [Octet.Pattern(0)]);
  }

  /** The checksum of a block as it lies in the file is the masked one of its contents and type. */
  ghost predicate ChecksumIsRight(contents: Bytes, kind: Byte, stored: Bytes)
    requires |stored| == 4
  {
    var c := Octet.Octets(stored);
    Crc32c.DecodeFixed32(c[0], c[1], c[2], c[3]) == Crc32c.Mask(Crc32c.Value(Octet.Octets(contents + [kind])))
  }

  /** Reading a block gives its contents exactly when all of it is there, its type is 0, and, if that is to be checked,
      its checksum is right. */
  lemma BlockIsRead(file: Bytes, verifyChecksums: bool, h: BlockHandle, data: Bytes)
    ensures BlockAt(file, verifyChecksums, h) == Contents(data) <==>
              var n := h.offset + h.size;
              n + 5 <= |file| && file[h.offset..n] == data && file[n] == 0 &&
              (verifyChecksums ==> ChecksumIsRight(data, 0, file[n + 1..n + 5]))
  {
    hide Crc32c.Value, Crc32c.Mask, Crc32c.Unmask, Crc32c.DecodeFixed32, Octet.Octets;
    var n := h.offset + h.size;
    if n + 5 <= |file| {
      var raw := file[h.offset..n + 5];
      assert raw[..h.size] == file[h.offset..n] && raw[h.size] == file[n] && raw[h.size + 1..] == file[n + 1..n + 5];
      assert raw[..|raw| - 4] == raw[..h.size] + [raw[h.size]];
      ChecksumOkMeans(raw);
    }
  }

  lemma ChecksumOkMeans(raw: Bytes)
    requires |raw| >= 5
    ensures var n := |raw| - 5; ChecksumOk(raw) <==> ChecksumIsRight(raw[..n], raw[n], raw[n + 1..])
  {
    hide Crc32c.Value, Crc32c.Mask, Crc32c.Unmask, Crc32c.DecodeFixed32;
    var n := |raw| - 5;
    assert raw[..n] + [raw[n]] == raw[..n + 1];
    var c := Octet.Octets(raw[n + 1..]);
    Crc32c.MaskingIsUndone(Crc32c.DecodeFixed32(c[0], c[1], c[2], c[3]));
    Crc32c.MaskingIsUndone(Crc32c.Value(Octet.Octets(raw[..n + 1])));
  }

  ghost predicate SpellsHandle(p: Bytes, h: BlockHandle) {
    exists a: Bytes, b: Bytes :: Spells64(a, h.offset) && Spells64(b, h.size) && p == a + b
  }

  lemma HandleIsRead(s: Bytes, h: BlockHandle, rest: Bytes)
    ensures DecodeHandle(s) == Some((h, rest)) <==> exists p :: SpellsHandle(p, h) && s == p + rest
  {
    hide DecodeHandle, SpellsHandle;
    if DecodeHandle(s) == Some((h, rest)) { var p := ReadHandle(s, h, rest); }
    forall p | SpellsHandle(p, h) && s == p + rest ensures DecodeHandle(s) == Some((h, rest)) {
      SpelledHandle(p, h, rest);
    }
  }

  lemma ReadHandle(s: Bytes, h: BlockHandle, rest: Bytes) returns (p: Bytes)
    requires DecodeHandle(s) == Some((h, rest))
    ensures SpellsHandle(p, h) && s == p + rest
  {
    hide GetVarint64, Spells64;
    var s1 := GetVarint64(s).value.1;
    var a := Read64(s, h.offset, s1);
    var b := Read64(s1, h.size, rest);
    p := a + b;
  }

  lemma SpelledHandle(p: Bytes, h: BlockHandle, rest: Bytes)
    requires SpellsHandle(p, h)
    ensures DecodeHandle(p + rest) == Some((h, rest))
  {
    hide GetVarint64, Spells64;
    var a: Bytes, b: Bytes :| Spells64(a, h.offset) && Spells64(b, h.size) && p == a + b;
    assert p + rest == a + (b + rest);
    Number64IsRead(a + (b + rest), h.offset, b + rest);
    Number64IsRead(b + rest, h.size, rest);
  }

  /** A footer is accepted exactly when it ends with the magic number and starts with two handles. */
  lemma FooterIsRead(s: Bytes, f: Footer)
    requires |s| == 48
    ensures DecodeFooter(s) == Some(f) <==>
              s[40..] == [0x57, 0xfb, 0x80, 0x8b, 0x24, 0x75, 0x47, 0xdb] &&
              exists p, q, rest :: SpellsHandle(p, f.metaindex) && SpellsHandle(q, f.index) && s == p + (q + rest)
  {
    hide DecodeHandle, SpellsHandle, DecodeFixed32;
    MagicIsRead(s);
    if DecodeFooter(s) == Some(f) {
      var m := DecodeHandle(s).value.1;
      var i := DecodeHandle(m).value.1;
      HandleIsRead(s, f.metaindex, m);
      HandleIsRead(m, f.index, i);
    }
    forall p, q, rest | SpellsHandle(p, f.metaindex) && SpellsHandle(q, f.index) && s == p + (q + rest)
      ensures DecodeHandle(s) == Some((f.metaindex, q + rest)) && DecodeHandle(q + rest) == Some((f.index, rest))
    {
      HandleIsRead(s, f.metaindex, q + rest);
      HandleIsRead(q + rest, f.index, rest);
    }
  }

  lemma MagicIsRead(s: Bytes)
    requires |s| == 48
    ensures DecodeFixed32(s[44..]) * TWO_TO_32 + DecodeFixed32(s[40..44]) == 0xdb47_7524_8b80_fb57 <==>
              s[40..] == [0x57, 0xfb, 0x80, 0x8b, 0x24, 0x75, 0x47, 0xdb]
  {
    FourBytesAre(s[40..44]);
    FourBytesAre(s[44..]);
    var t := s[40..];
    assert s[40..44] == t[..4] && s[44..] == t[4..];
    WordIs(t[0], t[1], t[2], t[3], 0x57, 0xfb, 0x80, 0x8b);
    WordIs(t[4], t[5], t[6], t[7], 0x24, 0x75, 0x47, 0xdb);
  }

  lemma FourBytesAre(w: Bytes)
    requires |w| == 4
    ensures DecodeFixed32(w) == w[0] + 256 * w[1] + 65536 * w[2] + 16777216 * w[3] < TWO_TO_32
  {
    assert FromLittle(w[3..]) == w[3] + 256 * FromLittle(w[3..][1..]);
    assert w[2..][1..] == w[3..];
    assert FromLittle(w[2..]) == w[2] + 256 * FromLittle(w[3..]);
    assert w[1..][1..] == w[2..];
    assert FromLittle(w[1..]) == w[1] + 256 * FromLittle(w[2..]);
  }

  /** The digits to base 256 are unique. */
  lemma WordIs(a: Byte, b: Byte, c: Byte, d: Byte, a': Byte, b': Byte, c': Byte, d': Byte)
    ensures a + 256 * b + 65536 * c + 16777216 * d == a' + 256 * b' + 65536 * c' + 16777216 * d' <==>
              a == a' && b == b' && c == c' && d == d'
  {
  }

  // ---------------------------------------------------------------- hash values

  lemma Products()
    ensures Bloom.Times(0) == 0 && Bloom.Times(1) == 0xc6a4_a793 && Bloom.Times(2) == 0x8d49_4f26
    ensures Bloom.Times(3) == 0x53ed_f6b9 && Bloom.Times(4) == 0x1a92_9e4c
    ensures Bloom.Times(0x7a3b_bb09) == 0xef13_452b && Bloom.Times(0x31d6_e9d5) == 0x5b66_384f
    ensures Bloom.Times(0xf018_856f) == 0x323c_07bd && Bloom.Times(0xd8c7_0459) == 0xed21_8e1b
  {
  }

  lemma HashOfOneByte()
    ensures Bloom.HashOf([0x62], 0xbc9f_1d34) == 0xef13_45c4
  {
    hide Octet.Pattern, Bloom.Times;
    Products();
    Octet.PatternIsExact(0x62);
    assert Bloom.HashOf([0x62], 0xbc9f_1d34) == Bloom.MixTail(0x7a3b_baa7, [0x62]);
  }

  lemma HashOfTwoBytes()
    ensures Bloom.HashOf([0xc3, 0x97], 0xbc9f_1d34) == 0x5b66_3814
  {
    hide Octet.Pattern, Bloom.Times;
    Products();
    Octet.PatternIsExact(0xc3);
    Octet.PatternIsExact(0x97);
    assert Bloom.HashOf([0xc3, 0x97], 0xbc9f_1d34) == Bloom.MixTail(0x31d6_5212, [0xc3, 0x97]);
  }

  lemma HashOfThreeBytes()
    ensures Bloom.HashOf([0xe2, 0x99, 0xa5], 0xbc9f_1d34) == 0x323c_078f
  {
    hide Octet.Pattern, Bloom.Times;
    Products();
    Octet.PatternIsExact(0xe2);
    Octet.PatternIsExact(0x99);
    Octet.PatternIsExact(0xa5);
    assert Bloom.HashOf([0xe2, 0x99, 0xa5], 0xbc9f_1d34) == Bloom.MixTail(0xef72_eb8d, [0xe2, 0x99, 0xa5]);
  }

  lemma WordOfFourBytes()
    ensures Bloom.Word(0xe1, 0x80, 0xb9, 0x32) == 0x32b9_80e1
  {
    hide Octet.Pattern;
    Octet.PatternIsExact(0xe1);
    Octet.PatternIsExact(0x80);
    Octet.PatternIsExact(0xb9);
    Octet.PatternIsExact(0x32);
  }

  lemma MixOfWord()
    ensures Bloom.MixWord(0xa60d_8378, 0x32b9_80e1) == 0xed21_633a
  {
    hide Bloom.Times;
    Products();
  }

  lemma OneWord(h: bv32, s: Bytes)
    requires |s| == 4
    ensures Bloom.HashFrom(h, s) == Bloom.MixWord(h, Bloom.Word(s[0], s[1], s[2], s[3]))
  {
    hide Bloom.MixWord, Bloom.Word;
    assert s[4..] == [];
  }

  lemma FourAtFirst(s: Bytes)
    requires |s| == 4
    ensures Bloom.HashOf(s, 0xbc9f_1d34) == Bloom.HashFrom(0xa60d_8378, s)
  {
    hide Bloom.Times, Bloom.HashFrom;
    Products();
  }

  /** A whole word, and nothing behind it. */
  lemma HashOfFourBytes()
    ensures Bloom.HashOf([0xe1, 0x80, 0xb9, 0x32], 0xbc9f_1d34) == 0xed21_633a
  {
    hide Bloom.HashOf, Bloom.HashFrom, Bloom.MixWord, Bloom.Word;
    var s: Bytes := [0xe1, 0x80, 0xb9, 0x32];
    FourAtFirst(s);
    OneWord(0xa60d_8378, s);
    WordOfFourBytes();
    MixOfWord();
  }

  /** The step from one probe to the next is the hash value turned right by seventeen bits. */
  lemma StepOfProbes()
    ensures Bloom.Rotated(0x2_0000) == 1 && Bloom.Rotated(1) == 0x8000 && Bloom.Rotated(0x1_0000) == 0x8000_0000
    ensures Bloom.Plus(0xffff_ffff, 2) == 1
  {
  }

  /** The bits of a byte are counted from the lowest. */
  lemma BitsOfAByte()
    ensures Bloom.Bit(0) == 0x01 && Bloom.Bit(1) == 0x02 && Bloom.Bit(2) == 0x04 && Bloom.Bit(3) == 0x08
    ensures Bloom.Bit(4) == 0x10 && Bloom.Bit(5) == 0x20 && Bloom.Bit(6) == 0x40 && Bloom.Bit(7) == 0x80
  {
  }

  /** The number of probes is 69 hundredths of the bits for a key, between 1 and 30. */
  lemma ProbesInHundredths(bits: nat)
    ensures var k := Bloom.Probes(bits);
            (69 * bits < 100 ==> k == 1) && (69 * bits >= 3000 ==> k == 30) &&
            (100 <= 69 * bits < 3000 ==> 100 * k <= 69 * bits < 100 * (k + 1))
  {
    var x := bits as real * 0.69;
    assert x * 100.0 == (69 * bits) as real;
  }

  /** A filter has the whole bytes that its bits need, and at least eight of them. */
  lemma FilterIsLargeEnough(n: nat, bits: nat)
    ensures var size := Bloom.FilterBytes(n, bits);
            8 * size >= n * bits && size >= 8 && (size > 8 ==> 8 * (size - 1) < n * bits)
  {
  }
}
