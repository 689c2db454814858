/** A value of almost four gigabytes, which a write batch takes, does not come back out of its block. */
module LargeBlocks {
  import opened InternalKeys
  import opened Varints
  import opened Coding
  import opened Comparators
  import opened Block
  import opened BlockIter
  import WriteBatch

  const LARGEST: nat := 0xffff_ffff

  /** The block of one entry. */
  function SingleBlock(p: Pair): Bytes { EntryBytes(0, p) + Words([0]) + Fixed32(1) }

  function SingleLayout(p: Pair): Layout { Layout([0, |EntryBytes(0, p)|], [0], [0]) }

  lemma SingleIsFinished(p: Pair)
    ensures IsFinished(SingleBlock(p), [p], SingleLayout(p)) && Limit(SingleLayout(p)) == |EntryBytes(0, p)|
  {
    hide EntryBytes, Words, Fixed32;
    var e, l := EntryBytes(0, p), SingleLayout(p);
    BodyAndTail(e, Words([0]), Fixed32(1));
    assert RestartOffsets(l) == [0];
    assert EntryAt(e, [p], l, 0);
  }

  /** The lengths at its front take seven bytes. */
  lemma FrontOfLargest(p: Pair)
    requires |p.key| < 128 && |p.value| == LARGEST
    ensures var e := EntryBytes(0, p);
            |e| == 7 + |p.key| + LARGEST && e[7..7 + |p.key|] == p.key && e[7 + |p.key|..] == p.value
  {
    LargestVarint();
    assert p.key[0..] == p.key;
    var front := Varint(0) + Varint(|p.key|) + Varint(LARGEST);
    assert |front| == 7 && EntryBytes(0, p) == front + p.key + p.value;
  }

  lemma LargestVarint()
    ensures |Varint(LARGEST)| == 5
  {
    assert LARGEST / 128 == 0x1ff_ffff && 0x1ff_ffff / 128 == 0x3_ffff && 0x3_ffff / 128 == 0x7ff && 0x7ff / 128 == 0xf;
    assert |Varint(0xf)| == 1;
    assert |Varint(0x7ff)| == 2;
    assert |Varint(0x3_ffff)| == 3;
    assert |Varint(0x1ff_ffff)| == 4;
  }

  /** A write batch takes such a value, but from the block of its table it is not read: the reader looks for the restart
      points 2^32 bytes too early, inside the entry, and takes the block for empty. */
  lemma LargestValueIsLost(user: Bytes, tag: nat, value: Bytes)
    requires |user| <= 100 && tag < TWO_TO_64 && |value| == LARGEST && value[0] > 0
    ensures WriteBatch.Encodable(WriteBatch.Value(user, value))
    ensures var p := Pair(WithTag(user, tag), value);
            IsFinished(SingleBlock(p), [p], SingleLayout(p)) && !Opens(SingleBlock(p), SingleLayout(p)) &&
            StartsEmpty(SingleBlock(p))
  {
    hide EntryBytes, Words, WithTag, Varint, IsFinished, Opens;
    var key := WithTag(user, tag);
    assert |key| == |user| + 8 by { KeyLength(user, tag); }
    var p := Pair(key, value);
    SingleIsFinished(p);
    FrontOfLargest(p);
    var e, data, l := EntryBytes(0, p), SingleBlock(p), SingleLayout(p);
    OpensExactlyWhen(data, [p], l);
    OffsetIsCut(p);
    var o := RestartOffset(data).value;
    assert o == 6 + |key|;
    assert data[o..o + 4] == e[o..o + 4];
    assert e[o + 1] == value[0];
    SecondByteCounts(data[o..o + 4]);
  }

  lemma KeyLength(user: Bytes, tag: nat)
    ensures |WithTag(user, tag)| == |user| + 8
  {
  }

  lemma OffsetIsCut(p: Pair)
    requires |EntryBytes(0, p)| < 2 * TWO_TO_32
    ensures RestartOffset(SingleBlock(p)) == Some(|EntryBytes(0, p)| % TWO_TO_32)
  {
    hide EntryBytes, Words, Fixed32, DecodeFixed32;
    var data := SingleBlock(p);
    assert data[|data| - 4..] == Fixed32(1);
    Fixed32IsReadBack(1);
  }

  lemma SecondByteCounts(s: Bytes)
    requires |s| == 4 && s[1] > 0
    ensures DecodeFixed32(s) >= 256
  {
    assert FromLittle(s[1..]) == s[1] + 256 * FromLittle(s[1..][1..]);
  }
}
