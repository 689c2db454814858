/** The number formats that both LevelDB (util/coding.cc) and nanopb use: base 128 varints, after the section
    "Base 128 Varints" of the Protocol Buffers Encoding specification, and little-endian words. */
module Varints {
  type Byte = b: int | 0 <= b < 256

  type Bytes = seq<Byte>

  const TWO_TO_31: int := 0x8000_0000
  const TWO_TO_32: int := 0x1_0000_0000
  const TWO_TO_63: int := 0x8000_0000_0000_0000
  const TWO_TO_64: int := 0x1_0000_0000_0000_0000

  function Pow2(n: nat): nat { if n == 0 then 1 else 2 * Pow2(n - 1) }

  /** Seven bits a byte, lowest first; all bytes but the last have the top bit set. */
  function Varint(v: nat): (r: Bytes)
    ensures |r| > 0
  {
    if v < 128 then [v] else [v % 128 + 128] + Varint(v / 128)
  }

  /** The first byte, and what follows it. */
  lemma SplitVarint(v: nat, rest: Bytes)
    ensures var s := Varint(v) + rest;
            |s| > 0 && s[0] % 128 == v % 128 && (s[0] >= 128 <==> v >= 128) &&
            s[1..] == if v < 128 then rest else Varint(v / 128) + rest
  {
    if v < 128 {
      assert ([v] + rest)[1..] == rest;
    } else {
      var first, more := v % 128 + 128, Varint(v / 128);
      assert ([first] + more) + rest == [first] + (more + rest);
    }
  }

  // ---------------------------------------------------------------- powers of two

  lemma Pow2Seven(n: nat)
    ensures Pow2(n + 7) == 128 * Pow2(n)
  {
    assert Pow2(n + 7) == 2 * Pow2(n + 6) == 4 * Pow2(n + 5) == 8 * Pow2(n + 4);
    assert Pow2(n + 4) == 2 * Pow2(n + 3) == 4 * Pow2(n + 2) == 8 * Pow2(n + 1);
  }

  lemma Pow2Grows(m: nat, n: nat)
    requires m <= n
    ensures Pow2(m) <= Pow2(n)
  {
    if m < n { Pow2Grows(m, n - 1); }
  }

  lemma Pow2Of64()
    ensures Pow2(64) == TWO_TO_64
  {
    assert Pow2(8) == 256;
    assert Pow2(16) == 0x1_0000;
    assert Pow2(24) == 0x100_0000;
    assert Pow2(32) == 0x1_0000_0000;
    assert Pow2(40) == 0x100_0000_0000;
    assert Pow2(48) == 0x1_0000_0000_0000;
    assert Pow2(56) == 0x100_0000_0000_0000;
  }

  /** A shifted value is its low group plus the rest, shifted seven places further. */
  lemma SplitShift(v: nat, bitpos: nat)
    ensures v * Pow2(bitpos) == (v % 128) * Pow2(bitpos) + (v / 128) * Pow2(bitpos + 7)
  {
    Pow2Seven(bitpos);
    var p := Pow2(bitpos);
    assert v == v % 128 + 128 * (v / 128);
    assert v * p == (v % 128) * p + (128 * (v / 128)) * p;
    assert (128 * (v / 128)) * p == (v / 128) * (128 * p);
  }

  /** Nothing of the low group is cut off where the whole value fits. */
  lemma GroupFits(v: nat, bitpos: nat, limit: nat)
    requires v * Pow2(bitpos) < limit
    ensures 0 <= (v % 128) * Pow2(bitpos) <= v * Pow2(bitpos)
    ensures v * Pow2(bitpos) == (v % 128) * Pow2(bitpos) + (v / 128) * Pow2(bitpos + 7)
    ensures (v / 128) * Pow2(bitpos + 7) < limit
  {
    hide Pow2;
    SplitShift(v, bitpos);
    NonNegative(v % 128, Pow2(bitpos));
    NonNegative(v / 128, Pow2(bitpos + 7));
  }

  lemma SmallRemainder(x: nat, limit: nat)
    requires x < limit
    ensures x % limit == x
  {
  }

  lemma NonNegative(a: nat, b: nat)
    ensures 0 <= a * b
  {
  }

  lemma AtLeastFactor(a: nat, b: nat)
    requires a > 0
    ensures a * b >= b
  {
  }

  lemma Pow2Of28And32()
    ensures Pow2(28) == 0x1000_0000 && Pow2(32) == TWO_TO_32
  {
    assert Pow2(8) == 256;
    assert Pow2(16) == 0x1_0000;
    assert Pow2(24) == 0x100_0000;
  }

  lemma HighBitsFit(high: nat, bitpos: nat)
    requires high > 0 && high * Pow2(bitpos + 7) < TWO_TO_64
    ensures bitpos + 7 < 64
  {
    if bitpos + 7 >= 64 {
      Pow2Grows(64, bitpos + 7);
      Pow2Of64();
      AtLeastFactor(high, Pow2(bitpos + 7));
    }
  }

  lemma HighBitsFit32(high: nat, bitpos: nat)
    requires high > 0 && high * Pow2(bitpos + 7) < TWO_TO_32
    ensures bitpos + 7 < 32
  {
    if bitpos + 7 >= 32 {
      Pow2Grows(32, bitpos + 7);
      Pow2Of28And32();
      AtLeastFactor(high, Pow2(bitpos + 7));
    }
  }

  lemma LastGroupIsSmall(v: nat)
    requires v * Pow2(28) < TWO_TO_32
    ensures v < 16
  {
    Pow2Of28And32();
  }

  /** How many groups of seven bits a value needs. */
  lemma {:induction false} VarintFits(v: nat, n: nat)
    requires v < Pow2(7 * n) && n > 0
    ensures |Varint(v)| <= n
  {
    if n == 1 { assert Pow2(7) == 128; }
    if v < 128 {
    } else {
      Pow2Seven(7 * (n - 1));
      VarintFits(v / 128, n - 1);
    }
  }

  /** The buffers of ten and five bytes are large enough. */
  lemma VarintFitsBuffer(v: nat)
    requires v < TWO_TO_64
    ensures |Varint(v)| <= 10 && (v < TWO_TO_32 ==> |Varint(v)| <= 5)
  {
    Pow2Of64();
    Pow2Grows(64, 70);
    VarintFits(v, 10);
    if v < TWO_TO_32 {
      Pow2Of28And32();
      Pow2Grows(32, 35);
      VarintFits(v, 5);
    }
  }

  // ---------------------------------------------------------------- fixed-width words

  /** The n low bytes of v, lowest first. */
  function Little(v: nat, n: nat): (r: Bytes)
    ensures |r| == n
  {
    if n == 0 then [] else [v % 256] + Little(v / 256, n - 1)
  }

  function FromLittle(s: Bytes): nat { if |s| == 0 then 0 else s[0] + 256 * FromLittle(s[1..]) }

  function Pow256(n: nat): nat { if n == 0 then 1 else 256 * Pow256(n - 1) }

  lemma {:induction false} WordReadsBack(v: nat, n: nat)
    requires v < Pow256(n)
    ensures FromLittle(Little(v, n)) == v
  {
    if n == 0 {
    } else {
      assert Little(v, n)[1..] == Little(v / 256, n - 1);
      WordReadsBack(v / 256, n - 1);
    }
  }
}
