/** Varints and signed integers of nanopb (pb_encode.c, pb_decode.c), after the sections "Base 128 Varints" and
    "Signed Integers" of the Protocol Buffers Encoding specification. */
module NanopbVarint {
  import opened InternalKeys
  import opened Varints

  // ---------------------------------------------------------------- writing

  /** What the loop has put into the buffer before it clears the last top bit. */
  function Groups(v: nat): Bytes { if v == 0 then [] else [v % 128 + 128] + Groups(v / 128) }

  lemma {:induction false} ClearLastTopBit(v: nat)
    requires v > 0
    ensures var g := Groups(v); |g| > 0 && g[|g| - 1] >= 128 && Varint(v) == g[..|g| - 1] + [g[|g| - 1] - 128]
  {
    if v >= 128 {
      ClearLastTopBit(v / 128);
      var h := Groups(v / 128);
      assert Groups(v) == [v % 128 + 128] + h;
    } else {
      assert Groups(v / 128) == [];
    }
  }

  lemma LastTopBit(v: nat, g: Bytes)
    requires v > 0 && g + [] == Groups(v)
    ensures |g| > 0 && g[|g| - 1] >= 128 && g[|g| - 1 := g[|g| - 1] - 128] == Varint(v)
  {
    assert g + [] == g;
    ClearLastTopBit(v);
  }

  lemma NextGroup(r: Bytes, v: nat)
    requires v > 0
    ensures r + Groups(v) == (r + [v % 128 + 128]) + Groups(v / 128)
  {
  }

  lemma NoGroups()
    ensures Groups(0) == []
  {
  }

  method EncodeVarint(v: nat) returns (r: Bytes)
    ensures r == Varint(v) && (v < TWO_TO_64 ==> |r| <= 10)
  {
    if v < TWO_TO_64 { VarintFitsBuffer(v); }
    if v <= 0x7f { return [v]; }
    hide Varint, Groups;
    r := [];
    var value := v;
    while value != 0
      invariant r + Groups(value) == Groups(v)
      decreases value
    {
      NextGroup(r, value);
      r := r + [value % 128 + 128];
      value := value / 128;
    }
    NoGroups();
    LastTopBit(v, r);
    r := r[|r| - 1 := r[|r| - 1] - 128];
  }

  // ---------------------------------------------------------------- reading 64 bits

  /** pb_decode_varint from bit position bitpos on, when acc has been read: the value and the bytes left. */
  function ReadVarint(s: Bytes, acc: nat, bitpos: nat): (r: Option<(nat, Bytes)>)
    ensures r.Some? ==> |r.value.1| < |s| && r.value.0 < TWO_TO_64
    decreases |s|
  {
    if bitpos >= 64 || |s| == 0 then None
    else
      var now := (acc + (s[0] % 128) * Pow2(bitpos)) % TWO_TO_64;
      if s[0] >= 128 then ReadVarint(s[1..], now, bitpos + 7) else Some((now, s[1..]))
  }

  function DecodeVarint(s: Bytes): (r: Option<(nat, Bytes)>)
    ensures r.Some? ==> |r.value.1| < |s| && r.value.0 < TWO_TO_64
  {
    ReadVarint(s, 0, 0)
  }

  lemma ReadOne(s: Bytes, acc: nat, bitpos: nat)
    requires |s| > 0 && bitpos < 64 && acc + s[0] % 128 * Pow2(bitpos) < TWO_TO_64
    ensures var now := acc + s[0] % 128 * Pow2(bitpos);
            now >= 0 && ReadVarint(s, acc, bitpos) ==
              if s[0] >= 128 then ReadVarint(s[1..], now, bitpos + 7) else Some((now, s[1..]))
  {
    hide Pow2;
    NonNegative(s[0] % 128, Pow2(bitpos));
    SmallRemainder(acc + s[0] % 128 * Pow2(bitpos), TWO_TO_64);
  }

  lemma {:induction false} ReadVarintBack(v: nat, rest: Bytes, acc: nat, bitpos: nat)
    requires acc + v * Pow2(bitpos) < TWO_TO_64 && bitpos < 64 && (v > 0 || bitpos == 0)
    ensures ReadVarint(Varint(v) + rest, acc, bitpos) == Some((acc + v * Pow2(bitpos), rest))
    decreases v
  {
    hide Pow2, ReadVarint, Varint;
    SplitVarint(v, rest);
    GroupFits(v, bitpos, TWO_TO_64);
    NonNegative(v / 128, Pow2(bitpos + 7));
    ReadOne(Varint(v) + rest, acc, bitpos);
    if v < 128 {
    } else {
      HighBitsFit(v / 128, bitpos);
      ReadVarintBack(v / 128, rest, acc + v % 128 * Pow2(bitpos), bitpos + 7);
    }
  }

  /** Every 64-bit value is read back, whatever follows it. */
  lemma VarintReadsBack(v: nat, rest: Bytes)
    requires v < TWO_TO_64
    ensures DecodeVarint(Varint(v) + rest) == Some((v, rest))
  {
    ReadVarintBack(v, rest, 0, 0);
  }

  // ---------------------------------------------------------------- reading 32 bits

  function BitOr(a: nat, b: nat): nat
    decreases a + b
  {
    if a == 0 && b == 0 then 0 else (if a % 2 == 1 || b % 2 == 1 then 1 else 0) + 2 * BitOr(a / 2, b / 2)
  }

  lemma {:induction false} OrWithZero(b: nat)
    ensures BitOr(0, b) == b
  {
    if b == 0 {
    } else {
      OrWithZero(b / 2);
    }
  }

  lemma OrWithEven(a: nat, b: nat)
    ensures BitOr(a, 2 * b) == a % 2 + 2 * BitOr(a / 2, b)
  {
    assert 2 * b / 2 == b && 2 * b % 2 == 0;
  }

  lemma DoubledShift(high: nat, bitpos: nat)
    requires bitpos > 0
    ensures high * Pow2(bitpos) == 2 * (high * Pow2(bitpos - 1)) >= 0 && high * Pow2(bitpos - 1) >= 0
  {
    NonNegative(high, Pow2(bitpos - 1));
  }

  /** Bits above all others are simply added. */
  lemma {:induction false} OrOfHigher(low: nat, high: nat, bitpos: nat)
    requires low < Pow2(bitpos)
    ensures high * Pow2(bitpos) >= 0 && BitOr(low, high * Pow2(bitpos)) == low + high * Pow2(bitpos)
  {
    if bitpos == 0 {
      OrWithZero(high);
    } else {
      DoubledShift(high, bitpos);
      hide BitOr;
      OrOfHigher(low / 2, high, bitpos - 1);
      OrWithEven(low, high * Pow2(bitpos - 1));
    }
  }

  /** uint_fast8_t has eight bits. */
  function NextBitpos(bitpos: nat): nat { (bitpos + 7) % 256 }

  /** result |= (uint32_t)(byte & 0x7F) << bitpos. */
  function OrShifted(result: nat, low: nat, bitpos: nat): nat { BitOr(result, (low * Pow2(bitpos)) % TWO_TO_32) }

  /** The loop of pb_decode_varint32.  Above bit 32 only zeros, or the sign bits of a negative value, may follow; but
      the bit position itself wraps around, and then the bits of an overlong varint are added to the lower ones. */
  function ReadVarint32(s: Bytes, result: nat, bitpos: nat): (r: Option<(nat, Bytes)>)
    ensures r.Some? ==> |r.value.1| < |s|
    decreases |s|
  {
    if |s| == 0 then None
    else
      var low := s[0] % 128;
      var signExtension := if bitpos < 63 then 0xff else 0x01;
      if bitpos >= 32 && low != 0 && (result < TWO_TO_31 || s[0] != signExtension) then None
      else
        var now := if bitpos >= 32 then result else OrShifted(result, low, bitpos);
        if s[0] >= 128 then ReadVarint32(s[1..], now, NextBitpos(bitpos))
        else if bitpos == 28 && low >= 16 then None
        else Some((now, s[1..]))
  }

  function DecodeVarint32(s: Bytes): (r: Option<(nat, Bytes)>)
    ensures r.Some? ==> |r.value.1| < |s|
  {
    if |s| == 0 then None else if s[0] < 128 then Some((s[0], s[1..])) else ReadVarint32(s[1..], s[0] % 128, 7)
  }

  lemma ReadOne32(s: Bytes, result: nat, bitpos: nat)
    requires |s| > 0 && bitpos < 32 && result < Pow2(bitpos) && s[0] % 128 * Pow2(bitpos) < TWO_TO_32
    ensures var now := result + s[0] % 128 * Pow2(bitpos);
            0 <= now < Pow2(bitpos + 7) &&
            ReadVarint32(s, result, bitpos) == if s[0] >= 128 then ReadVarint32(s[1..], now, bitpos + 7)
              else if bitpos == 28 && s[0] % 128 >= 16 then None else Some((now, s[1..]))
  {
    hide Pow2, BitOr;
    OrOfHigher(result, s[0] % 128, bitpos);
    NonNegative(s[0] % 128, Pow2(bitpos));
    SmallRemainder(s[0] % 128 * Pow2(bitpos), TWO_TO_32);
    BelowNextGroup(result, s[0] % 128, bitpos);
  }

  lemma BelowNextGroup(result: nat, low: nat, bitpos: nat)
    requires result < Pow2(bitpos) && low < 128
    ensures result + low * Pow2(bitpos) < Pow2(bitpos + 7)
  {
    hide Pow2;
    Pow2Seven(bitpos);
    var p := Pow2(bitpos);
    assert low * p <= 127 * p;
  }

  lemma {:induction false} ReadVarint32Back(v: nat, rest: Bytes, acc: nat, bitpos: nat)
    requires acc + v * Pow2(bitpos) < TWO_TO_32 && acc < Pow2(bitpos) && bitpos < 32 && v > 0
    ensures ReadVarint32(Varint(v) + rest, acc, bitpos) == Some((acc + v * Pow2(bitpos), rest))
    decreases v
  {
    hide Pow2, ReadVarint32, Varint;
    SplitVarint(v, rest);
    GroupFits(v, bitpos, TWO_TO_32);
    NonNegative(v / 128, Pow2(bitpos + 7));
    ReadOne32(Varint(v) + rest, acc, bitpos);
    if v < 128 {
      if bitpos == 28 { LastGroupIsSmall(v); }
    } else {
      HighBitsFit32(v / 128, bitpos);
      ReadVarint32Back(v / 128, rest, acc + v % 128 * Pow2(bitpos), bitpos + 7);
    }
  }

  /** Every 32-bit value, a tag or a length, is read back. */
  lemma Varint32ReadsBack(v: nat, rest: Bytes)
    requires v < TWO_TO_32
    ensures DecodeVarint32(Varint(v) + rest) == Some((v, rest))
  {
    hide ReadVarint32;
    var s := Varint(v) + rest;
    if v < 128 {
      assert s[1..] == rest;
    } else {
      assert s[1..] == Varint(v / 128) + rest;
      assert Pow2(7) == 128;
      assert v == v % 128 + (v / 128) * 128;
      ReadVarint32Back(v / 128, rest, v % 128, 7);
    }
  }

  // ---------------------------------------------------------------- signed integers

  /** The C conversions to uint64_t, int64_t and int32_t. */
  function ToUnsigned(n: int): nat { n % TWO_TO_64 }

  function ToInt64(v: nat): int
    requires v < TWO_TO_64
  {
    if v < TWO_TO_63 then v else v - TWO_TO_64
  }

  function ToInt32(v: nat): int {
    var w := v % TWO_TO_32;
    if w < TWO_TO_31 then w else w - TWO_TO_32
  }

  /** (value << 1), complemented for negative values, on 64 bits. */
  function ZigZag(n: int): (v: nat)
    requires -TWO_TO_63 <= n < TWO_TO_63
    ensures v < TWO_TO_64
  {
    var shifted := (ToUnsigned(n) * 2) % TWO_TO_64;
    if n < 0 then TWO_TO_64 - 1 - shifted else shifted
  }

  function UnZigZag(v: nat): int
    requires v < TWO_TO_64
  {
    if v % 2 == 1 then ToInt64(TWO_TO_64 - 1 - v / 2) else ToInt64(v / 2)
  }

  lemma ZigZagIsUndone(n: int)
    requires -TWO_TO_63 <= n < TWO_TO_63
    ensures UnZigZag(ZigZag(n)) == n
  {
    if n < 0 {
      assert ToUnsigned(n) == n + TWO_TO_64;
      assert (ToUnsigned(n) * 2) % TWO_TO_64 == 2 * n + TWO_TO_64;
    }
  }

  lemma SignIsKept(n: int)
    requires -TWO_TO_63 <= n < TWO_TO_63
    ensures ToUnsigned(n) < TWO_TO_64 && ToInt64(ToUnsigned(n)) == n
    ensures -TWO_TO_31 <= n < TWO_TO_31 ==> ToInt32(ToUnsigned(n)) == n
  {
    if n < 0 {
      assert ToUnsigned(n) == n + TWO_TO_64;
      if -TWO_TO_31 <= n { assert (n + TWO_TO_64) % TWO_TO_32 == n + TWO_TO_32; }
    }
  }

}
