/** How LevelDB writes numbers and strings (util/coding.cc). */
module Coding {
  import opened InternalKeys
  import opened Varints

  // ---------------------------------------------------------------- writing varints

  /** Seven bits, and more to come. */
  function More(v: nat): Byte { v % 128 + 128 }

  method EncodeVarint32(v: nat) returns (r: Bytes)
    requires v < TWO_TO_32
    ensures r == Varint(v) && |r| <= 5
  {
    VarintFitsBuffer(v);
    hide Varint, More;
    Shifts(v);
    FirstGroup(v);
    FirstGroup(v / 0x80);
    FirstGroup(v / 0x4000);
    FirstGroup(v / 0x20_0000);
    FirstGroup(v / 0x1000_0000);
    if v < 0x80 {
      r := [v];
    } else if v < 0x4000 {
      r := [More(v), v / 0x80];
    } else if v < 0x20_0000 {
      r := [More(v), More(v / 0x80), v / 0x4000];
    } else if v < 0x1000_0000 {
      r := [More(v), More(v / 0x80), More(v / 0x4000), v / 0x20_0000];
    } else {
      r := [More(v), More(v / 0x80), More(v / 0x4000), More(v / 0x20_0000), v / 0x1000_0000];
    }
  }

  lemma FirstGroup(v: nat)
    ensures Varint(v) == if v < 128 then [v] else [More(v)] + Varint(v / 128)
  {
  }

  /** Shifting step by step; and how many groups there are. */
  lemma Shifts(v: nat)
    requires v < TWO_TO_32
    ensures v / 0x80 / 0x80 == v / 0x4000 && v / 0x4000 / 0x80 == v / 0x20_0000 &&
            v / 0x20_0000 / 0x80 == v / 0x1000_0000
    ensures (v / 0x80 < 0x80 <==> v < 0x4000) && (v / 0x4000 < 0x80 <==> v < 0x20_0000)
    ensures (v / 0x20_0000 < 0x80 <==> v < 0x1000_0000) && v / 0x1000_0000 < 0x80
  {
  }

  method EncodeVarint64(v: nat) returns (r: Bytes)
    requires v < TWO_TO_64
    ensures r == Varint(v) && |r| <= 10
  {
    VarintFitsBuffer(v);
    r := [];
    var left := v;
    while left >= 128
      invariant r + Varint(left) == Varint(v)
    {
      assert r + Varint(left) == (r + [left % 128 + 128]) + Varint(left / 128);
      r := r + [left % 128 + 128];
      left := left / 128;
    }
    r := r + [left];
  }

  // ---------------------------------------------------------------- reading varints

  /** What is left of s when its front has been read. */
  predicate IsRest(rest: Bytes, s: Bytes) { |rest| <= |s| && rest == s[|s| - |rest|..] }

  lemma RestOfRest(a: Bytes, b: Bytes, c: Bytes)
    requires IsRest(a, b) && IsRest(b, c)
    ensures IsRest(a, c)
  {
  }

  /** v << places, without a limit. */
  function Shifted(v: nat, places: nat): nat {
    NonNegative(v, Pow2(places));
    v * Pow2(places)
  }

  /** From bit position shift on, when result has been read; last is the highest position that may still be read, and
      limit says how wide the result is. */
  function GetVarint(s: Bytes, result: nat, shift: nat, last: nat, limit: nat): (r: Option<(nat, Bytes)>)
    requires limit > 0
    ensures r.Some? ==> |r.value.1| < |s| && IsRest(r.value.1, s) && r.value.0 < limit
    decreases |s|
  {
    if shift > last || |s| == 0 then None
    else
      var now: nat := (result + Shifted(s[0] % 128, shift)) % limit;
      if s[0] >= 128 then GetVarint(s[1..], now, shift + 7, last, limit) else Some((now, s[1..]))
  }

  function GetVarint32(s: Bytes): (r: Option<(nat, Bytes)>)
    ensures r.Some? ==> |r.value.1| < |s| && IsRest(r.value.1, s) && r.value.0 < TWO_TO_32
  {
    GetVarint(s, 0, 0, 28, TWO_TO_32)
  }

  function GetVarint64(s: Bytes): (r: Option<(nat, Bytes)>)
    ensures r.Some? ==> |r.value.1| < |s| && IsRest(r.value.1, s) && r.value.0 < TWO_TO_64
  {
    GetVarint(s, 0, 0, 63, TWO_TO_64)
  }

  lemma OneByteVarint(s: Bytes)
    requires |s| > 0 && s[0] < 128
    ensures GetVarint32(s) == Some((s[0], s[1..]))
  {
    assert Pow2(0) == 1;
  }

  method GetVarint32Ptr(s: Bytes) returns (r: Option<(nat, Bytes)>)
    ensures r == GetVarint32(s)
  {
    if |s| > 0 && s[0] < 128 {
      OneByteVarint(s);
      return Some((s[0], s[1..]));
    }
    r := GetVarintPtr(s, 28, TWO_TO_32);
  }

  method GetVarintPtr(s: Bytes, last: nat, limit: nat) returns (r: Option<(nat, Bytes)>)
    requires limit > 0
    ensures r == GetVarint(s, 0, 0, last, limit)
  {
    hide Pow2;
    var result: nat, shift: nat, p := 0, 0, s;
    while shift <= last && |p| > 0
      invariant GetVarint(p, result, shift, last, limit) == GetVarint(s, 0, 0, last, limit)
      decreases |p|
    {
      var b := p[0];
      p := p[1..];
      result := (result + Shifted(b % 128, shift)) % limit;
      if b < 128 { return Some((result, p)); }
      shift := shift + 7;
    }
    r := None;
  }

  /** What is left of a value when its low group has been taken needs no more room, and fits where there is more to
      come. */
  lemma GroupIsTaken(v: nat, shift: nat, last: nat, limit: nat)
    requires (last == 28 && limit == TWO_TO_32) || (last == 63 && limit == TWO_TO_64)
    requires Shifted(v, shift) < limit && shift % 7 == 0
    ensures Shifted(v, shift) == Shifted(v % 128, shift) + Shifted(v / 128, shift + 7)
    ensures v >= 128 ==> shift + 7 <= last
  {
    hide Pow2;
    GroupFits(v, shift, limit);
    NonNegative(v / 128, Pow2(shift + 7));
    if v >= 128 {
      if last == 28 { HighBitsFit32(v / 128, shift); } else { HighBitsFit(v / 128, shift); }
    }
  }

  lemma GetOne(s: Bytes, result: nat, shift: nat, last: nat, limit: nat)
    requires limit > 0 && |s| > 0 && shift <= last && result + Shifted(s[0] % 128, shift) < limit
    ensures var now := result + Shifted(s[0] % 128, shift);
            GetVarint(s, result, shift, last, limit) ==
              if s[0] >= 128 then GetVarint(s[1..], now, shift + 7, last, limit) else Some((now, s[1..]))
  {
    hide Shifted;
    SmallRemainder(result + Shifted(s[0] % 128, shift), limit);
  }

  lemma {:induction false} GetVarintBack(v: nat, rest: Bytes, acc: nat, shift: nat, last: nat, limit: nat)
    requires (last == 28 && limit == TWO_TO_32) || (last == 63 && limit == TWO_TO_64)
    requires acc + Shifted(v, shift) < limit && shift <= last && shift % 7 == 0 && (v > 0 || shift == 0)
    ensures GetVarint(Varint(v) + rest, acc, shift, last, limit) == Some((acc + Shifted(v, shift), rest))
    decreases v
  {
    hide Shifted, GetVarint, Varint;
    SplitVarint(v, rest);
    GroupIsTaken(v, shift, last, limit);
    GetOne(Varint(v) + rest, acc, shift, last, limit);
    if v >= 128 {
      GetVarintBack(v / 128, rest, acc + Shifted(v % 128, shift), shift + 7, last, limit);
    } else {
      assert v % 128 == v;
    }
  }

  /** Every 32-bit value is read back, whatever follows it. */
  lemma Varint32IsReadBack(v: nat, rest: Bytes)
    requires v < TWO_TO_32
    ensures GetVarint32(Varint(v) + rest) == Some((v, rest))
  {
    assert Pow2(0) == 1;
    GetVarintBack(v, rest, 0, 0, 28, TWO_TO_32);
  }

  lemma Varint64IsReadBack(v: nat, rest: Bytes)
    requires v < TWO_TO_64
    ensures GetVarint64(Varint(v) + rest) == Some((v, rest))
  {
    assert Pow2(0) == 1;
    GetVarintBack(v, rest, 0, 0, 63, TWO_TO_64);
  }

  // ---------------------------------------------------------------- words and strings

  /** PutFixed32 keeps the low 32 bits. */
  function Fixed32(v: nat): (r: Bytes)
    ensures |r| == 4
  {
    Little(v % TWO_TO_32, 4)
  }

  function DecodeFixed32(s: Bytes): nat
    requires |s| == 4
  {
    FromLittle(s)
  }

  lemma Fixed32IsReadBack(v: nat)
    requires v < TWO_TO_32
    ensures DecodeFixed32(Fixed32(v)) == v
  {
    assert Pow256(4) == TWO_TO_32;
    WordReadsBack(v, 4);
  }

  /** Larger values lose their high bits. */
  lemma Fixed32ReadsBackExactlyWhen(v: nat)
    ensures DecodeFixed32(Fixed32(v)) == v <==> v < TWO_TO_32
  {
    hide Little, FromLittle, DecodeFixed32;
    var low := v % TWO_TO_32;
    SmallRemainder(low, TWO_TO_32);
    assert Fixed32(v) == Fixed32(low);
    Fixed32IsReadBack(low);
  }

  function Fixed64(v: nat): (r: Bytes)
    ensures |r| == 8
  {
    Little(v % TWO_TO_64, 8)
  }

  function DecodeFixed64(s: Bytes): nat
    requires |s| == 8
  {
    FromLittle(s)
  }

  lemma EightBytes()
    ensures Pow256(8) == TWO_TO_64
  {
    assert Pow256(4) == TWO_TO_32;
    assert Pow256(6) == 256 * (256 * Pow256(4));
    assert Pow256(8) == 256 * (256 * Pow256(6));
  }

  lemma Fixed64IsReadBack(v: nat)
    requires v < TWO_TO_64
    ensures DecodeFixed64(Fixed64(v)) == v
  {
    hide Pow256, Little;
    EightBytes();
    WordReadsBack(v, 8);
  }

  /** A length is cut down to 32 bits. */
  function LengthPrefixed(v: Bytes): Bytes { Varint(|v| % TWO_TO_32) + v }

  function GetLengthPrefixed(s: Bytes): (r: Option<(Bytes, Bytes)>)
    ensures r.Some? ==> |r.value.1| < |s|
  {
    var n := GetVarint32(s);
    if n.None? || |n.value.1| < n.value.0 then None else Some((n.value.1[..n.value.0], n.value.1[n.value.0..]))
  }

  method GetLengthPrefixedSlice(s: Bytes) returns (r: Option<(Bytes, Bytes)>)
    ensures r == GetLengthPrefixed(s)
  {
    hide GetVarint32;
    var n := GetVarint32Ptr(s);
    if n.None? || |n.value.1| < n.value.0 { return None; }
    r := Some((n.value.1[..n.value.0], n.value.1[n.value.0..]));
  }

  lemma StringIsReadBack(v: Bytes, rest: Bytes)
    requires |v| < TWO_TO_32
    ensures GetLengthPrefixed(LengthPrefixed(v) + rest) == Some((v, rest))
  {
    hide Varint, GetVarint32;
    SmallRemainder(|v|, TWO_TO_32);
    assert LengthPrefixed(v) + rest == Varint(|v|) + (v + rest);
    Varint32IsReadBack(|v|, v + rest);
    assert (v + rest)[..|v|] == v && (v + rest)[|v|..] == rest;
  }
}
