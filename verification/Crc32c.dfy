/** CRC-32C as section 12.1 of RFC 3720 defines it, byte by byte, and in four interleaved strides
    (util/crc32c.cc).  The program's tables are taken as what their generator yields. */
module Crc32c {

  /** The Castagnoli polynomial, bits reversed. */
  const POLYNOMIAL: bv32 := 0x82f6_3b78

  const CRC32_XOR: bv32 := 0xffff_ffff

  // ---------------------------------------------------------------- words

  function Xor(a: bv32, b: bv32): bv32 { a ^ b }

  function Half(l: bv32): bv32 { l >> 1 }

  predicate Odd(l: bv32) { l & 1 == 1 }

  function Low(l: bv32): bv8 { (l & 0xff) as bv8 }

  function Down(l: bv32): bv32 { l >> 8 }

  /** By none, one, two or three bytes. */
  function ShiftUp(x: bv32, places: nat): bv32 {
    if places == 8 then x << 8 else if places == 16 then x << 16 else if places == 24 then x << 24 else x
  }

  function Up(b: bv8, places: nat): bv32 { ShiftUp(b as bv32, places) }

  predicate IsByte(x: bv32) { x & 0xffff_ff00 == 0 }

  lemma ByteIsByte(b: bv8)
    ensures IsByte(b as bv32)
  {
  }

  lemma XorOfThree(a: bv32, b: bv32, c: bv32)
    ensures (a ^ b) ^ c == a ^ (b ^ c)
  {
  }

  lemma XorAssociates(a: bv32, b: bv32, c: bv32)
    ensures Xor(Xor(a, b), c) == Xor(a, Xor(b, c))
  {
    XorOfThree(a, b, c);
  }

  lemma XorOfTwo(a: bv32, b: bv32)
    ensures Xor(a, b) == Xor(b, a) && Xor(a, a) == 0 && Xor(a, 0) == a && Xor(0, a) == a
  {
  }

  lemma XorIsAGroup(a: bv32, b: bv32, c: bv32)
    ensures Xor(a, b) == Xor(b, a)
    ensures Xor(Xor(a, b), c) == Xor(a, Xor(b, c))
    ensures Xor(a, a) == 0 && Xor(a, 0) == a && Xor(0, a) == a
  {
    hide Xor;
    XorOfTwo(a, b);
    XorAssociates(a, b, c);
  }

  lemma Exchange(a: bv32, b: bv32, c: bv32, d: bv32)
    ensures Xor(Xor(a, b), Xor(c, d)) == Xor(Xor(a, c), Xor(b, d))
  {
    hide Xor;
    XorIsAGroup(Xor(a, b), c, d);
    XorIsAGroup(a, b, c);
    XorIsAGroup(b, c, b);
    XorIsAGroup(a, c, b);
    XorIsAGroup(Xor(a, c), b, d);
  }

  // ---------------------------------------------------------------- the shift register

  function ShiftBit(l: bv32): bv32 { if Odd(l) then Xor(Half(l), POLYNOMIAL) else Half(l) }

  function ShiftBits(l: bv32, n: nat): bv32 { if n == 0 then l else ShiftBit(ShiftBits(l, n - 1)) }

  /** Takes one zero byte in. */
  function ShiftByte(l: bv32): bv32 { ShiftBits(l, 8) }

  /** Takes n zero bytes in. */
  function Shift(l: bv32, n: nat): bv32 { if n == 0 then l else ShiftByte(Shift(l, n - 1)) }

  lemma HalfIsLinear(a: bv32, b: bv32)
    ensures Half(Xor(a, b)) == Xor(Half(a), Half(b)) && (Odd(Xor(a, b)) <==> Odd(a) != Odd(b))
  {
  }

  lemma ShiftBitIsLinear(a: bv32, b: bv32)
    ensures ShiftBit(Xor(a, b)) == Xor(ShiftBit(a), ShiftBit(b))
  {
    hide Xor, Half, Odd;
    HalfIsLinear(a, b);
    var u, v := Half(a), Half(b);
    Exchange(u, POLYNOMIAL, v, POLYNOMIAL);
    XorIsAGroup(POLYNOMIAL, POLYNOMIAL, 0);
    XorIsAGroup(Xor(u, v), 0, 0);
    XorIsAGroup(u, v, POLYNOMIAL);
    XorIsAGroup(u, POLYNOMIAL, v);
    XorIsAGroup(v, POLYNOMIAL, 0);
  }

  lemma {:induction false} ShiftBitsIsLinear(a: bv32, b: bv32, n: nat)
    ensures ShiftBits(Xor(a, b), n) == Xor(ShiftBits(a, n), ShiftBits(b, n))
  {
    hide Xor, ShiftBit;
    if n == 0 {
    } else {
      ShiftBitsIsLinear(a, b, n - 1);
      ShiftBitIsLinear(ShiftBits(a, n - 1), ShiftBits(b, n - 1));
    }
  }

  lemma {:induction false} ShiftIsLinear(a: bv32, b: bv32, n: nat)
    ensures Shift(Xor(a, b), n) == Xor(Shift(a, n), Shift(b, n))
  {
    hide Xor, ShiftBit, ShiftBits;
    if n == 0 {
    } else {
      ShiftIsLinear(a, b, n - 1);
      ShiftBitsIsLinear(Shift(a, n - 1), Shift(b, n - 1), 8);
    }
  }

  lemma {:induction false} ShiftAdds(l: bv32, m: nat, n: nat)
    ensures Shift(Shift(l, m), n) == Shift(l, m + n)
  {
    hide ShiftByte;
    if n == 0 {
    } else {
      ShiftAdds(l, m, n - 1);
    }
  }

  /** The low n bits are zero. */
  predicate LowZeros(l: bv32, n: nat)
    requires n <= 8
  {
    l & (((1 as bv32) << n) - 1) == 0
  }

  lemma ZeroMovesDown(l: bv32, n: nat)
    requires 0 < n <= 8 && LowZeros(l, n)
    ensures ShiftBit(l) == Half(l) && LowZeros(Half(l), n - 1)
  {
    match n
    case 1 =>
    case 2 =>
    case 3 =>
    case 4 =>
    case 5 =>
    case 6 =>
    case 7 =>
    case 8 =>
  }

  function Halves(l: bv32, n: nat): bv32 { if n == 0 then l else Half(Halves(l, n - 1)) }

  lemma {:induction false} ZerosMoveDown(l: bv32, n: nat)
    requires n <= 8 && LowZeros(l, 8)
    ensures ShiftBits(l, n) == Halves(l, n) && LowZeros(Halves(l, n), 8 - n)
  {
    hide ShiftBit, Half, LowZeros;
    if n == 0 {
    } else {
      ZerosMoveDown(l, n - 1);
      ZeroMovesDown(Halves(l, n - 1), 9 - n);
    }
  }

  lemma EightHalves(l: bv32)
    ensures Halves(l, 8) == Down(l)
  {
    assert Halves(l, 1) == l >> 1;
    assert Halves(l, 2) == l >> 2;
    assert Halves(l, 3) == l >> 3;
    assert Halves(l, 4) == l >> 4;
    assert Halves(l, 5) == l >> 5;
    assert Halves(l, 6) == l >> 6;
    assert Halves(l, 7) == l >> 7;
  }

  /** A zero byte at the low end just drops out. */
  lemma LowZerosDropOut(x: bv32, l: bv32)
    requires LowZeros(l, 8)
    ensures ShiftByte(Xor(x, l)) == Xor(ShiftByte(x), Down(l))
  {
    hide Xor, Down, LowZeros, ShiftBit, Half;
    ShiftBitsIsLinear(x, l, 8);
    ZerosMoveDown(l, 8);
    EightHalves(l);
  }

  // ---------------------------------------------------------------- the tables

  function ByteExtensionTable(c: bv8): bv32 { ShiftByte(Up(c, 0)) }

  function StrideExtensionTable0(c: bv8): bv32 { Shift(Up(c, 24), 16) }
  function StrideExtensionTable1(c: bv8): bv32 { Shift(Up(c, 16), 16) }
  function StrideExtensionTable2(c: bv8): bv32 { Shift(Up(c, 8), 16) }
  function StrideExtensionTable3(c: bv8): bv32 { Shift(Up(c, 0), 16) }

  // ---------------------------------------------------------------- the reference: one byte at a time

  function Step(l: bv32, b: bv8): bv32 { ShiftByte(Xor(l, Up(b, 0))) }

  function Steps(l: bv32, data: seq<bv8>): bv32 {
    if |data| == 0 then l else Step(Steps(l, data[..|data| - 1]), data[|data| - 1])
  }

  /** The checksum of a string whose beginning has checksum crc and which goes on with data. */
  function Extended(crc: bv32, data: seq<bv8>): bv32 { Xor(Steps(Xor(crc, CRC32_XOR), data), CRC32_XOR) }

  function Value(data: seq<bv8>): bv32 { Extended(0, data) }

  lemma {:induction false} StepsAdd(l: bv32, a: seq<bv8>, b: seq<bv8>)
    ensures Steps(l, a + b) == Steps(Steps(l, a), b)
  {
    hide Step;
    if |b| == 0 {
      assert a + b == a;
    } else {
      StepsAdd(l, a, b[..|b| - 1]);
      assert (a + b)[..|a + b| - 1] == a + b[..|b| - 1];
    }
  }

  /** Extending twice is extending once by both parts. */
  lemma ExtendedTwice(crc: bv32, a: seq<bv8>, b: seq<bv8>)
    ensures Extended(Extended(crc, a), b) == Extended(crc, a + b)
  {
    hide Xor, Steps;
    var l := Xor(crc, CRC32_XOR);
    StepsAdd(l, a, b);
    XorIsAGroup(Steps(l, a), CRC32_XOR, CRC32_XOR);
    XorIsAGroup(CRC32_XOR, 0, 0);
    XorIsAGroup(Steps(l, a), 0, 0);
  }

  /** What a register holds above its low byte. */
  function High(l: bv32): bv32 { l & 0xffff_ff00 }

  lemma LowAndHigh(l: bv32)
    ensures Xor(Up(Low(l), 0), High(l)) == l && LowZeros(High(l), 8) && Down(High(l)) == Down(l)
  {
  }

  lemma UpIsLinear(a: bv8, b: bv8)
    ensures Up(a ^ b, 0) == Xor(Up(a, 0), Up(b, 0))
  {
  }

  /** One look into the byte table is one byte step. */
  lemma TableStep(l: bv32, b: bv8)
    ensures Xor(ByteExtensionTable(Low(l) ^ b), Down(l)) == Step(l, b)
  {
    hide Xor, Down, LowZeros, ShiftByte, Up, High, Low;
    LowAndHigh(l);
    UpIsLinear(Low(l), b);
    Exchange(Up(Low(l), 0), High(l), Up(b, 0), 0);
    XorIsAGroup(Up(b, 0), 0, 0);
    XorIsAGroup(High(l), 0, 0);
    LowZerosDropOut(Up(Low(l) ^ b, 0), High(l));
  }

  // ---------------------------------------------------------------- one word at a time

  function DecodeFixed32(b0: bv8, b1: bv8, b2: bv8, b3: bv8): bv32 {
    Word(b0 as bv32, b1 as bv32, b2 as bv32, b3 as bv32)
  }

  function Word(x0: bv32, x1: bv32, x2: bv32, x3: bv32): bv32 { x0 | (x1 << 8) | (x2 << 16) | (x3 << 24) }

  function ReadUint32LE(data: seq<bv8>, p: nat): bv32
    requires p + 4 <= |data|
  {
    DecodeFixed32(data[p], data[p + 1], data[p + 2], data[p + 3])
  }

  lemma WordIsXor(x0: bv32, x1: bv32, x2: bv32, x3: bv32)
    requires IsByte(x0) && IsByte(x1) && IsByte(x2) && IsByte(x3)
    ensures Word(x0, x1, x2, x3)
         == Xor(ShiftUp(x0, 0), Xor(ShiftUp(x1, 8), Xor(ShiftUp(x2, 16), ShiftUp(x3, 24))))
  {
  }

  lemma WordParts(b0: bv8, b1: bv8, b2: bv8, b3: bv8)
    ensures DecodeFixed32(b0, b1, b2, b3) == Xor(Up(b0, 0), Xor(Up(b1, 8), Xor(Up(b2, 16), Up(b3, 24))))
  {
    hide Xor, IsByte, ShiftUp, Word;
    ByteIsByte(b0);
    ByteIsByte(b1);
    ByteIsByte(b2);
    ByteIsByte(b3);
    WordIsXor(b0 as bv32, b1 as bv32, b2 as bv32, b3 as bv32);
  }

  lemma DownIsLinear(a: bv32, b: bv32)
    ensures Down(Xor(a, b)) == Xor(Down(a), Down(b))
    ensures LowZeros(a, 8) && LowZeros(b, 8) ==> LowZeros(Xor(a, b), 8)
  {
  }

  lemma OneByteDown(x: bv32)
    requires IsByte(x)
    ensures Down(ShiftUp(x, 24)) == ShiftUp(x, 16) && Down(ShiftUp(x, 16)) == ShiftUp(x, 8)
    ensures Down(ShiftUp(x, 8)) == ShiftUp(x, 0)
    ensures LowZeros(ShiftUp(x, 24), 8) && LowZeros(ShiftUp(x, 16), 8) && LowZeros(ShiftUp(x, 8), 8)
  {
  }

  lemma OnePlaceDown(b: bv8)
    ensures Down(Up(b, 24)) == Up(b, 16) && Down(Up(b, 16)) == Up(b, 8) && Down(Up(b, 8)) == Up(b, 0)
    ensures LowZeros(Up(b, 24), 8) && LowZeros(Up(b, 16), 8) && LowZeros(Up(b, 8), 8) && LowZeros(0, 8) && Down(0) == 0
  {
    NothingDown();
    hide Down, IsByte, ShiftUp, LowZeros;
    ByteIsByte(b);
    OneByteDown(b as bv32);
  }

  lemma NothingDown()
    ensures LowZeros(0, 8) && Down(0) == 0
  {
  }

  /** The lowest byte of what is still to come goes into the register. */
  lemma OneByteIn(l: bv32, b: bv8, rest: bv32)
    requires LowZeros(rest, 8)
    ensures ShiftByte(Xor(l, Xor(Up(b, 0), rest))) == Xor(Step(l, b), Down(rest))
  {
    hide Xor, Down, LowZeros, ShiftByte, Up;
    XorIsAGroup(l, Up(b, 0), rest);
    LowZerosDropOut(Xor(l, Up(b, 0)), rest);
  }

  lemma TwoPlaces(b2: bv8, b3: bv8)
    ensures var r := Xor(Up(b2, 8), Up(b3, 16)); LowZeros(r, 8) && Down(r) == Xor(Up(b2, 0), Up(b3, 8))
  {
    hide Xor, Down, LowZeros, Up;
    OnePlaceDown(b2);
    OnePlaceDown(b3);
    DownIsLinear(Up(b2, 8), Up(b3, 16));
  }

  lemma ThreePlaces(b1: bv8, b2: bv8, b3: bv8)
    ensures var r := Xor(Up(b1, 8), Xor(Up(b2, 16), Up(b3, 24)));
            LowZeros(r, 8) && Down(r) == Xor(Up(b1, 0), Xor(Up(b2, 8), Up(b3, 16)))
  {
    hide Xor, Down, LowZeros, Up;
    OnePlaceDown(b1);
    OnePlaceDown(b2);
    OnePlaceDown(b3);
    DownIsLinear(Up(b2, 16), Up(b3, 24));
    DownIsLinear(Up(b1, 8), Xor(Up(b2, 16), Up(b3, 24)));
  }

  /** Four bytes taken in one after the other are one word taken in at once. */
  lemma WordStep(l: bv32, b0: bv8, b1: bv8, b2: bv8, b3: bv8)
    ensures Step(Step(Step(Step(l, b0), b1), b2), b3) == Shift(Xor(l, DecodeFixed32(b0, b1, b2, b3)), 4)
  {
    hide Xor, Down, LowZeros, ShiftByte, Up, DecodeFixed32, Step;
    WordParts(b0, b1, b2, b3);
    ThreePlaces(b1, b2, b3);
    TwoPlaces(b2, b3);
    OnePlaceDown(b3);
    var x := Xor(l, DecodeFixed32(b0, b1, b2, b3));
    OneByteIn(l, b0, Xor(Up(b1, 8), Xor(Up(b2, 16), Up(b3, 24))));
    OneByteIn(Step(l, b0), b1, Xor(Up(b2, 8), Up(b3, 16)));
    OneByteIn(Step(Step(l, b0), b1), b2, Up(b3, 8));
    OneByteIn(Step(Step(Step(l, b0), b1), b2), b3, 0);
    XorIsAGroup(Up(b3, 0), 0, 0);
    XorIsAGroup(Step(Step(Step(Step(l, b0), b1), b2), b3), 0, 0);
    assert Shift(x, 1) == ShiftByte(x);
    assert Shift(x, 2) == ShiftByte(Shift(x, 1));
    assert Shift(x, 3) == ShiftByte(Shift(x, 2));
  }

  lemma StepsOfWord(l: bv32, data: seq<bv8>, p: nat)
    requires p + 4 <= |data|
    ensures Steps(l, data[..p + 4]) == Shift(Xor(Steps(l, data[..p]), ReadUint32LE(data, p)), 4)
  {
    hide Xor, Step, DecodeFixed32, Shift;
    assert data[..p + 4][..p + 3] == data[..p + 3];
    assert data[..p + 3][..p + 2] == data[..p + 2];
    assert data[..p + 2][..p + 1] == data[..p + 1];
    assert data[..p + 1][..p] == data[..p];
    assert Steps(l, data[..p + 1]) == Step(Steps(l, data[..p]), data[p]);
    assert Steps(l, data[..p + 2]) == Step(Steps(l, data[..p + 1]), data[p + 1]);
    assert Steps(l, data[..p + 3]) == Step(Steps(l, data[..p + 2]), data[p + 2]);
    assert Steps(l, data[..p + 4]) == Step(Steps(l, data[..p + 3]), data[p + 3]);
    WordStep(Steps(l, data[..p]), data[p], data[p + 1], data[p + 2], data[p + 3]);
  }

  // ---------------------------------------------------------------- four strides

  function Byte(c: bv32, i: nat): bv8
    requires i < 4
  {
    match i
    case 0 => (c & 0xff) as bv8
    case 1 => ((c >> 8) & 0xff) as bv8
    case 2 => ((c >> 16) & 0xff) as bv8
    case _ => (c >> 24) as bv8
  }

  lemma BytesRebuild(c: bv32)
    ensures DecodeFixed32(Byte(c, 0), Byte(c, 1), Byte(c, 2), Byte(c, 3)) == c
  {
    assert (c & 0xff) | (((c >> 8) & 0xff) << 8) | (((c >> 16) & 0xff) << 16) | ((c >> 24) << 24) == c;
  }

  lemma BytesOfWord(c: bv32)
    ensures c == Xor(Up(Byte(c, 0), 0), Xor(Up(Byte(c, 1), 8), Xor(Up(Byte(c, 2), 16), Up(Byte(c, 3), 24))))
  {
    hide Xor, Up, Byte, DecodeFixed32;
    BytesRebuild(c);
    WordParts(Byte(c, 0), Byte(c, 1), Byte(c, 2), Byte(c, 3));
  }

  /** One stride: the next word of the lane meets what the lane held 16 bytes ago. */
  function Stride(word: bv32, c: bv32): bv32 {
    Xor(word, Xor(StrideExtensionTable3(Byte(c, 0)), Xor(StrideExtensionTable2(Byte(c, 1)),
        Xor(StrideExtensionTable1(Byte(c, 2)), StrideExtensionTable0(Byte(c, 3))))))
  }

  lemma StrideIsShift(word: bv32, c: bv32)
    ensures Stride(word, c) == Xor(word, Shift(c, 16))
  {
    hide Xor, Byte, Up, Shift;
    BytesOfWord(c);
    var u0, u1, u2, u3 := Up(Byte(c, 0), 0), Up(Byte(c, 1), 8), Up(Byte(c, 2), 16), Up(Byte(c, 3), 24);
    ShiftIsLinear(u2, u3, 16);
    ShiftIsLinear(u1, Xor(u2, u3), 16);
    ShiftIsLinear(u0, Xor(u1, Xor(u2, u3)), 16);
  }

  /** The register after four lanes, oldest first, have been taken in. */
  function Combined(c0: bv32, c1: bv32, c2: bv32, c3: bv32): bv32 {
    Shift(Xor(Shift(Xor(Shift(Xor(Shift(c0, 4), c1), 4), c2), 4), c3), 4)
  }

  function Sum(a: bv32, b: bv32, c: bv32, d: bv32): bv32 { Xor(Xor(a, b), Xor(c, d)) }

  lemma SumIsLinear(a: bv32, b: bv32, c: bv32, d: bv32, a': bv32, b': bv32, c': bv32, d': bv32)
    ensures Sum(Xor(a, a'), Xor(b, b'), Xor(c, c'), Xor(d, d')) == Xor(Sum(a, b, c, d), Sum(a', b', c', d'))
  {
    hide Xor;
    Exchange(a, a', b, b');
    Exchange(c, c', d, d');
    Exchange(Xor(a, b), Xor(a', b'), Xor(c, d), Xor(c', d'));
  }

  lemma ShiftOfSum(a: bv32, b: bv32, c: bv32, d: bv32, n: nat)
    ensures Shift(Sum(a, b, c, d), n) == Sum(Shift(a, n), Shift(b, n), Shift(c, n), Shift(d, n))
  {
    hide Xor, Shift;
    ShiftIsLinear(a, b, n);
    ShiftIsLinear(c, d, n);
    ShiftIsLinear(Xor(a, b), Xor(c, d), n);
  }

  lemma CombinedIsSum(c0: bv32, c1: bv32, c2: bv32, c3: bv32)
    ensures Combined(c0, c1, c2, c3) == Sum(Shift(c0, 16), Shift(c1, 12), Shift(c2, 8), Shift(c3, 4))
  {
    hide Xor, Shift;
    ShiftAdds(c0, 4, 12);
    ShiftAdds(c1, 4, 8);
    ShiftAdds(c2, 4, 4);
    ShiftAdds(Shift(c0, 4), 4, 8);
    ShiftAdds(Shift(c0, 8), 4, 4);
    ShiftAdds(Shift(c1, 4), 4, 4);
    ShiftAdds(c0, 4, 4);
    ShiftAdds(c0, 8, 4);
    ShiftAdds(c0, 12, 4);
    ShiftAdds(c1, 4, 4);
    ShiftAdds(c1, 8, 4);
    ShiftIsLinear(Shift(c0, 4), c1, 4);
    ShiftIsLinear(Xor(Shift(c0, 8), Shift(c1, 4)), c2, 4);
    ShiftIsLinear(Shift(c0, 8), Shift(c1, 4), 4);
    ShiftIsLinear(Xor(Xor(Shift(c0, 12), Shift(c1, 8)), Shift(c2, 4)), c3, 4);
    ShiftIsLinear(Xor(Shift(c0, 12), Shift(c1, 8)), Shift(c2, 4), 4);
    ShiftIsLinear(Shift(c0, 12), Shift(c1, 8), 4);
    XorIsAGroup(Xor(Shift(c0, 16), Shift(c1, 12)), Shift(c2, 8), Shift(c3, 4));
  }

  /** Sixteen more bytes, a word for every lane. */
  lemma StrideAll(c0: bv32, c1: bv32, c2: bv32, c3: bv32, w0: bv32, w1: bv32, w2: bv32, w3: bv32)
    ensures Combined(Stride(w0, c0), Stride(w1, c1), Stride(w2, c2), Stride(w3, c3))
         == Combined(Xor(Combined(c0, c1, c2, c3), w0), w1, w2, w3)
  {
    hide Xor, Shift, Stride, Combined, Sum;
    StrideIsShift(w0, c0);
    StrideIsShift(w1, c1);
    StrideIsShift(w2, c2);
    StrideIsShift(w3, c3);
    var s0, s1, s2, s3 := Shift(c0, 16), Shift(c1, 16), Shift(c2, 16), Shift(c3, 16);
    CombinedIsLinear(w0, w1, w2, w3, s0, s1, s2, s3);
    CombinedOfShifts(c0, c1, c2, c3);
    var c := Combined(c0, c1, c2, c3);
    CombinedIsLinear(w0, w1, w2, w3, c, 0, 0, 0);
    CombinedOfOne(c);
    XorIsAGroup(w0, c, 0);
    XorIsAGroup(w1, 0, 0);
    XorIsAGroup(w2, 0, 0);
    XorIsAGroup(w3, 0, 0);
  }

  lemma CombinedIsLinear(w0: bv32, w1: bv32, w2: bv32, w3: bv32, v0: bv32, v1: bv32, v2: bv32, v3: bv32)
    ensures Combined(Xor(w0, v0), Xor(w1, v1), Xor(w2, v2), Xor(w3, v3))
         == Xor(Combined(w0, w1, w2, w3), Combined(v0, v1, v2, v3))
  {
    hide Xor, Shift, Combined, Sum;
    CombinedIsSum(w0, w1, w2, w3);
    CombinedIsSum(v0, v1, v2, v3);
    CombinedIsSum(Xor(w0, v0), Xor(w1, v1), Xor(w2, v2), Xor(w3, v3));
    ShiftIsLinear(w0, v0, 16);
    ShiftIsLinear(w1, v1, 12);
    ShiftIsLinear(w2, v2, 8);
    ShiftIsLinear(w3, v3, 4);
    SumIsLinear(Shift(w0, 16), Shift(w1, 12), Shift(w2, 8), Shift(w3, 4),
                Shift(v0, 16), Shift(v1, 12), Shift(v2, 8), Shift(v3, 4));
  }

  lemma CombinedOfShifts(c0: bv32, c1: bv32, c2: bv32, c3: bv32)
    ensures Combined(Shift(c0, 16), Shift(c1, 16), Shift(c2, 16), Shift(c3, 16)) == Shift(Combined(c0, c1, c2, c3), 16)
  {
    hide Xor, Shift, Combined, Sum;
    CombinedIsSum(c0, c1, c2, c3);
    CombinedIsSum(Shift(c0, 16), Shift(c1, 16), Shift(c2, 16), Shift(c3, 16));
    ShiftOfSum(Shift(c0, 16), Shift(c1, 12), Shift(c2, 8), Shift(c3, 4), 16);
    ShiftAdds(c0, 16, 16);
    ShiftAdds(c1, 12, 16);
    ShiftAdds(c1, 16, 12);
    ShiftAdds(c2, 8, 16);
    ShiftAdds(c2, 16, 8);
    ShiftAdds(c3, 4, 16);
    ShiftAdds(c3, 16, 4);
  }

  lemma {:induction false} ShiftOfZero(n: nat)
    ensures Shift(0, n) == 0
  {
    hide ShiftByte;
    if n == 0 {
    } else {
      ShiftOfZero(n - 1);
      ZeroStaysZero();
    }
  }

  lemma ZeroStaysZero()
    ensures ShiftByte(0) == 0
  {
    hide Xor;
    LowZerosDropOut(0, 0);
    XorIsAGroup(ShiftByte(0), 0, 0);
    XorIsAGroup(0, 0, 0);
    ZerosMoveDown(0, 8);
    EightHalves(0);
  }

  lemma CombinedOfOne(c: bv32)
    ensures Combined(c, 0, 0, 0) == Shift(c, 16)
  {
    hide Xor, Shift, Combined;
    CombinedIsSum(c, 0, 0, 0);
    ShiftOfZero(12);
    ShiftOfZero(8);
    ShiftOfZero(4);
    XorIsAGroup(Shift(c, 16), 0, 0);
    XorIsAGroup(0, 0, 0);
  }

  /** Four more bytes: the oldest lane takes them and becomes the newest. */
  lemma StrideOne(c0: bv32, c1: bv32, c2: bv32, c3: bv32, w: bv32)
    ensures Combined(c1, c2, c3, Stride(w, c0)) == Shift(Xor(Combined(c0, c1, c2, c3), w), 4)
  {
    hide Xor, Shift, Combined, Sum, Stride;
    StrideIsShift(w, c0);
    XorIsAGroup(w, Shift(c0, 16), 0);
    var x := Xor(Shift(c0, 16), w);
    CombinedIsSum(c1, c2, c3, x);
    CombinedIsSum(c0, c1, c2, c3);
    ShiftIsLinear(Shift(c0, 16), w, 4);
    ShiftIsLinear(Combined(c0, c1, c2, c3), w, 4);
    ShiftOfSum(Shift(c0, 16), Shift(c1, 12), Shift(c2, 8), Shift(c3, 4), 4);
    ShiftAdds(c1, 12, 4);
    ShiftAdds(c2, 8, 4);
    ShiftAdds(c3, 4, 4);
    Rotated(Shift(Shift(c0, 16), 4), Shift(c1, 16), Shift(c2, 12), Shift(c3, 8), Shift(w, 4));
  }

  lemma Rotated(a: bv32, b: bv32, c: bv32, d: bv32, w: bv32)
    ensures Sum(b, c, d, Xor(a, w)) == Xor(Sum(a, b, c, d), w)
  {
    hide Xor;
    XorIsAGroup(Xor(b, c), d, Xor(a, w));
    XorIsAGroup(Xor(Xor(b, c), d), a, w);
    XorIsAGroup(b, c, d);
    XorIsAGroup(a, b, Xor(c, d));
    XorIsAGroup(Xor(b, Xor(c, d)), a, 0);
  }

  // ---------------------------------------------------------------- Extend

  /** The loop that takes four bytes, already in a word, into the register. */
  method StepWord(l: bv32, w: bv32) returns (r: bv32)
    ensures r == Shift(Xor(w, l), 4)
  {
    r := Xor(w, l);
    var i := 0;
    while i < 4
      invariant 0 <= i <= 4 && r == Shift(Xor(w, l), i)
    {
      ZeroStep(r);
      r := Xor(Down(r), ByteExtensionTable(Low(r)));
      i := i + 1;
    }
  }

  lemma ZeroStep(l: bv32)
    ensures Xor(Down(l), ByteExtensionTable(Low(l))) == ShiftByte(l)
  {
    hide Xor, Down, ShiftByte, ByteExtensionTable;
    TableStep(l, 0);
    assert Low(l) ^ 0 == Low(l) && Up(0, 0) == 0;
    XorIsAGroup(l, 0, 0);
    XorIsAGroup(Down(l), ByteExtensionTable(Low(l)), 0);
  }

  /** Bytes up to position q, one at a time. */
  method StepBytes(data: seq<bv8>, p: nat, q: nat, l: bv32, ghost start: bv32) returns (r: bv32)
    requires p <= q <= |data| && l == Steps(start, data[..p])
    ensures r == Steps(start, data[..q])
  {
    hide Xor, ByteExtensionTable, Down, Low, Step;
    var i := p;
    r := l;
    while i < q
      invariant p <= i <= q && r == Steps(start, data[..i])
    {
      TableStep(r, data[i]);
      assert data[..i + 1][..i] == data[..i];
      r := Xor(ByteExtensionTable(Low(r) ^ data[i]), Down(r));
      i := i + 1;
    }
  }

  lemma NoSteps(l: bv32, data: seq<bv8>)
    requires data == []
    ensures Steps(l, data) == l
  {
  }

  /** The register that four lanes stand for is the one that has taken in everything up to p. */
  ghost predicate LanesHold(data: seq<bv8>, p: nat, start: bv32, c0: bv32, c1: bv32, c2: bv32, c3: bv32)
    requires p <= |data|
  {
    Combined(c0, c1, c2, c3) == Steps(start, data[..p])
  }

  /** Whole words: 16 bytes at a time, then 4 at a time, in four lanes that are put together at the end. */
  method StrideBytes(data: seq<bv8>, from: nat, l: bv32, ghost start: bv32) returns (r: bv32, p: nat)
    requires from + 16 <= |data| && l == Steps(start, data[..from])
    ensures from <= p <= |data| && r == Steps(start, data[..p])
  {
    hide Xor, Stride, Combined, Steps, ReadUint32LE, Shift;
    p := from;
    var crc0, crc1 := Xor(ReadUint32LE(data, p), l), ReadUint32LE(data, p + 4);
    var crc2, crc3 := ReadUint32LE(data, p + 8), ReadUint32LE(data, p + 12);
    FirstLanes(data, p, l, start);
    p := p + 16;
    while |data| - p >= 16
      invariant from <= p <= |data| && LanesHold(data, p, start, crc0, crc1, crc2, crc3)
    {
      SixteenBytes(data, p, start, crc0, crc1, crc2, crc3);
      crc0 := Stride(ReadUint32LE(data, p), crc0);
      crc1 := Stride(ReadUint32LE(data, p + 4), crc1);
      crc2 := Stride(ReadUint32LE(data, p + 8), crc2);
      crc3 := Stride(ReadUint32LE(data, p + 12), crc3);
      p := p + 16;
    }
    while |data| - p >= 4
      invariant from <= p <= |data| && LanesHold(data, p, start, crc0, crc1, crc2, crc3)
    {
      StrideOne(crc0, crc1, crc2, crc3, ReadUint32LE(data, p));
      StepsOfWord(start, data, p);
      crc0, crc1, crc2, crc3 := crc1, crc2, crc3, Stride(ReadUint32LE(data, p), crc0);
      p := p + 4;
    }
    r := CombineLanes(crc0, crc1, crc2, crc3);
  }

  method CombineLanes(c0: bv32, c1: bv32, c2: bv32, c3: bv32) returns (r: bv32)
    ensures r == Combined(c0, c1, c2, c3)
  {
    hide Xor, Shift;
    XorIsAGroup(c0, 0, 0);
    r := StepWord(0, c0);
    XorIsAGroup(r, c1, 0);
    r := StepWord(r, c1);
    XorIsAGroup(r, c2, 0);
    r := StepWord(r, c2);
    XorIsAGroup(r, c3, 0);
    r := StepWord(r, c3);
  }

  /** Four words after one another. */
  lemma FourWords(data: seq<bv8>, p: nat, start: bv32)
    requires p + 16 <= |data|
    ensures Combined(Xor(Steps(start, data[..p]), ReadUint32LE(data, p)), ReadUint32LE(data, p + 4),
                     ReadUint32LE(data, p + 8), ReadUint32LE(data, p + 12)) == Steps(start, data[..p + 16])
  {
    hide Xor, Shift, Steps, ReadUint32LE;
    StepsOfWord(start, data, p);
    StepsOfWord(start, data, p + 4);
    StepsOfWord(start, data, p + 8);
    StepsOfWord(start, data, p + 12);
  }

  lemma FirstLanes(data: seq<bv8>, p: nat, l: bv32, start: bv32)
    requires p + 16 <= |data| && l == Steps(start, data[..p])
    ensures LanesHold(data, p + 16, start, Xor(ReadUint32LE(data, p), l), ReadUint32LE(data, p + 4),
                      ReadUint32LE(data, p + 8), ReadUint32LE(data, p + 12))
  {
    hide Xor, Steps, ReadUint32LE, Combined;
    FourWords(data, p, start);
    XorIsAGroup(l, ReadUint32LE(data, p), 0);
  }

  lemma SixteenBytes(data: seq<bv8>, p: nat, start: bv32, c0: bv32, c1: bv32, c2: bv32, c3: bv32)
    requires p + 16 <= |data| && LanesHold(data, p, start, c0, c1, c2, c3)
    ensures LanesHold(data, p + 16, start, Stride(ReadUint32LE(data, p), c0), Stride(ReadUint32LE(data, p + 4), c1),
                      Stride(ReadUint32LE(data, p + 8), c2), Stride(ReadUint32LE(data, p + 12), c3))
  {
    hide Xor, Steps, ReadUint32LE, Combined, Stride;
    FourWords(data, p, start);
    StrideAll(c0, c1, c2, c3, ReadUint32LE(data, p), ReadUint32LE(data, p + 4), ReadUint32LE(data, p + 8),
              ReadUint32LE(data, p + 12));
  }

  /** Extends a checksum by data that lies at an address that is misaligned modulo 4: whatever the length and the
      alignment, the result is the byte-wise one. */
  method Extend(crc: bv32, data: seq<bv8>, misaligned: nat) returns (r: bv32)
    requires misaligned < 4
    ensures r == Extended(crc, data)
  {
    hide Xor, Steps;
    ghost var start := Xor(crc, CRC32_XOR);
    var l, p, e := Xor(crc, CRC32_XOR), 0, |data|;
    NoSteps(start, data[..0]);
    var x := if misaligned == 0 then 0 else 4 - misaligned;
    if x <= e {
      l := StepBytes(data, 0, x, l, start);
      p := x;
    }
    if e - p >= 16 {
      l, p := StrideBytes(data, p, l, start);
    }
    l := StepBytes(data, p, e, l, start);
    assert data[..e] == data;
    r := Xor(l, CRC32_XOR);
  }

  // ---------------------------------------------------------------- stored checksums

  const MASK_DELTA: bv32 := 0xa282_ead8

  function RotateRight(c: bv32): bv32 { (c >> 15) | (c << 17) }

  function RotateBack(c: bv32): bv32 { (c >> 17) | (c << 15) }

  function Mask(crc: bv32): bv32 { RotateRight(crc) + MASK_DELTA }

  function Unmask(masked: bv32): bv32 { RotateBack(masked - MASK_DELTA) }

  lemma RotationIsUndone(c: bv32)
    ensures RotateBack(RotateRight(c)) == c && RotateRight(RotateBack(c)) == c
  {
  }

  lemma AdditionIsUndone(c: bv32)
    ensures (c + MASK_DELTA) - MASK_DELTA == c && (c - MASK_DELTA) + MASK_DELTA == c
  {
  }

  lemma MaskingIsUndone(crc: bv32)
    ensures Unmask(Mask(crc)) == crc && Mask(Unmask(crc)) == crc
  {
    hide RotateRight, RotateBack;
    RotationIsUndone(crc);
    AdditionIsUndone(RotateRight(crc));
    RotationIsUndone(crc - MASK_DELTA);
    AdditionIsUndone(crc);
  }

  function EncodeFixed32(c: bv32): (r: seq<bv8>)
    ensures |r| == 4 && DecodeFixed32(r[0], r[1], r[2], r[3]) == c
  {
    BytesRebuild(c);
    [Byte(c, 0), Byte(c, 1), Byte(c, 2), Byte(c, 3)]
  }
}
