/** The table of util/crc32c.cc for single bits, and the check values that section B.4 of RFC 3720 gives. */
module Crc32cValues {
  import opened Crc32c

  // ---------------------------------------------------------------- one look into the table

  function Entry(l: bv32, bit: bv32, entry: bv32): bv32 { if l & bit == 0 then 0 else entry }

  /** One byte in, by the table entries of its eight bits. */
  function Lookup(l: bv32): bv32 {
    Xor(Xor(Xor(Xor(Xor(Xor(Xor(Xor(Down(l),
      Entry(l, 0x01, 0xf26b_8303)), Entry(l, 0x02, 0xe13b_70f7)), Entry(l, 0x04, 0xc79a_971f)),
      Entry(l, 0x08, 0x8ad9_58cf)), Entry(l, 0x10, 0x105e_c76f)), Entry(l, 0x20, 0x20bd_8ede)),
      Entry(l, 0x40, 0x417b_1dbc)), Entry(l, 0x80, 0x82f6_3b78))
  }

  lemma {:induction false} BitsAdd(l: bv32, m: nat, n: nat)
    ensures ShiftBits(ShiftBits(l, m), n) == ShiftBits(l, m + n)
  {
    hide ShiftBit;
    if n == 0 {
    } else {
      BitsAdd(l, m, n - 1);
    }
  }

  /** The register after a single bit has been shifted out. */
  lemma OneShifted()
    ensures ShiftBits(1, 1) == 0x82f6_3b78 && ShiftBits(1, 2) == 0x417b_1dbc && ShiftBits(1, 3) == 0x20bd_8ede
    ensures ShiftBits(1, 4) == 0x105e_c76f && ShiftBits(1, 5) == 0x8ad9_58cf && ShiftBits(1, 6) == 0xc79a_971f
    ensures ShiftBits(1, 7) == 0xe13b_70f7 && ShiftBits(1, 8) == 0xf26b_8303
  {
    assert ShiftBits(1, 2) == 0x417b_1dbc;
    assert ShiftBits(1, 4) == 0x105e_c76f;
    assert ShiftBits(1, 6) == 0xc79a_971f;
  }

  lemma BitsMoveDown()
    ensures ShiftBits(0x02, 1) == 1 && ShiftBits(0x04, 2) == 1 && ShiftBits(0x08, 3) == 1 && ShiftBits(0x10, 4) == 1
    ensures ShiftBits(0x20, 5) == 1 && ShiftBits(0x40, 6) == 1 && ShiftBits(0x80, 7) == 1
  {
  }

  lemma SingleBits()
    ensures ShiftByte(0x01) == 0xf26b_8303 && ShiftByte(0x02) == 0xe13b_70f7 && ShiftByte(0x04) == 0xc79a_971f
    ensures ShiftByte(0x08) == 0x8ad9_58cf && ShiftByte(0x10) == 0x105e_c76f && ShiftByte(0x20) == 0x20bd_8ede
    ensures ShiftByte(0x40) == 0x417b_1dbc && ShiftByte(0x80) == 0x82f6_3b78
  {
    hide ShiftBits;
    OneShifted();
    BitsMoveDown();
    BitsAdd(0x02, 1, 7);
    BitsAdd(0x04, 2, 6);
    BitsAdd(0x08, 3, 5);
    BitsAdd(0x10, 4, 4);
    BitsAdd(0x20, 5, 3);
    BitsAdd(0x40, 6, 2);
    BitsAdd(0x80, 7, 1);
  }

  lemma BitsOfWord(l: bv32)
    ensures l == Xor(Xor(Xor(Xor(Xor(Xor(Xor(Xor(High(l), l & 0x01), l & 0x02), l & 0x04), l & 0x08), l & 0x10),
                     l & 0x20), l & 0x40), l & 0x80)
    ensures LowZeros(High(l), 8) && Down(High(l)) == Down(l)
  {
  }

  predicate IsBit(bit: bv32) {
    bit == 0x01 || bit == 0x02 || bit == 0x04 || bit == 0x08 || bit == 0x10 || bit == 0x20 || bit == 0x40 || bit == 0x80
  }

  lemma ThereOrNot(l: bv32, bit: bv32)
    requires IsBit(bit)
    ensures l & bit == 0 || l & bit == bit
  {
  }

  /** One more bit of the register. */
  lemma OneMoreBit(x: bv32, l: bv32, bit: bv32, entry: bv32)
    requires IsBit(bit) && ShiftByte(bit) == entry
    ensures ShiftByte(Xor(x, l & bit)) == Xor(ShiftByte(x), Entry(l, bit, entry))
  {
    hide Xor, ShiftBit;
    ShiftBitsIsLinear(x, l & bit, 8);
    ThereOrNot(l, bit);
    ZeroStaysZero();
  }

  /** One step of the shift register is one look into the table. */
  lemma StepIsLookup(l: bv32)
    ensures ShiftByte(l) == Lookup(l)
  {
    hide Xor, ShiftByte, High, Down, Entry, LowZeros;
    SingleBits();
    BitsOfWord(l);
    var l0 := High(l);
    LowZerosDropOut(0, l0);
    ZeroStaysZero();
    XorIsAGroup(l0, 0, 0);
    XorIsAGroup(Down(l), 0, 0);
    var l1 := Xor(l0, l & 0x01);
    OneMoreBit(l0, l, 0x01, 0xf26b_8303);
    var l2 := Xor(l1, l & 0x02);
    OneMoreBit(l1, l, 0x02, 0xe13b_70f7);
    var l3 := Xor(l2, l & 0x04);
    OneMoreBit(l2, l, 0x04, 0xc79a_971f);
    var l4 := Xor(l3, l & 0x08);
    OneMoreBit(l3, l, 0x08, 0x8ad9_58cf);
    var l5 := Xor(l4, l & 0x10);
    OneMoreBit(l4, l, 0x10, 0x105e_c76f);
    var l6 := Xor(l5, l & 0x20);
    OneMoreBit(l5, l, 0x20, 0x20bd_8ede);
    var l7 := Xor(l6, l & 0x40);
    OneMoreBit(l6, l, 0x40, 0x417b_1dbc);
    OneMoreBit(l7, l, 0x80, 0x82f6_3b78);
  }

  // ---------------------------------------------------------------- check values

  function Next(l: bv32, b: bv8): bv32 { Lookup(Xor(l, b as bv32)) }

  /** Four bytes take the register from l to r. */
  predicate Takes(l: bv32, b0: bv8, b1: bv8, b2: bv8, b3: bv8, r: bv32) {
    Next(Next(Next(Next(l, b0), b1), b2), b3) == r
  }

  lemma StepIsNext(data: seq<bv8>, b: bv8)
    ensures Steps(0xffff_ffff, data + [b]) == Next(Steps(0xffff_ffff, data), b)
  {
    hide Xor, ShiftByte, Lookup;
    assert (data + [b])[..|data|] == data;
    StepIsLookup(Xor(Steps(0xffff_ffff, data), b as bv32));
  }

  lemma FourMore(data: seq<bv8>, l: bv32, b0: bv8, b1: bv8, b2: bv8, b3: bv8, r: bv32)
    requires Steps(0xffff_ffff, data) == l && Takes(l, b0, b1, b2, b3, r)
    ensures Steps(0xffff_ffff, data + [b0, b1, b2, b3]) == r
  {
    hide Next, Steps;
    StepIsNext(data, b0);
    StepIsNext(data + [b0], b1);
    StepIsNext(data + [b0] + [b1], b2);
    StepIsNext(data + [b0] + [b1] + [b2], b3);
    assert data + [b0, b1, b2, b3] == data + [b0] + [b1] + [b2] + [b3];
  }

  lemma FirstFour(b0: bv8, b1: bv8, b2: bv8, b3: bv8, r: bv32)
    requires Takes(0xffff_ffff, b0, b1, b2, b3, r)
    ensures Steps(0xffff_ffff, [b0, b1, b2, b3]) == r
  {
    hide Takes;
    FourMore([], 0xffff_ffff, b0, b1, b2, b3, r);
    assert [] + [b0, b1, b2, b3] == [b0, b1, b2, b3];
  }

  lemma Complemented(data: seq<bv8>)
    ensures Value(data) == Xor(Steps(0xffff_ffff, data), 0xffff_ffff)
  {
    hide Steps;
  }

  lemma ZerosCheckFirstQuarter()
    ensures Takes(0xffff_ffff, 0, 0, 0, 0, 0xb798_b438)
    ensures Takes(0xb798_b438, 0, 0, 0, 0, 0x73d7_4d75)
  {
    assert Xor(0xffff_ffff, 0) == 0xffff_ffff && Lookup(0xffff_ffff) == 0xad82_acae;
    assert Xor(0xad82_acae, 0) == 0xad82_acae && Lookup(0xad82_acae) == 0x0e9e_882d;
    assert Xor(0x0e9e_882d, 0) == 0x0e9e_882d && Lookup(0x0e9e_882d) == 0x9f9b_5c85;
    assert Xor(0x9f9b_5c85, 0) == 0x9f9b_5c85 && Lookup(0x9f9b_5c85) == 0xb798_b438;
    assert Xor(0xb798_b438, 0) == 0xb798_b438 && Lookup(0xb798_b438) == 0xba8d_89ca;
    assert Xor(0xba8d_89ca, 0) == 0xba8d_89ca && Lookup(0xba8d_89ca) == 0xa8d5_8375;
    assert Xor(0xa8d5_8375, 0) == 0xa8d5_8375 && Lookup(0xa8d5_8375) == 0x44c1_9592;
    assert Xor(0x44c1_9592, 0) == 0x44c1_9592 && Lookup(0x44c1_9592) == 0x73d7_4d75;
  }

  lemma ZerosCheckSecondQuarter()
    ensures Takes(0x73d7_4d75, 0, 0, 0, 0, 0xd49f_4aa2)
    ensures Takes(0xd49f_4aa2, 0, 0, 0, 0, 0xbd8f_6515)
  {
    assert Xor(0x73d7_4d75, 0) == 0x73d7_4d75 && Lookup(0x73d7_4d75) == 0x441a_975c;
    assert Xor(0x441a_975c, 0) == 0x441a_975c && Lookup(0x441a_975c) == 0x1c22_0f94;
    assert Xor(0x1c22_0f94, 0) == 0x1c22_0f94 && Lookup(0x1c22_0f94) == 0x552e_4907;
    assert Xor(0x552e_4907, 0) == 0x552e_4907 && Lookup(0x552e_4907) == 0xd49f_4aa2;
    assert Xor(0xd49f_4aa2, 0) == 0xd49f_4aa2 && Lookup(0xd49f_4aa2) == 0x43a4_5a1b;
    assert Xor(0x43a4_5a1b, 0) == 0x43a4_5a1b && Lookup(0x43a4_5a1b) == 0x8994_c80e;
    assert Xor(0x8994_c80e, 0) == 0x8994_c80e && Lookup(0x8994_c80e) == 0xacf1_2bef;
    assert Xor(0xacf1_2bef, 0) == 0xacf1_2bef && Lookup(0xacf1_2bef) == 0xbd8f_6515;
  }

  lemma ZerosCheckThirdQuarter()
    ensures Takes(0xbd8f_6515, 0, 0, 0, 0, 0x433a_a9c1)
    ensures Takes(0x433a_a9c1, 0, 0, 0, 0, 0x7b04_1311)
  {
    assert Xor(0xbd8f_6515, 0) == 0xbd8f_6515 && Lookup(0xbd8f_6515) == 0x2512_5c16;
    assert Xor(0x2512_5c16, 0) == 0x2512_5c16 && Lookup(0x2512_5c16) == 0x36da_32db;
    assert Xor(0x36da_32db, 0) == 0x36da_32db && Lookup(0x36da_32db) == 0x4a6c_90a2;
    assert Xor(0x4a6c_90a2, 0) == 0x4a6c_90a2 && Lookup(0x4a6c_90a2) == 0x433a_a9c1;
    assert Xor(0x433a_a9c1, 0) == 0x433a_a9c1 && Lookup(0x433a_a9c1) == 0x31a5_9f6e;
    assert Xor(0x31a5_9f6e, 0) == 0x31a5_9f6e && Lookup(0x31a5_9f6e) == 0xcd8f_89da;
    assert Xor(0xcd8f_89da, 0) == 0xcd8f_89da && Lookup(0xcd8f_89da) == 0xb8fc_461a;
    assert Xor(0xb8fc_461a, 0) == 0xb8fc_461a && Lookup(0xb8fc_461a) == 0x7b04_1311;
  }

  lemma ZerosCheckFourthQuarter()
    ensures Takes(0x7b04_1311, 0, 0, 0, 0, 0x0836_3896)
    ensures Takes(0x0836_3896, 0, 0, 0, 0, 0x756e_c955)
  {
    assert Xor(0x7b04_1311, 0) == 0x7b04_1311 && Lookup(0x7b04_1311) == 0xe24e_407f;
    assert Xor(0xe24e_407f, 0) == 0xe24e_407f && Lookup(0xe24e_407f) == 0x2f69_2669;
    assert Xor(0x2f69_2669, 0) == 0x2f69_2669 && Lookup(0x2f69_2669) == 0x195b_2188;
    assert Xor(0x195b_2188, 0) == 0x195b_2188 && Lookup(0x195b_2188) == 0x0836_3896;
    assert Xor(0x0836_3896, 0) == 0x0836_3896 && Lookup(0x0836_3896) == 0xb401_2dc7;
    assert Xor(0xb401_2dc7, 0) == 0xb401_2dc7 && Lookup(0xb401_2dc7) == 0x17f3_4302;
    assert Xor(0x17f3_4302, 0) == 0x17f3_4302 && Lookup(0x17f3_4302) == 0xe12c_83b4;
    assert Xor(0xe12c_83b4, 0) == 0xe12c_83b4 && Lookup(0xe12c_83b4) == 0x756e_c955;
  }

  /** Thirty-two bytes 0. */
  lemma ZerosCheck()
    ensures Value([0, 0, 0, 0] + [0, 0, 0, 0] + [0, 0, 0, 0] + [0, 0, 0, 0] +
                  [0, 0, 0, 0] + [0, 0, 0, 0] + [0, 0, 0, 0] + [0, 0, 0, 0]) == 0x8a91_36aa
  {
    hide Steps, Takes;
    ZerosCheckFirstQuarter();
    ZerosCheckSecondQuarter();
    ZerosCheckThirdQuarter();
    ZerosCheckFourthQuarter();
    FirstFour(0, 0, 0, 0, 0xb798_b438);
    var d1: seq<bv8> := [0, 0, 0, 0];
    FourMore(d1, 0xb798_b438, 0, 0, 0, 0, 0x73d7_4d75);
    var d2 := d1 + [0, 0, 0, 0];
    FourMore(d2, 0x73d7_4d75, 0, 0, 0, 0, 0xd49f_4aa2);
    var d3 := d2 + [0, 0, 0, 0];
    FourMore(d3, 0xd49f_4aa2, 0, 0, 0, 0, 0xbd8f_6515);
    var d4 := d3 + [0, 0, 0, 0];
    FourMore(d4, 0xbd8f_6515, 0, 0, 0, 0, 0x433a_a9c1);
    var d5 := d4 + [0, 0, 0, 0];
    FourMore(d5, 0x433a_a9c1, 0, 0, 0, 0, 0x7b04_1311);
    var d6 := d5 + [0, 0, 0, 0];
    FourMore(d6, 0x7b04_1311, 0, 0, 0, 0, 0x0836_3896);
    var d7 := d6 + [0, 0, 0, 0];
    FourMore(d7, 0x0836_3896, 0, 0, 0, 0, 0x756e_c955);
    var d8 := d7 + [0, 0, 0, 0];
    Complemented(d8);
  }

  lemma AscendingCheckFirstQuarter()
    ensures Takes(0xffff_ffff, 0, 1, 2, 3, 0x26cc_e55c)
    ensures Takes(0x26cc_e55c, 4, 5, 6, 7, 0x75d3_43c4)
  {
    assert Xor(0xffff_ffff, 0) == 0xffff_ffff && Lookup(0xffff_ffff) == 0xad82_acae;
    assert Xor(0xad82_acae, 1) == 0xad82_acaf && Lookup(0xad82_acaf) == 0xfcf5_0b2e;
    assert Xor(0xfcf5_0b2e, 2) == 0xfcf5_0b2c && Lookup(0xfcf5_0b2c) == 0x6d02_b405;
    assert Xor(0x6d02_b405, 3) == 0x6d02_b406 && Lookup(0x6d02_b406) == 0x26cc_e55c;
    assert Xor(0x26cc_e55c, 4) == 0x26cc_e558 && Lookup(0x26cc_e558) == 0xdbda_4ef9;
    assert Xor(0xdbda_4ef9, 5) == 0xdbda_4efc && Lookup(0xdbda_4efc) == 0xbef6_7aeb;
    assert Xor(0xbef6_7aeb, 6) == 0xbef6_7aed && Lookup(0xbef6_7aed) == 0x5ca6_12b3;
    assert Xor(0x5ca6_12b3, 7) == 0x5ca6_12b4 && Lookup(0x5ca6_12b4) == 0x75d3_43c4;
  }

  lemma AscendingCheckSecondQuarter()
    ensures Takes(0x75d3_43c4, 8, 9, 10, 11, 0xac7c_5545)
    ensures Takes(0xac7c_5545, 12, 13, 14, 15, 0x2636_f714)
  {
    assert Xor(0x75d3_43c4, 8) == 0x75d3_43cc && Lookup(0x75d3_43cc) == 0x8ebb_3a57;
    assert Xor(0x8ebb_3a57, 9) == 0x8ebb_3a5e && Lookup(0x8ebb_3a5e) == 0xfdd3_dece;
    assert Xor(0xfdd3_dece, 10) == 0xfdd3_dec4 && Lookup(0xfdd3_dec4) == 0x04ea_6205;
    assert Xor(0x04ea_6205, 11) == 0x04ea_620e && Lookup(0x04ea_620e) == 0xac7c_5545;
    assert Xor(0xac7c_5545, 12) == 0xac7c_5549 && Lookup(0xac7c_5549) == 0x3965_ba25;
    assert Xor(0x3965_ba25, 13) == 0x3965_ba28 && Lookup(0x3965_ba28) == 0xaa5d_b3ab;
    assert Xor(0xaa5d_b3ab, 14) == 0xaa5d_b3a5 && Lookup(0xaa5d_b3a5) == 0x9710_fc09;
    assert Xor(0x9710_fc09, 15) == 0x9710_fc06 && Lookup(0x9710_fc06) == 0x2636_f714;
  }

  lemma AscendingCheckThirdQuarter()
    ensures Takes(0x2636_f714, 16, 17, 18, 19, 0x3386_1419)
    ensures Takes(0x3386_1419, 20, 21, 22, 23, 0xd643_786a)
  {
    assert Xor(0x2636_f714, 16) == 0x2636_f704 && Lookup(0x2636_f704) == 0xc7bc_a1e8;
    assert Xor(0xc7bc_a1e8, 17) == 0xc7bc_a1f9 && Lookup(0xc7bc_a1f9) == 0x8b1b_0818;
    assert Xor(0x8b1b_0818, 18) == 0x8b1b_080a && Lookup(0x8b1b_080a) == 0x6b69_3330;
    assert Xor(0x6b69_3330, 19) == 0x6b69_3323 && Lookup(0x6b69_3323) == 0x3386_1419;
    assert Xor(0x3386_1419, 20) == 0x3386_140d && Lookup(0x3386_140d) == 0xbf1b_cac7;
    assert Xor(0xbf1b_cac7, 21) == 0xbf1b_cad2 && Lookup(0xbf1b_cad2) == 0x3257_8a96;
    assert Xor(0x3257_8a96, 22) == 0x3257_8a80 && Lookup(0x3257_8a80) == 0x82c4_6cf2;
    assert Xor(0x82c4_6cf2, 23) == 0x82c4_6ce5 && Lookup(0x82c4_6ce5) == 0xd643_786a;
  }

  lemma AscendingCheckFourthQuarter()
    ensures Takes(0xd643_786a, 24, 25, 26, 27, 0x9b21_363e)
    ensures Takes(0x9b21_363e, 28, 29, 30, 31, 0xb922_86b1)
  {
    assert Xor(0xd643_786a, 24) == 0xd643_7872 && Lookup(0xd643_7872) == 0x9075_6782;
    assert Xor(0x9075_6782, 25) == 0x9075_679b && Lookup(0x9075_679b) == 0x0bb1_224b;
    assert Xor(0x0bb1_224b, 26) == 0x0bb1_2251 && Lookup(0x0bb1_2251) == 0xa345_e8f2;
    assert Xor(0xa345_e8f2, 27) == 0xa345_e8e9 && Lookup(0xa345_e8e9) == 0x9b21_363e;
    assert Xor(0x9b21_363e, 28) == 0x9b21_3622 && Lookup(0x9b21_3622) == 0xc11d_df1f;
    assert Xor(0xc11d_df1f, 29) == 0xc11d_df02 && Lookup(0xc11d_df02) == 0xe1fa_6d28;
    assert Xor(0xe1fa_6d28, 30) == 0xe1fa_6d36 && Lookup(0xe1fa_6d36) == 0x16a3_5434;
    assert Xor(0x16a3_5434, 31) == 0x16a3_542b && Lookup(0x16a3_542b) == 0xb922_86b1;
  }

  /** The bytes from 0 to 31. */
  lemma AscendingCheck()
    ensures Value([0, 1, 2, 3] + [4, 5, 6, 7] + [8, 9, 10, 11] + [12, 13, 14, 15] +
                  [16, 17, 18, 19] + [20, 21, 22, 23] + [24, 25, 26, 27] + [28, 29, 30, 31]) == 0x46dd_794e
  {
    hide Steps, Takes;
    AscendingCheckFirstQuarter();
    AscendingCheckSecondQuarter();
    AscendingCheckThirdQuarter();
    AscendingCheckFourthQuarter();
    FirstFour(0, 1, 2, 3, 0x26cc_e55c);
    var d1: seq<bv8> := [0, 1, 2, 3];
    FourMore(d1, 0x26cc_e55c, 4, 5, 6, 7, 0x75d3_43c4);
    var d2 := d1 + [4, 5, 6, 7];
    FourMore(d2, 0x75d3_43c4, 8, 9, 10, 11, 0xac7c_5545);
    var d3 := d2 + [8, 9, 10, 11];
    FourMore(d3, 0xac7c_5545, 12, 13, 14, 15, 0x2636_f714);
    var d4 := d3 + [12, 13, 14, 15];
    FourMore(d4, 0x2636_f714, 16, 17, 18, 19, 0x3386_1419);
    var d5 := d4 + [16, 17, 18, 19];
    FourMore(d5, 0x3386_1419, 20, 21, 22, 23, 0xd643_786a);
    var d6 := d5 + [20, 21, 22, 23];
    FourMore(d6, 0xd643_786a, 24, 25, 26, 27, 0x9b21_363e);
    var d7 := d6 + [24, 25, 26, 27];
    FourMore(d7, 0x9b21_363e, 28, 29, 30, 31, 0xb922_86b1);
    var d8 := d7 + [28, 29, 30, 31];
    Complemented(d8);
  }

  /** Stored checksums are turned by fifteen bits and have a constant added. */
  lemma MaskChecks()
    ensures Mask(0) == 0xa282_ead8 && Mask(0x8000) == 0xa282_ead9 && Mask(1) == 0xa284_ead8
    ensures Mask(0xffff_ffff) == 0xa282_ead7
  {
    assert RotateRight(0x8000) == 1 && RotateRight(1) == 0x2_0000 && RotateRight(0xffff_ffff) == 0xffff_ffff;
  }
}
