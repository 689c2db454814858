/** What the decoder does with bytes that no encoder of its own has written: unknown fields, repeated and missing ones,
    other spellings of numbers (pb_decode.c). */
module NanopbLaws {
  import opened InternalKeys
  import opened NanopbVarint
  import opened Varints
  import opened Numerals
  import opened NanopbMessage
  import opened NanopbDecode
  import opened NanopbRoundTrip
  import opened NanopbWire

  // ---------------------------------------------------------------- numbers in any spelling

  lemma {:induction false} SpelledVarintReads(s: Bytes, rest: Bytes, acc: nat, bitpos: nat)
    requires IsGroups(s) && bitpos + 7 * (|s| - 1) < 64 && acc + Number(s) * Pow2(bitpos) < TWO_TO_64
    ensures ReadVarint(s + rest, acc, bitpos) == Some((acc + Number(s) * Pow2(bitpos), rest))
    decreases |s|
  {
    hide Pow2, ReadVarint, Number;
    NextGroups(s, rest);
    var low, high := s[0] % 128, Number(s[1..]);
    ShiftedMore(acc, low, high, bitpos);
    ReadOne(s + rest, acc, bitpos);
    if |s| == 1 {
      NoNumber();
      assert s[1..] == [] && [] + rest == rest;
    } else {
      SpelledVarintReads(s[1..], rest, acc + low * Pow2(bitpos), bitpos + 7);
    }
  }

  /** Above bit 32 there are only zeros. */
  lemma {:induction false} HighZerosRead(s: Bytes, rest: Bytes, acc: nat, bitpos: nat)
    requires IsGroups(s) && Number(s) == 0 && 32 <= bitpos && bitpos + 7 * |s| < 256
    ensures ReadVarint32(s + rest, acc, bitpos) == Some((acc, rest))
    decreases |s|
  {
    NextGroups(s, rest);
    if |s| == 1 {
      assert s[1..] + rest == rest;
    } else {
      HighZerosRead(s[1..], rest, acc, bitpos + 7);
    }
  }

  lemma {:induction false} SpelledVarint32Reads(s: Bytes, rest: Bytes, acc: nat, bitpos: nat)
    requires IsGroups(s) && bitpos < 32 && bitpos + 7 * |s| < 256
    requires acc < Pow2(bitpos) && acc + Number(s) * Pow2(bitpos) < TWO_TO_32
    ensures ReadVarint32(s + rest, acc, bitpos) == Some((acc + Number(s) * Pow2(bitpos), rest))
    decreases |s|
  {
    hide Pow2, ReadVarint32, Number;
    NextGroups(s, rest);
    var low, high := s[0] % 128, Number(s[1..]);
    ShiftedMore(acc, low, high, bitpos);
    ReadOne32(s + rest, acc, bitpos);
    LowFits(low, high, bitpos);
    if |s| == 1 {
      NoNumber();
      assert s[1..] == [] && [] + rest == rest;
    } else if bitpos + 7 < 32 {
      SpelledVarint32Reads(s[1..], rest, acc + low * Pow2(bitpos), bitpos + 7);
    } else {
      HighIsZero(high, bitpos + 7);
      HighZerosRead(s[1..], rest, acc + low * Pow2(bitpos), bitpos + 7);
    }
  }

  lemma LowFits(low: nat, high: nat, bitpos: nat)
    requires low < 128 && low * Pow2(bitpos) < TWO_TO_32
    ensures bitpos == 28 ==> low < 16
  {
    if bitpos == 28 { Pow2Of28And32(); }
  }

  lemma HighIsZero(high: nat, bitpos: nat)
    requires high * Pow2(bitpos) < TWO_TO_32 && bitpos >= 32
    ensures high == 0 && high * Pow2(bitpos) == 0
  {
    hide Pow2;
    Pow2Grows(32, bitpos);
    Pow2Of28And32();
    if high > 0 { AtLeastFactor(high, Pow2(bitpos)); }
  }

  /** Whatever zeros a varint ends with, and whatever follows it, up to ten groups are read as their number. */
  lemma SpellingIsRead(s: Bytes, rest: Bytes)
    requires IsVarint(s)
    ensures Number(s) < TWO_TO_64 ==> DecodeVarint(s + rest) == Some((Number(s), rest))
    ensures Number(s) < TWO_TO_32 ==> DecodeVarint32(s + rest) == Some((Number(s), rest))
    ensures SkipVarint(s + rest) == Some(rest)
  {
    assert Pow2(0) == 1;
    if Number(s) < TWO_TO_64 { SpelledVarintReads(s, rest, 0, 0); }
    if Number(s) < TWO_TO_32 { Spelling32(s, rest); }
    GroupsAreSkipped(s, rest);
  }

  lemma Spelling32(s: Bytes, rest: Bytes)
    requires IsVarint(s) && Number(s) < TWO_TO_32
    ensures DecodeVarint32(s + rest) == Some((Number(s), rest))
  {
    hide ReadVarint32, Number;
    NextGroups(s, rest);
    if |s| == 1 {
      NoNumber();
      assert s[1..] == [] && [] + rest == rest;
    } else {
      assert Pow2(7) == 128;
      SpelledVarint32Reads(s[1..], rest, s[0] % 128, 7);
    }
  }

  lemma {:induction false} GroupsAreSkipped(s: Bytes, rest: Bytes)
    requires IsGroups(s)
    ensures SkipVarint(s + rest) == Some(rest)
    decreases |s|
  {
    NextGroups(s, rest);
    if |s| == 1 {
      assert s[1..] + rest == rest;
    } else {
      GroupsAreSkipped(s[1..], rest);
    }
  }

  // ---------------------------------------------------------------- what follows does not matter

  lemma {:induction false} Varint64IsLocal(s: Bytes, x: Bytes, acc: nat, bitpos: nat)
    ensures var r := ReadVarint(s, acc, bitpos);
            r.Some? ==> ReadVarint(s + x, acc, bitpos) == Some((r.value.0, r.value.1 + x))
    decreases |s|
  {
    hide Pow2;
    if |s| > 0 && bitpos < 64 {
      FirstOfTwo(s, x);
      var now := (acc + (s[0] % 128) * Pow2(bitpos)) % TWO_TO_64;
      Varint64IsLocal(s[1..], x, now, bitpos + 7);
    }
  }

  lemma {:induction false} Varint32IsLocal(s: Bytes, x: Bytes, result: nat, bitpos: nat)
    ensures var r := ReadVarint32(s, result, bitpos);
            r.Some? ==> ReadVarint32(s + x, result, bitpos) == Some((r.value.0, r.value.1 + x))
    decreases |s|
  {
    hide OrShifted, NextBitpos;
    if |s| > 0 {
      FirstOfTwo(s, x);
      var now := if bitpos >= 32 then result else OrShifted(result, s[0] % 128, bitpos);
      Varint32IsLocal(s[1..], x, now, NextBitpos(bitpos));
    }
  }

  lemma {:induction false} SkipIsLocal(s: Bytes, x: Bytes)
    ensures var r := SkipVarint(s); r.Some? ==> SkipVarint(s + x) == Some(r.value + x)
    decreases |s|
  {
    if |s| > 0 {
      FirstOfTwo(s, x);
      SkipIsLocal(s[1..], x);
    }
  }

  lemma Decode32IsLocal(s: Bytes, x: Bytes)
    ensures var r := DecodeVarint32(s); r.Some? ==> DecodeVarint32(s + x) == Some((r.value.0, r.value.1 + x))
  {
    hide ReadVarint32;
    if |s| > 0 {
      FirstOfTwo(s, x);
      Varint32IsLocal(s[1..], x, s[0] % 128, 7);
    }
  }

  lemma TakeIsLocal(s: Bytes, x: Bytes, n: nat)
    ensures var r := Take(s, n); r.Some? ==> Take(s + x, n) == Some((r.value.0, r.value.1 + x))
  {
    if n <= |s| { assert (s + x)[..n] == s[..n] && (s + x)[n..] == s[n..] + x; }
  }

  lemma DelimitedIsLocal(s: Bytes, x: Bytes)
    ensures var r := TakeDelimited(s); r.Some? ==> TakeDelimited(s + x) == Some((r.value.0, r.value.1 + x))
  {
    hide DecodeVarint32, Take;
    Decode32IsLocal(s, x);
    var n := DecodeVarint32(s);
    if n.Some? { TakeIsLocal(n.value.1, x, n.value.0); }
  }

  lemma ValueIsLocal(kind: Kind, s: Bytes, x: Bytes, cur: Value)
    requires ShapedValue(kind, cur)
    ensures var r := DecodeValue(kind, s, cur); r.Some? ==>
              DecodeValue(kind, s + x, cur) == Some((r.value.0, r.value.1 + x))
  {
    hide ReadVarint, TakeDelimited, Take, FromLittle, CString, DecodeNoInit;
    Varint64IsLocal(s, x, 0, 0);
    TakeIsLocal(s, x, 4);
    TakeIsLocal(s, x, 8);
    DelimitedIsLocal(s, x);
  }

  lemma FreshIsLocal(kind: Kind, s: Bytes, x: Bytes)
    ensures var r := DecodeFresh(kind, s); r.Some? ==> DecodeFresh(kind, s + x) == Some((r.value.0, r.value.1 + x))
  {
    hide DecodeValue;
    DefaultIsShaped(kind);
    ValueIsLocal(kind, s, x, DefaultValue(kind));
  }

  lemma SlotIsLocal(field: Field, wireType: nat, s: Bytes, x: Bytes, slot: Slot)
    requires ShapedSlot(field, slot)
    ensures var r := DecodeSlot(field, wireType, s, slot);
            r.Some? ==> DecodeSlot(field, wireType, s + x, slot) == Some((r.value.0, r.value.1 + x))
  {
    hide DecodeValue, DecodeFresh, DecodePacked, TakeDelimited;
    DelimitedIsLocal(s, x);
    FreshIsLocal(field.kind, s, x);
    if !field.rule.Repeated? { ValueIsLocal(field.kind, s, x, slot.items[0]); }
  }

  lemma SkipFieldIsLocal(wireType: nat, s: Bytes, x: Bytes)
    ensures var r := SkipField(wireType, s); r.Some? ==> SkipField(wireType, s + x) == Some(r.value + x)
  {
    hide TakeDelimited, SkipVarint;
    SkipIsLocal(s, x);
    DelimitedIsLocal(s, x);
    if |s| >= 8 { assert (s + x)[8..] == s[8..] + x; }
    if |s| >= 4 { assert (s + x)[4..] == s[4..] + x; }
  }

  lemma StepIsLocal(fields: seq<Field>, tag: nat, wireType: nat, s: Bytes, x: Bytes, p: Progress)
    requires ShapedProgress(fields, p)
    ensures var r := DecodeStep(fields, tag, wireType, s, p);
            r.Some? ==> DecodeStep(fields, tag, wireType, s + x, p) == Some((r.value.0, r.value.1 + x))
  {
    hide DecodeSlot, SkipField, FindFrom, Shaped, Store;
    SkipFieldIsLocal(wireType, s, x);
    if |fields| > 0 && FindFrom(fields, p.pos, 0, tag).Some? {
      var i := FindFrom(fields, p.pos, 0, tag).value;
      SlotAt(fields, p, i);
      SlotIsLocal(fields[i], wireType, s, x, p.slots[i]);
    }
  }

  lemma SlotAt(fields: seq<Field>, p: Progress, i: nat)
    requires ShapedProgress(fields, p) && i < |fields|
    ensures |p.slots| == |fields| && ShapedSlot(fields[i], p.slots[i])
  {
  }

  // ---------------------------------------------------------------- reading field by field

  /** From p on, all of s is read, as whole fields, and leads to q. */
  ghost predicate ReadsTo(fields: seq<Field>, s: Bytes, p: Progress, q: Progress)
    requires ShapedProgress(fields, p)
    decreases |s|
  {
    if |s| == 0 then q == p
    else
      match DecodeVarint32(s)
      case None => false
      case Some((t, rest)) =>
        t != 0 &&
        match DecodeStep(fields, t / 8, t % 8, rest, p)
        case None => false
        case Some((p', left)) => ReadsTo(fields, left, p', q)
  }

  lemma {:induction false} ReadOn(fields: seq<Field>, s: Bytes, x: Bytes, p: Progress, q: Progress)
    requires ShapedProgress(fields, p) && ReadsTo(fields, s, p, q)
    ensures ShapedProgress(fields, q) && DecodeTags(fields, s + x, p) == DecodeTags(fields, x, q)
    decreases |s|
  {
    hide DecodeStep, ShapedProgress, DecodeVarint32;
    if |s| == 0 {
      assert s + x == x;
    } else {
      Decode32IsLocal(s, x);
      var (t, rest) := DecodeVarint32(s).value;
      StepIsLocal(fields, t / 8, t % 8, rest, x, p);
      var (p', left) := DecodeStep(fields, t / 8, t % 8, rest, p).value;
      ReadOn(fields, left, x, p', q);
    }
  }

  lemma {:induction false} ReadsJoin(fields: seq<Field>, a: Bytes, b: Bytes, p: Progress, q: Progress, r: Progress)
    requires ShapedProgress(fields, p) && ReadsTo(fields, a, p, q)
    requires ShapedProgress(fields, q) && ReadsTo(fields, b, q, r)
    ensures ReadsTo(fields, a + b, p, r)
    decreases |a|
  {
    hide DecodeStep, ShapedProgress, DecodeVarint32;
    if |a| == 0 {
      assert a + b == b;
    } else {
      Decode32IsLocal(a, b);
      var (t, rest) := DecodeVarint32(a).value;
      StepIsLocal(fields, t / 8, t % 8, rest, b, p);
      var (p', left) := DecodeStep(fields, t / 8, t % 8, rest, p).value;
      ReadsJoin(fields, left, b, p', q, r);
    }
  }

  /** Where decoding starts. */
  function Start(fields: seq<Field>): (p: Progress)
    ensures ShapedProgress(fields, p)
  {
    DefaultsAreShaped(fields);
    Progress(Defaults(fields), 0, {})
  }

  lemma DecodeFromStart(fields: seq<Field>, s: Bytes)
    ensures Decode(fields, s) ==
              match DecodeTags(fields, s, Start(fields))
              case None => None
              case Some(p) => if AllRequiredSeen(fields, p.seen) then Some(p.slots) else None
  {
    hide DecodeTags, AllRequiredSeen;
  }

  /** What follows fields that have been read is all that matters of the rest. */
  lemma SameRest(fields: seq<Field>, a: Bytes, x: Bytes, y: Bytes, q: Progress)
    requires ReadsTo(fields, a, Start(fields), q)
    requires ShapedProgress(fields, q) ==> DecodeTags(fields, x, q) == DecodeTags(fields, y, q)
    ensures Decode(fields, a + x) == Decode(fields, a + y)
  {
    hide DecodeTags, AllRequiredSeen, ReadsTo, Start, Decode;
    ReadOn(fields, a, x, Start(fields), q);
    ReadOn(fields, a, y, Start(fields), q);
    DecodeFromStart(fields, a + x);
    DecodeFromStart(fields, a + y);
  }

  // ---------------------------------------------------------------- unknown fields

  lemma {:induction false} NotFound(fields: seq<Field>, start: nat, steps: nat, tag: nat)
    requires start < |fields| && steps <= |fields| && forall i :: 0 <= i < |fields| ==> fields[i].tag != tag
    ensures FindFrom(fields, start, steps, tag) == None
    decreases |fields| - steps
  {
    if steps < |fields| { NotFound(fields, start, steps + 1, tag); }
  }

  lemma DelimitedAnyway(payload: Bytes, body: Bytes, rest: Bytes)
    requires Delimits(payload, body) && |body| < TWO_TO_32
    ensures TakeDelimited(payload + rest) == Some((body, rest))
  {
    hide DecodeVarint32, DecodeVarint, SkipVarint, IsVarint, Number;
    var k :| 0 < k <= |payload| && IsVarint(payload[..k]) && Number(payload[..k]) == |body| && payload[k..] == body;
    SpellingIsRead(payload[..k], body + rest);
    assert payload + rest == payload[..k] + (body + rest);
    assert (body + rest)[..|body|] == body && (body + rest)[|body|..] == rest;
  }

  lemma PayloadIsSkipped(wireType: nat, payload: Bytes, rest: Bytes)
    requires IsPayload(wireType, payload) && |payload| < TWO_TO_32
    ensures SkipField(wireType, payload + rest) == Some(rest)
  {
    hide DecodeVarint32, DecodeVarint, SkipVarint, IsVarint, Number, Delimits, TakeDelimited;
    if wireType == 0 {
      SpellingIsRead(payload, rest);
    } else if wireType == 2 {
      var body :| Delimits(payload, body);
      DelimitedIsLonger(payload, body);
      DelimitedAnyway(payload, body, rest);
    } else {
      assert (payload + rest)[|payload|..] == rest;
    }
  }

  lemma DelimitedIsLonger(payload: Bytes, body: Bytes)
    requires Delimits(payload, body)
    ensures |body| < |payload|
  {
    hide IsVarint, Number;
  }

  /** The key of a record is read in any spelling, and the payload is left. */
  lemma KeyIsRead(p: Piece, s: Bytes, rest: Bytes)
    requires IsPiece(p, s) && 0 < p.tag < 0x2000_0000
    ensures var t := 8 * p.tag + p.wireType;
            DecodeVarint32(s + rest) == Some((t, p.payload + rest)) && t / 8 == p.tag && t % 8 == p.wireType
    ensures IsPayload(p.wireType, p.payload) && |p.payload| < |s| && p.wireType < 8
  {
    hide DecodeVarint32, DecodeVarint, SkipVarint, IsVarint, Number;
    var k :| 0 < k <= |s| && IsVarint(s[..k]) && Number(s[..k]) == 8 * p.tag + p.wireType && p.payload == s[k..] &&
      IsPayload(p.wireType, p.payload);
    assert p.wireType < 8;
    SpellingIsRead(s[..k], p.payload + rest);
    assert s + rest == s[..k] + (p.payload + rest);
  }

  /** A record of a field that the descriptor does not have is passed over, whatever its wire type. */
  lemma UnknownIsPassed(fields: seq<Field>, piece: Piece, s: Bytes, p: Progress)
    requires ShapedProgress(fields, p) && IsPiece(piece, s) && 0 < piece.tag < 0x2000_0000 && |s| < TWO_TO_32
    requires forall i :: 0 <= i < |fields| ==> fields[i].tag != piece.tag
    ensures ReadsTo(fields, s, p, p)
  {
    hide DecodeVarint32, SkipField, IsPiece, IsPayload, DecodeField;
    KeyIsRead(piece, s, []);
    assert s + [] == s && piece.payload + [] == piece.payload;
    PayloadIsSkipped(piece.wireType, piece.payload, []);
    if |fields| > 0 { NotFound(fields, p.pos, 0, piece.tag); }
    assert DecodeStep(fields, piece.tag, piece.wireType, piece.payload, p) == Some((p, []));
    assert ReadsTo(fields, [], p, p);
  }

  /** Between fields, such a record changes nothing of the message. */
  lemma UnknownFieldChangesNothing(fields: seq<Field>, a: Bytes, piece: Piece, s: Bytes, b: Bytes, q: Progress)
    requires ReadsTo(fields, a, Start(fields), q)
    requires IsPiece(piece, s) && 0 < piece.tag < 0x2000_0000 && |s| < TWO_TO_32
    requires forall i :: 0 <= i < |fields| ==> fields[i].tag != piece.tag
    ensures Decode(fields, a + s + b) == Decode(fields, a + b)
  {
    hide DecodeTags, ReadsTo, Start, Decode, IsPiece, ShapedProgress;
    if ShapedProgress(fields, q) {
      UnknownIsPassed(fields, piece, s, q);
      ReadOn(fields, s, b, q, q);
    }
    assert a + s + b == a + (s + b);
    SameRest(fields, a, s + b, b, q);
  }

  /** If half a number behind s is a failure, then no zero in s has ended the reading. */
  lemma {:induction false} ReadToTheEnd(fields: seq<Field>, s: Bytes, p: Progress)
    requires ShapedProgress(fields, p)
    requires DecodeTags(fields, s, p).Some? && DecodeTags(fields, s + [128], p) == None
    ensures ReadsTo(fields, s, p, DecodeTags(fields, s, p).value)
    decreases |s|
  {
    hide DecodeStep, ShapedProgress, DecodeVarint32;
    if |s| > 0 {
      Decode32IsLocal(s, [128]);
      var (t, rest) := DecodeVarint32(s).value;
      if t != 0 {
        StepIsLocal(fields, t / 8, t % 8, rest, [128], p);
        var (p', left) := DecodeStep(fields, t / 8, t % 8, rest, p).value;
        ReadToTheEnd(fields, left, p');
      }
    }
  }

  lemma HalfANumber(fields: seq<Field>, p: Progress)
    requires ShapedProgress(fields, p)
    ensures DecodeTags(fields, [128], p) == None
  {
    assert [128][1..] == [];
    assert DecodeVarint32([128]) == None;
  }

  lemma StartIs(fields: seq<Field>)
    ensures Start(fields) == Progress(Defaults(fields), 0, {})
  {
  }

  /** The fields of an encoding are read one by one. */
  lemma EncodingReadsTo(fields: seq<Field>, slots: seq<Slot>, n: nat) returns (q: Progress)
    requires WellFormed(fields) && TypedSlots(fields, slots) && ChosenSlots(fields, slots) && n <= |fields|
    requires EncodeFields(fields, slots, n).Some? && |EncodeFields(fields, slots, n).value| < TWO_TO_32
    requires StringsFitUpTo(fields, slots, n)
    ensures ReadsTo(fields, EncodeFields(fields, slots, n).value, Start(fields), q) && ReadUpTo(fields, slots, n, q)
  {
    hide ReadsTo, EncodeFields, WellFormed, ChosenSlots, StringsFitUpTo, Start;
    var s := EncodeFields(fields, slots, n).value;
    q := FieldsRead(fields, slots, n, []);
    var q' := FieldsRead(fields, slots, n, [128]);
    assert s + [] == s;
    StartIs(fields);
    HalfANumber(fields, q');
    ReadToTheEnd(fields, s, Start(fields));
  }

  /** So it is with a record put between the fields of an encoding. */
  lemma UnknownFieldInEncoding(fields: seq<Field>, slots: seq<Slot>, n: nat, piece: Piece, s: Bytes, b: Bytes)
    requires WellFormed(fields) && TypedSlots(fields, slots) && ChosenSlots(fields, slots) && n <= |fields|
    requires EncodeFields(fields, slots, n).Some? && |EncodeFields(fields, slots, n).value| < TWO_TO_32
    requires StringsFitUpTo(fields, slots, n)
    requires IsPiece(piece, s) && 0 < piece.tag < 0x2000_0000 && |s| < TWO_TO_32
    requires forall i :: 0 <= i < |fields| ==> fields[i].tag != piece.tag
    ensures Decode(fields, EncodeFields(fields, slots, n).value + s + b)
         == Decode(fields, EncodeFields(fields, slots, n).value + b)
  {
    hide ReadsTo, Start, Decode, IsPiece, EncodeFields, WellFormed, ChosenSlots, StringsFitUpTo;
    var q := EncodingReadsTo(fields, slots, n);
    UnknownFieldChangesNothing(fields, EncodeFields(fields, slots, n).value, piece, s, b, q);
  }

  /** An unknown field of four bytes, and then the one field there is. */
  lemma FourBytesAreSkipped()
    ensures Decode([Field(2, Required, UVarintKind(4))], [0x0d, 1, 0, 0, 0, 0x10, 7]) == Some([Slot(false, [Int(7)])])
  {
    var fields := [Field(2, Required, UVarintKind(4))];
    var unknown, known := [0x0d, 1, 0, 0, 0], [0x10, 7];
    assert IsVarint([0x0d]) && unknown[..1] == [0x0d] && unknown[1..] == [1, 0, 0, 0];
    assert Number([0x0d]) == 0x0d by { NoNumber(); assert [0x0d][1..] == []; }
    assert IsPiece(Piece(1, 5, [1, 0, 0, 0]), unknown);
    StartIs(fields);
    assert ReadsTo(fields, [], Start(fields), Start(fields));
    UnknownFieldChangesNothing(fields, [], Piece(1, 5, [1, 0, 0, 0]), unknown, known, Start(fields));
    assert [] + unknown + known == [0x0d, 1, 0, 0, 0, 0x10, 7] && [] + known == known;
    OnlyField();
  }

  lemma OnlyField()
    ensures Decode([Field(2, Required, UVarintKind(4))], [0x10, 7]) == Some([Slot(false, [Int(7)])])
  {
    var fields := [Field(2, Required, UVarintKind(4))];
    var s: Bytes, p := [0x10, 7], Start(fields);
    StartIs(fields);
    assert Defaults(fields) == [Slot(false, [Int(0)])];
    assert s[1..] == [7] && [7][1..] == [];
    assert DecodeVarint32(s) == Some((16, [7]));
    assert DecodeVarint([7]) == Some((7, [])) by { assert Pow2(0) == 1; }
    assert DecodeSlot(fields[0], 0, [7], p.slots[0]) == Some((Slot(false, [Int(7)]), []));
    assert RequiredBefore(fields, 0) == 0 && RequiredBefore(fields, 1) == 1;
    assert FindFrom(fields, 0, 0, 2) == Some(0);
    var q := Progress([Slot(false, [Int(7)])], 0, {0});
    assert Store(fields, p.slots, 0, Slot(false, [Int(7)])) == q.slots;
    assert {} + {0} == {0};
    assert DecodeStep(fields, 2, 0, [7], p) == Some((q, []));
    assert DecodeTags(fields, s, p) == DecodeTags(fields, [], q) == Some(q);
    DecodeFromStart(fields, s);
  }

  // ---------------------------------------------------------------- required fields

  /** The field numbers that are read on the way through s. */
  ghost function Keys(fields: seq<Field>, s: Bytes, p: Progress): seq<nat>
    requires ShapedProgress(fields, p)
    decreases |s|
  {
    match DecodeVarint32(s)
    case None => []
    case Some((t, rest)) =>
      if t == 0 then []
      else
        match DecodeStep(fields, t / 8, t % 8, rest, p)
        case None => []
        case Some((q, left)) => [t / 8] + Keys(fields, left, q)
  }

  /** How many of these fields are required. */
  function RequiredAmong(fields: seq<Field>): nat {
    if |fields| == 0 then 0 else (if fields[0].rule == Required then 1 else 0) + RequiredAmong(fields[1..])
  }

  lemma {:induction false} OneMoreAmong(fields: seq<Field>, f: Field)
    ensures RequiredAmong(fields + [f]) == RequiredAmong(fields) + if f.rule == Required then 1 else 0
  {
    if |fields| == 0 {
      assert [f][1..] == [];
    } else {
      assert (fields + [f])[1..] == fields[1..] + [f];
      OneMoreAmong(fields[1..], f);
    }
  }

  lemma {:induction false} AmongIsBefore(fields: seq<Field>, n: nat)
    requires n <= |fields|
    ensures RequiredAmong(fields[..n]) == RequiredBefore(fields, n)
  {
    if n == 0 {
    } else {
      AmongIsBefore(fields, n - 1);
      assert fields[..n] == fields[..n - 1] + [fields[n - 1]];
      OneMoreAmong(fields[..n - 1], fields[n - 1]);
    }
  }

  /** Field n is the k-th required one, and has been read. */
  ghost predicate IsSeen(fields: seq<Field>, keys: seq<nat>, k: nat) {
    exists n: nat :: n < |fields| && fields[n].rule == Required && RequiredBefore(fields, n) == k && k < 64 &&
      fields[n].tag in keys
  }

  lemma StepSees(fields: seq<Field>, tag: nat, wireType: nat, s: Bytes, p: Progress)
    requires WellFormed(fields) && ShapedProgress(fields, p) && DecodeStep(fields, tag, wireType, s, p).Some?
    ensures var q := DecodeStep(fields, tag, wireType, s, p).value.0;
            forall k: nat :: k in q.seen <==> k in p.seen || IsSeen(fields, [tag], k)
  {
    hide DecodeField, SkipField, FindFrom, RequiredBefore;
    if |fields| > 0 {
      var found := FindFrom(fields, p.pos, 0, tag);
      if found.None? {
        NotAmong(fields, p.pos, tag);
      } else {
        OnlyOne(fields, found.value, tag);
      }
    }
  }

  lemma OnlyOne(fields: seq<Field>, i: nat, tag: nat)
    requires WellFormed(fields) && i < |fields| && fields[i].tag == tag
    ensures forall n: nat :: n < |fields| && fields[n].tag == tag ==> n == i
  {
  }

  lemma NotAmong(fields: seq<Field>, start: nat, tag: nat)
    requires WellFormed(fields) && start < |fields| && FindFrom(fields, start, 0, tag) == None
    ensures forall n: nat :: n < |fields| ==> fields[n].tag != tag
  {
    forall n: nat | n < |fields| ensures fields[n].tag != tag {
      if fields[n].tag == tag { TagIsFound(fields, start, 0, n); }
    }
  }

  lemma SeenMore(fields: seq<Field>, tag: nat, keys: seq<nat>, k: nat)
    ensures IsSeen(fields, [tag] + keys, k) <==> IsSeen(fields, [tag], k) || IsSeen(fields, keys, k)
  {
    hide RequiredBefore;
    if n: nat :| n < |fields| && fields[n].rule == Required && RequiredBefore(fields, n) == k && k < 64 &&
                 fields[n].tag in [tag] + keys {
      assert fields[n].tag in [tag] || fields[n].tag in keys;
    }
    if n: nat :| n < |fields| && fields[n].rule == Required && RequiredBefore(fields, n) == k && k < 64 &&
                 fields[n].tag in [tag] {
      assert fields[n].tag in [tag] + keys;
    }
    if n: nat :| n < |fields| && fields[n].rule == Required && RequiredBefore(fields, n) == k && k < 64 &&
                 fields[n].tag in keys {
      assert fields[n].tag in [tag] + keys;
    }
  }

  lemma {:induction false} ReadingSees(fields: seq<Field>, s: Bytes, p: Progress)
    requires WellFormed(fields) && ShapedProgress(fields, p) && DecodeTags(fields, s, p).Some?
    ensures forall k: nat ::
      k in DecodeTags(fields, s, p).value.seen <==> k in p.seen || IsSeen(fields, Keys(fields, s, p), k)
    decreases |s|
  {
    hide DecodeStep, ShapedProgress, DecodeVarint32, WellFormed, IsSeen;
    NothingSeen(fields);
    if |s| == 0 {
      NoKeyInNothing();
    } else {
      var (t, rest) := DecodeVarint32(s).value;
      if t != 0 {
        StepSees(fields, t / 8, t % 8, rest, p);
        var (q, left) := DecodeStep(fields, t / 8, t % 8, rest, p).value;
        ReadingSees(fields, left, q);
        forall k: nat { SeenMore(fields, t / 8, Keys(fields, left, q), k); }
      }
    }
  }

  lemma NoKeyInNothing()
    ensures DecodeVarint32([]) == None
  {
  }

  lemma NothingSeen(fields: seq<Field>)
    ensures forall k: nat :: !IsSeen(fields, [], k)
  {
  }

  lemma {:induction false} RequiredAscend(fields: seq<Field>, m: nat, n: nat)
    requires m <= n <= |fields|
    ensures RequiredBefore(fields, m) <= RequiredBefore(fields, n)
    ensures m < n && fields[m].rule == Required ==> RequiredBefore(fields, m) < RequiredBefore(fields, n)
  {
    if m == n {
    } else {
      RequiredAscend(fields, m, n - 1);
    }
  }

  lemma {:induction false} KthRequired(fields: seq<Field>, n: nat, k: nat) returns (m: nat)
    requires n <= |fields| && k < RequiredBefore(fields, n)
    ensures m < n && fields[m].rule == Required && RequiredBefore(fields, m) == k
  {
    if fields[n - 1].rule == Required && RequiredBefore(fields, n - 1) == k {
      m := n - 1;
    } else {
      m := KthRequired(fields, n - 1, k);
    }
  }

  /** A message whose fields can be read is accepted if and only if all its required fields are there; of more than 64
      of them, the first 64. */
  lemma AcceptedExactlyWhen(fields: seq<Field>, s: Bytes)
    requires WellFormed(fields) && DecodeTags(fields, s, Start(fields)).Some?
    ensures Decode(fields, s).Some? <==>
              forall n: nat :: n < |fields| && fields[n].rule == Required && RequiredAmong(fields[..n]) < 64 ==>
                fields[n].tag in Keys(fields, s, Start(fields))
  {
    hide DecodeTags, Keys, WellFormed, RequiredBefore, Start, RequiredAmong, Decode;
    DecodeFromStart(fields, s);
    ReadingSees(fields, s, Start(fields));
    StartIs(fields);
    var keys, seen := Keys(fields, s, Start(fields)), DecodeTags(fields, s, Start(fields)).value.seen;
    forall n: nat | n < |fields| ensures RequiredAmong(fields[..n]) == RequiredBefore(fields, n) {
      AmongIsBefore(fields, n);
    }
    if AllRequiredSeen(fields, seen) {
      forall n: nat | n < |fields| && fields[n].rule == Required && RequiredAmong(fields[..n]) < 64
        ensures fields[n].tag in keys
      {
        RequiredAscend(fields, n, |fields|);
        assert IsSeen(fields, keys, RequiredBefore(fields, n));
        OnlyThatOne(fields, keys, n);
      }
    }
    if forall n: nat :: n < |fields| && fields[n].rule == Required && RequiredAmong(fields[..n]) < 64 ==>
         fields[n].tag in keys {
      forall k: nat | k < RequiredBefore(fields, |fields|) && k < MAX_REQUIRED_FIELDS ensures k in seen {
        var m := KthRequired(fields, |fields|, k);
        assert IsSeen(fields, keys, k);
      }
    }
  }

  lemma OnlyThatOne(fields: seq<Field>, keys: seq<nat>, n: nat)
    requires n < |fields| && fields[n].rule == Required && IsSeen(fields, keys, RequiredBefore(fields, n))
    ensures fields[n].tag in keys
  {
    hide RequiredBefore;
    var m: nat :| m < |fields| && fields[m].rule == Required &&
      RequiredBefore(fields, m) == RequiredBefore(fields, n) &&
                  fields[m].tag in keys;
    if m < n { RequiredAscend(fields, m, n); }
    if n < m { RequiredAscend(fields, n, m); }
  }

  // ---------------------------------------------------------------- a field that comes twice

  /** Members of the same oneof. */
  predicate Siblings(a: Field, b: Field) { a.rule.Oneof? && b.rule.Oneof? && a.rule.group == b.rule.group }

  lemma StepLeaves(fields: seq<Field>, tag: nat, wireType: nat, s: Bytes, p: Progress, n: nat)
    requires ShapedProgress(fields, p) && n < |fields| && DecodeStep(fields, tag, wireType, s, p).Some?
    requires fields[n].tag != tag &&
             forall i :: 0 <= i < |fields| && Siblings(fields[i], fields[n]) ==> fields[i].tag != tag
    ensures DecodeStep(fields, tag, wireType, s, p).value.0.slots[n] == p.slots[n]
  {
    hide SkipField, RequiredBefore, DecodeSlot;
  }

  /** A field that is not read, and no member of its oneof either, stays as it is. */
  lemma {:induction false} UnreadStays(fields: seq<Field>, s: Bytes, p: Progress, n: nat)
    requires ShapedProgress(fields, p) && n < |fields| && DecodeTags(fields, s, p).Some?
    requires fields[n].tag !in Keys(fields, s, p)
    requires forall i :: 0 <= i < |fields| && Siblings(fields[i], fields[n]) ==> fields[i].tag !in Keys(fields, s, p)
    ensures DecodeTags(fields, s, p).value.slots[n] == p.slots[n]
    decreases |s|
  {
    hide DecodeStep, DecodeVarint32, Siblings;
    if |s| > 0 {
      var (t, rest) := DecodeVarint32(s).value;
      if t != 0 {
        var (q, left) := DecodeStep(fields, t / 8, t % 8, rest, p).value;
        assert t / 8 in Keys(fields, s, p);
        StepLeaves(fields, t / 8, t % 8, rest, p, n);
        UnreadStays(fields, left, q, n);
      }
    }
  }

  /** A scalar is read from every payload that means it. */
  lemma ScalarIsRead(kind: Kind, payload: Bytes, v: Value, rest: Bytes, cur: Value)
    requires IsScalar(kind) && Typed(kind, v) && IsPayload(WireTypeNumber(kind), payload) && Means(kind, payload, v)
    ensures ShapedValue(kind, cur) && DecodeValue(kind, payload + rest, cur) == Some((v, rest))
  {
    hide DecodeValue, ReadVarint, IsVarint, Delimits, Number, Word;
    match kind
    case VarintKind(_) => SignedIsRead(kind, payload, v, rest, cur);
    case UVarintKind(_) => UnsignedIsRead(kind, payload, v, rest, cur);
    case SVarintKind(_) => ZigZaggedIsRead(kind, payload, v, rest, cur);
    case Fixed32Kind => FixedIsRead(kind, payload, v, rest, cur);
    case Fixed64Kind => FixedIsRead(kind, payload, v, rest, cur);
  }

  lemma SignedIsRead(kind: Kind, payload: Bytes, v: Value, rest: Bytes, cur: Value)
    requires kind.VarintKind? && Typed(kind, v) && IsVarint(payload) && Means(kind, payload, v)
    ensures ShapedValue(kind, cur) && DecodeValue(kind, payload + rest, cur) == Some((v, rest))
  {
    hide ReadVarint, Number;
    SignIsKept(v.i);
    UnsignedIs(v.i);
    SpellingIsRead(payload, rest);
  }

  lemma UnsignedIsRead(kind: Kind, payload: Bytes, v: Value, rest: Bytes, cur: Value)
    requires kind.UVarintKind? && Typed(kind, v) && IsVarint(payload) && Means(kind, payload, v)
    ensures ShapedValue(kind, cur) && DecodeValue(kind, payload + rest, cur) == Some((v, rest))
  {
    hide ReadVarint, Number;
    SpellingIsRead(payload, rest);
  }

  lemma ZigZaggedIsRead(kind: Kind, payload: Bytes, v: Value, rest: Bytes, cur: Value)
    requires kind.SVarintKind? && Typed(kind, v) && IsVarint(payload) && Means(kind, payload, v)
    ensures ShapedValue(kind, cur) && DecodeValue(kind, payload + rest, cur) == Some((v, rest))
  {
    hide ReadVarint, Number;
    ZigZagIsUndone(v.i);
    ZigZagIs(v.i);
    SpellingIsRead(payload, rest);
  }

  lemma FixedIsRead(kind: Kind, payload: Bytes, v: Value, rest: Bytes, cur: Value)
    requires (kind.Fixed32Kind? || kind.Fixed64Kind?) && Typed(kind, v) && Means(kind, payload, v)
    requires |payload| == if kind.Fixed32Kind? then 4 else 8
    ensures ShapedValue(kind, cur) && DecodeValue(kind, payload + rest, cur) == Some((v, rest))
  {
    hide Word, FromLittle;
    FourOrEight(payload, rest);
  }

  lemma FourOrEight(payload: Bytes, rest: Bytes)
    ensures Take(payload + rest, |payload|) == Some((payload, rest)) && FromLittle(payload) == Word(payload)
  {
    WordIsFromLittle(payload);
    assert (payload + rest)[..|payload|] == payload && (payload + rest)[|payload|..] == rest;
  }

  lemma {:induction false} WordIsFromLittle(s: Bytes)
    ensures FromLittle(s) == Word(s)
  {
    if |s| == 0 {
    } else {
      WordIsFromLittle(s[1..]);
    }
  }

  /** What field n holds when it has just been read as v: only that, and its oneof names it and nothing else. */
  ghost predicate Holds(fields: seq<Field>, slots: seq<Slot>, n: nat, v: Value) {
    n < |fields| == |slots| && slots[n].items == [v] &&
    (fields[n].rule.Optional? ==> slots[n].has) &&
    (fields[n].rule.Oneof? ==>
       slots[n].has && forall i :: 0 <= i < |fields| && i != n && Siblings(fields[i], fields[n]) ==> !slots[i].has)
  }

  /** One occurrence of a scalar field, over whatever the message holds. */
  lemma OccurrenceIsRead(fields: seq<Field>, n: nat, piece: Piece, s: Bytes, v: Value, p: Progress)
    returns (q: Progress)
    requires WellFormed(fields) && ShapedProgress(fields, p) && n < |fields| && !fields[n].rule.Repeated?
    requires IsScalar(fields[n].kind) && Typed(fields[n].kind, v) && IsPiece(piece, s) && piece.tag == fields[n].tag
    requires piece.wireType == WireTypeNumber(fields[n].kind) && Means(fields[n].kind, piece.payload, v)
    ensures ReadsTo(fields, s, p, q) && ShapedProgress(fields, q) && Holds(fields, q.slots, n, v)
  {
    hide DecodeVarint32, SkipField, IsPiece, IsPayload, Means, DecodeValue, Typed;
    assert WellFormedField(fields[n]);
    KeyIsRead(piece, s, []);
    assert s + [] == s && piece.payload + [] == piece.payload;
    var slot := SlotIsTaken(fields[n], piece.payload, v, p.slots[n]);
    StepIsHandled(fields, n, piece.wireType, piece.payload, p);
    q := Handled(fields, n, slot, p);
    HandledHolds(fields, n, slot, p, v);
    assert ReadsTo(fields, [], q, q);
  }

  lemma SlotIsTaken(field: Field, payload: Bytes, v: Value, cur: Slot) returns (slot: Slot)
    requires ShapedSlot(field, cur) && IsScalar(field.kind) && !field.rule.Repeated? && Typed(field.kind, v)
    requires IsPayload(WireTypeNumber(field.kind), payload) && Means(field.kind, payload, v)
    ensures ShapedSlot(field, slot) && DecodeSlot(field, WireTypeNumber(field.kind), payload, cur) == Some((slot, []))
    ensures slot.items == [v] && (field.rule.Optional? || field.rule.Oneof? ==> slot.has)
  {
    hide DecodeValue, IsPayload, Means;
    ScalarIsRead(field.kind, payload, v, [], cur.items[0]);
    DefaultIsShaped(field.kind);
    ScalarIsRead(field.kind, payload, v, [], DefaultValue(field.kind));
    assert payload + [] == payload;
    assert DecodeValue(field.kind, payload, cur.items[0]) == Some((v, []));
    assert DecodeFresh(field.kind, payload) == Some((v, []));
    slot := DecodeSlot(field, WireTypeNumber(field.kind), payload, cur).value.0;
  }

  lemma HandledHolds(fields: seq<Field>, n: nat, slot: Slot, p: Progress, v: Value)
    requires n < |fields| && ShapedProgress(fields, p) && ShapedSlot(fields[n], slot) && slot.items == [v]
    requires fields[n].rule.Optional? || fields[n].rule.Oneof? ==> slot.has
    ensures Holds(fields, Handled(fields, n, slot, p).slots, n, v)
  {
    hide ShapedSlot, RequiredBefore;
    assert |p.slots| == |fields|;
    forall i | 0 <= i < |fields| && i != n && Siblings(fields[i], fields[n]) ensures SameOneof(fields[n], fields[i]) {
      assert fields[i].rule == Oneof(fields[i].rule.group) && fields[n].rule == Oneof(fields[n].rule.group);
    }
  }

  /** Whatever came before, and whatever other fields come behind: the last occurrence of a scalar is what counts. */
  lemma LastOccurrenceWins(fields: seq<Field>, n: nat, a: Bytes, piece: Piece, s: Bytes, v: Value, c: Bytes,
                           p: Progress)
    returns (q: Progress)
    requires WellFormed(fields) && ReadsTo(fields, a, Start(fields), p) && ShapedProgress(fields, p)
    requires n < |fields| && !fields[n].rule.Repeated? && IsScalar(fields[n].kind) && Typed(fields[n].kind, v)
    requires IsPiece(piece, s) && piece.tag == fields[n].tag && piece.wireType == WireTypeNumber(fields[n].kind)
    requires Means(fields[n].kind, piece.payload, v)
    ensures ReadsTo(fields, a + s, Start(fields), q) && ShapedProgress(fields, q)
    ensures Decode(fields, a + s + c).Some? &&
            (forall i :: 0 <= i < |fields| && (i == n || Siblings(fields[i], fields[n])) ==>
               fields[i].tag !in Keys(fields, c, q)) ==>
              Holds(fields, Decode(fields, a + s + c).value, n, v)
  {
    hide DecodeTags, ReadsTo, Start, Decode, IsPiece, Keys, WellFormed, Means, Typed;
    q := OccurrenceIsRead(fields, n, piece, s, v, p);
    ReadsJoin(fields, a, s, Start(fields), p, q);
    ReadOn(fields, a + s, c, Start(fields), q);
    DecodeFromStart(fields, a + s + c);
    if Decode(fields, a + s + c).Some? &&
       forall i :: 0 <= i < |fields| && (i == n || Siblings(fields[i], fields[n])) ==>
         fields[i].tag !in Keys(fields, c, q)
    {
      forall i | 0 <= i < |fields| && (i == n || Siblings(fields[i], fields[n]))
        ensures DecodeTags(fields, c, q).value.slots[i] == q.slots[i]
      {
        UnreadStays(fields, c, q, i);
      }
      StaysHeld(fields, q, DecodeTags(fields, c, q).value, n, v);
    }
  }

  lemma StaysHeld(fields: seq<Field>, q: Progress, r: Progress, n: nat, v: Value)
    requires ShapedProgress(fields, q) && ShapedProgress(fields, r) && Holds(fields, q.slots, n, v)
    requires forall i :: 0 <= i < |fields| && (i == n || Siblings(fields[i], fields[n])) ==> r.slots[i] == q.slots[i]
    ensures Holds(fields, r.slots, n, v)
  {
  }

  // ---------------------------------------------------------------- what ends or spoils a message

  /** A zero in place of a key ends the message, whatever follows. */
  lemma ZeroEndsMessage(fields: seq<Field>, a: Bytes, x: Bytes, q: Progress)
    requires ReadsTo(fields, a, Start(fields), q)
    ensures Decode(fields, a + ([0] + x)) == Decode(fields, a)
  {
    hide ReadsTo, Start, Decode;
    if ShapedProgress(fields, q) { ZeroEnds(fields, x, q); }
    SameRest(fields, a, [0] + x, [], q);
    assert a + [] == a;
  }

  lemma ZeroEnds(fields: seq<Field>, x: Bytes, q: Progress)
    requires ShapedProgress(fields, q)
    ensures DecodeTags(fields, [0] + x, q) == DecodeTags(fields, [], q)
  {
    assert DecodeVarint32([0] + x) == Some((0, x)) by { assert ([0] + x)[1..] == x; }
  }

  /** Numbers are checked against the size of their C field, or cut down to 32 bits and then checked. */
  lemma RangeIsChecked(size: nat, payload: Bytes, rest: Bytes)
    requires IsVarint(payload) && Number(payload) < TWO_TO_64 && (size == 1 || size == 2 || size == 4 || size == 8)
    ensures var u := Number(payload);
            var most := if size == 1 then 255 else if size == 2 then 65_535 else if size == 4 then 4_294_967_295
                        else 18_446_744_073_709_551_615;
            DecodeFresh(UVarintKind(size), payload + rest) == if u <= most then Some((Int(u), rest)) else None
    ensures var u := Number(payload);
            var i := if u % 2 == 0 then u / 2 else -(u + 1) / 2;
            var most := if size == 1 then 127 else if size == 2 then 32_767 else if size == 4 then 2_147_483_647
                        else 9_223_372_036_854_775_807;
            DecodeFresh(SVarintKind(size), payload + rest) == if -most - 1 <= i <= most then Some((Int(i), rest))
              else None
    ensures var u := Number(payload);
            var low := u % 4_294_967_296;
            var i := if size == 8 then (if u < 9_223_372_036_854_775_808 then u else u - 18_446_744_073_709_551_616)
                     else if low < 2_147_483_648 then low else low - 4_294_967_296;
            var most := if size == 1 then 127 else if size == 2 then 32_767 else if size == 4 then 2_147_483_647
                        else 9_223_372_036_854_775_807;
            DecodeFresh(VarintKind(size), payload + rest) == if -most - 1 <= i <= most then Some((Int(i), rest))
              else None
  {
    hide ReadVarint, Number;
    SpellingIsRead(payload, rest);
    UnZigZagIs(Number(payload));
  }

  lemma UnZigZagIs(u: nat)
    requires u < TWO_TO_64
    ensures UnZigZag(u) == if u % 2 == 0 then u / 2 else -(u + 1) / 2
  {
  }

  /** t is what the string body is up to its first zero. */
  ghost predicate IsCString(t: Bytes, body: Bytes) {
    t <= body && (forall i :: 0 <= i < |t| ==> t[i] != 0) && (|t| < |body| ==> body[|t|] == 0)
  }

  lemma {:induction false} CStringIs(body: Bytes)
    ensures IsCString(CString(body), body)
  {
    if |body| == 0 || body[0] == 0 {
    } else {
      CStringIs(body[1..]);
      assert body == [body[0]] + body[1..];
    }
  }

  /** Bytes must not be more than the field has room for. */
  lemma BytesAreBounded(room: nat, payload: Bytes, body: Bytes, rest: Bytes)
    requires Delimits(payload, body) && |body| < TWO_TO_32
    ensures DecodeFresh(BytesKind(room), payload + rest) == if |body| <= room then Some((Raw(body), rest)) else None
  {
    hide Delimits, TakeDelimited;
    DelimitedAnyway(payload, body, rest);
  }

  /** Strings must leave room for a terminator. */
  lemma StringsLeaveRoom(room: nat, payload: Bytes, body: Bytes, rest: Bytes)
    requires Delimits(payload, body) && |body| < TWO_TO_32
    ensures var r := DecodeFresh(StringKind(room), payload + rest);
            if |body| < room then r.Some? && r.value.0.Raw? && IsCString(r.value.0.bytes, body) && r.value.1 == rest
            else r == None
  {
    hide Delimits, TakeDelimited, CString, IsCString;
    DelimitedAnyway(payload, body, rest);
    CStringIs(body);
  }

  /** Bytes of a fixed length have that length, or are none, which stands for zeros. */
  lemma FixedLengthIsChecked(size: nat, payload: Bytes, body: Bytes, rest: Bytes)
    requires Delimits(payload, body) && |body| < TWO_TO_32
    ensures var r := DecodeFresh(FixedLengthBytesKind(size), payload + rest);
            if |body| == 0 then
              r.Some? && r.value.0.Raw? && |r.value.0.bytes| == size && r.value.1 == rest &&
              forall i :: 0 <= i < size ==> r.value.0.bytes[i] == 0
            else r == if |body| == size then Some((Raw(body), rest)) else None
  {
    hide Delimits, TakeDelimited;
    DelimitedAnyway(payload, body, rest);
  }

  /** More than ten groups are too many for a number. */
  lemma ManyGroupsFail(s: Bytes)
    requires |s| >= 10 && forall i :: 0 <= i < 10 ==> s[i] >= 128
    ensures DecodeVarint(s) == None
  {
    hide ReadVarint;
    GroupsGoOn(s, 0, 0, 10);
  }

  lemma {:induction false} GroupsGoOn(s: Bytes, acc: nat, bitpos: nat, n: nat)
    requires |s| >= n && bitpos + 7 * n >= 64 && forall i :: 0 <= i < n ==> s[i] >= 128
    ensures ReadVarint(s, acc, bitpos) == None
    decreases n
  {
    hide Pow2;
    if bitpos >= 64 {
    } else {
      assert forall i :: 0 <= i < n - 1 ==> s[1..][i] == s[i + 1];
      NonNegative(s[0] % 128, Pow2(bitpos));
      GroupsGoOn(s[1..], (acc + (s[0] % 128) * Pow2(bitpos)) % TWO_TO_64, bitpos + 7, n - 1);
    }
  }

  /** Of a length or a key, no bit from the thirty-sixth on may be set, unless the low 32 bits are those of a negative
      number. */
  lemma {:induction false} HighBitsFail(q: Bytes, rest: Bytes, result: nat, bitpos: nat)
    requires IsGroups(q) && Number(q) > 0 && result < TWO_TO_31 && 32 <= bitpos && bitpos + 7 * |q| < 256
    ensures ReadVarint32(q + rest, result, bitpos) == None
    decreases |q|
  {
    NextGroups(q, rest);
    NoNumber();
    assert |q| == 1 ==> q[1..] == [];
    if q[0] % 128 == 0 { HighBitsFail(q[1..], rest, result, bitpos + 7); }
  }

  /** An array that is full takes no further element. */
  lemma FullArrayFails(fields: seq<Field>, n: nat, a: Bytes, piece: Piece, s: Bytes, c: Bytes, p: Progress)
    requires WellFormed(fields) && ReadsTo(fields, a, Start(fields), p) && ShapedProgress(fields, p) && n < |fields|
    requires fields[n].rule.Repeated? && |p.slots[n].items| >= fields[n].rule.max
    requires IsPiece(piece, s) && piece.tag == fields[n].tag && (IsScalar(fields[n].kind) ==> piece.wireType != 2)
    ensures Decode(fields, a + (s + c)) == None
  {
    hide DecodeTags, ReadsTo, Start, Decode, IsPiece, DecodeVarint32;
    assert WellFormedField(fields[n]);
    KeyIsRead(piece, s, c);
    SameScalars(fields[n].kind);
    StepIsHandled(fields, n, piece.wireType, piece.payload + c, p);
    ReadOn(fields, a, s + c, Start(fields), p);
    StepFails(fields, s + c, 8 * piece.tag + piece.wireType, piece.payload + c, p);
    DecodeFromStart(fields, a + (s + c));
  }

  lemma StepFails(fields: seq<Field>, s: Bytes, t: nat, rest: Bytes, p: Progress)
    requires ShapedProgress(fields, p) && DecodeVarint32(s) == Some((t, rest)) && t != 0
    requires DecodeStep(fields, t / 8, t % 8, rest, p) == None
    ensures DecodeTags(fields, s, p) == None
  {
  }
}
