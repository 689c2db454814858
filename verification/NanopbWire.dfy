/** What the encoder's bytes are to a reader that knows only the wire format of the Protocol Buffers Encoding
    specification ("Message Structure", "Base 128 Varints", "Length-Delimited Records"), and none of the descriptors.
    The wire types are the numerals of the specification: 0 a varint, 1 eight bytes, 2 a length and that many bytes,
    5 four bytes. */
module NanopbWire {
  import opened InternalKeys
  import opened NanopbVarint
  import opened Varints
  import opened Numerals
  import opened NanopbMessage

  // ---------------------------------------------------------------- the grammar

  /** One record: field number, wire type, and the bytes behind the key. */
  datatype Piece = Piece(tag: nat, wireType: nat, payload: Bytes)

  /** A length and that many bytes. */
  ghost predicate Delimits(payload: Bytes, body: Bytes) {
    exists k :: 0 < k <= |payload| && IsVarint(payload[..k]) && Number(payload[..k]) == |body| && payload[k..] == body
  }

  ghost predicate IsPayload(wireType: nat, payload: Bytes) {
    if wireType == 0 then IsVarint(payload)
    else if wireType == 1 then |payload| == 8
    else if wireType == 2 then exists body :: Delimits(payload, body)
    else wireType == 5 && |payload| == 4
  }

  ghost predicate IsPiece(p: Piece, s: Bytes) {
    exists k :: 0 < k <= |s| && IsVarint(s[..k]) && Number(s[..k]) == 8 * p.tag + p.wireType && p.payload == s[k..] &&
      IsPayload(p.wireType, p.payload)
  }

  /** s is these records, one after the other. */
  ghost predicate Splits(s: Bytes, pieces: seq<Piece>) {
    if |pieces| == 0 then |s| == 0
    else exists k :: 0 <= k <= |s| && IsPiece(pieces[0], s[..k]) && Splits(s[k..], pieces[1..])
  }

  // ---------------------------------------------------------------- what a message sends

  predicate IsScalar(kind: Kind) {
    match kind
    case VarintKind(_) => true
    case UVarintKind(_) => true
    case SVarintKind(_) => true
    case Fixed32Kind => true
    case Fixed64Kind => true
    case _ => false
  }

  /** A required field is always sent; an optional one, or a member of a oneof, when it is there; a repeated one when it
      has elements; a singular one unless it is zero. */
  ghost predicate IsSent(field: Field, slot: Slot)
    requires TypedSlot(field, slot)
    decreases field, 1
  {
    match field.rule
    case Required => true
    case Optional => slot.has
    case Oneof(_) => slot.has
    case Repeated(_) => slot.items != []
    case Singular => !IsZero(field.kind, slot.items[0])
  }

  /** Zero, or empty, or a message of which nothing is sent. */
  ghost predicate IsZero(kind: Kind, v: Value)
    requires Typed(kind, v)
    decreases kind, 0
  {
    match kind
    case BytesKind(_) => v.bytes == []
    case StringKind(_) => v.bytes == []
    case FixedLengthBytesKind(size) => size == 0
    case SubmessageKind(fields) =>
      assert TypedSlots(fields, v.slots);
      !exists i :: 0 <= i < |fields| && IsSent(fields[i], v.slots[i])
    case _ => v.i == 0
  }

  function WireTypeNumber(kind: Kind): nat {
    match kind
    case VarintKind(_) => 0
    case UVarintKind(_) => 0
    case SVarintKind(_) => 0
    case Fixed64Kind => 1
    case Fixed32Kind => 5
    case _ => 2
  }

  /** The payload is this value. */
  ghost predicate Means(kind: Kind, payload: Bytes, v: Value)
    requires Typed(kind, v)
    decreases kind, 0
  {
    match kind
    case VarintKind(_) => Number(payload) == if v.i >= 0 then v.i else v.i + 18_446_744_073_709_551_616
    case UVarintKind(_) => Number(payload) == v.i
    case SVarintKind(_) => Number(payload) == if v.i >= 0 then 2 * v.i else -2 * v.i - 1
    case Fixed32Kind => |payload| == 4 && Word(payload) == v.i
    case Fixed64Kind => |payload| == 8 && Word(payload) == v.i
    case SubmessageKind(fields) =>
      exists body, pieces ::
        Delimits(payload, body) && Splits(body, pieces) && Sent(fields, v.slots, |fields|, pieces)
    case _ => Delimits(payload, v.bytes)
  }

  function Joined(parts: seq<Bytes>): Bytes {
    if |parts| == 0 then [] else Joined(parts[..|parts| - 1]) + parts[|parts| - 1]
  }

  /** The elements of a packed array, without their wire types. */
  ghost predicate IsPacked(kind: Kind, items: seq<Value>, body: Bytes)
    requires forall i :: 0 <= i < |items| ==> Typed(kind, items[i])
    decreases kind, 1
  {
    exists parts: seq<Bytes> :: |parts| == |items| && Joined(parts) == body &&
      forall i :: 0 <= i < |items| ==> Means(kind, parts[i], items[i])
  }

  ghost predicate SentItems(kind: Kind, items: seq<Value>, tag: nat, pieces: seq<Piece>)
    requires forall i :: 0 <= i < |items| ==> Typed(kind, items[i])
    decreases kind, 1
  {
    |pieces| == |items| &&
    forall i :: 0 <= i < |items| ==>
      pieces[i].tag == tag && pieces[i].wireType == WireTypeNumber(kind) && Means(kind, pieces[i].payload, items[i])
  }

  /** Nothing if the field is absent; scalar arrays as one record, other arrays as one for each element. */
  ghost predicate SentField(field: Field, slot: Slot, pieces: seq<Piece>)
    requires TypedSlot(field, slot)
    decreases field
  {
    if !IsSent(field, slot) then pieces == []
    else if field.rule.Repeated? && IsScalar(field.kind) then
      |pieces| == 1 && pieces[0].tag == field.tag && pieces[0].wireType == 2 &&
      exists body :: Delimits(pieces[0].payload, body) && IsPacked(field.kind, slot.items, body)
    else SentItems(field.kind, slot.items, field.tag, pieces)
  }

  /** The first n fields, in the order of the descriptor. */
  ghost predicate Sent(fields: seq<Field>, slots: seq<Slot>, n: nat, pieces: seq<Piece>)
    requires TypedSlots(fields, slots) && n <= |fields|
    decreases fields, n
  {
    if n == 0 then pieces == []
    else
      exists m :: 0 <= m <= |pieces| && Sent(fields, slots, n - 1, pieces[..m]) &&
        SentField(fields[n - 1], slots[n - 1], pieces[m..])
  }

  // ---------------------------------------------------------------- numbers

  lemma DelimitedDelimits(body: Bytes)
    requires |body| < TWO_TO_64
    ensures Delimits(Delimited(body), body) && IsPayload(2, Delimited(body))
  {
    VarintIsNumber(|body|);
    var k := |Varint(|body|)|;
    assert Delimited(body)[..k] == Varint(|body|) && Delimited(body)[k..] == body;
    assert Delimits(Delimited(body), body);
  }

  lemma ScalarMeans(kind: Kind, v: Value)
    requires IsScalar(kind) && Typed(kind, v)
    ensures EncodeValue(kind, v).Some? && IsPayload(WireTypeNumber(kind), EncodeValue(kind, v).value)
    ensures Means(kind, EncodeValue(kind, v).value, v)
  {
    hide Varint, Number, Word, Little;
    match kind
    case VarintKind(_) =>
      UnsignedIs(v.i);
      VarintIsNumber(ToUnsigned(v.i));
    case UVarintKind(_) => VarintIsNumber(v.i);
    case SVarintKind(_) =>
      ZigZagIs(v.i);
      VarintIsNumber(ZigZag(v.i));
    case Fixed32Kind =>
      WordSizes();
      LittleIsWord(v.i, 4);
    case Fixed64Kind =>
      WordSizes();
      LittleIsWord(v.i, 8);
  }

  lemma UnsignedIs(n: int)
    requires -TWO_TO_63 <= n < TWO_TO_63
    ensures ToUnsigned(n) == (if n >= 0 then n else n + 18_446_744_073_709_551_616) < TWO_TO_64
  {
  }

  lemma ZigZagIs(n: int)
    requires -TWO_TO_63 <= n < TWO_TO_63
    ensures ZigZag(n) == (if n >= 0 then 2 * n else -2 * n - 1) < TWO_TO_64
  {
    UnsignedIs(n);
    if n < 0 { assert (2 * n + 2 * TWO_TO_64) % TWO_TO_64 == 2 * n + TWO_TO_64; }
  }

  // ---------------------------------------------------------------- records

  lemma KeyAndPayload(tag: nat, wireType: nat, payload: Bytes)
    requires tag < 0x2000_0000 && wireType < 8 && IsPayload(wireType, payload)
    ensures IsPiece(Piece(tag, wireType, payload), Tag(wireType, tag) + payload)
  {
    hide IsPayload;
    VarintIsNumber(tag * 8 + wireType);
    var k := |Tag(wireType, tag)|;
    var s := Tag(wireType, tag) + payload;
    assert s[..k] == Tag(wireType, tag) && s[k..] == payload;
  }

  lemma OnePieceSplits(p: Piece, s: Bytes)
    requires IsPiece(p, s)
    ensures Splits(s, [p])
  {
    hide IsPiece;
    assert s[..|s|] == s && s[|s|..] == [] && [p][1..] == [];
    assert Splits(s[|s|..], [p][1..]);
  }

  lemma FirstPiece(s: Bytes, p: seq<Piece>) returns (k: nat)
    requires Splits(s, p) && |p| > 0
    ensures 0 < k <= |s| && IsPiece(p[0], s[..k]) && p[0].wireType < 8 && Splits(s[k..], p[1..])
  {
    k :| 0 <= k <= |s| && IsPiece(p[0], s[..k]) && Splits(s[k..], p[1..]);
  }

  lemma PieceInFront(p: Piece, a: Bytes, b: Bytes, q: seq<Piece>)
    requires IsPiece(p, a) && Splits(b, q)
    ensures Splits(a + b, [p] + q)
  {
    hide IsPiece;
    assert (a + b)[..|a|] == a && (a + b)[|a|..] == b && ([p] + q)[1..] == q;
  }

  lemma InThree<T>(a: seq<T>, k: nat, b: seq<T>)
    requires k <= |a|
    ensures a + b == a[..k] + (a[k..] + b)
  {
  }

  lemma {:induction false} SplitsJoin(a: Bytes, p: seq<Piece>, b: Bytes, q: seq<Piece>)
    requires Splits(a, p) && Splits(b, q)
    ensures Splits(a + b, p + q)
    decreases |p|
  {
    if |p| == 0 {
      assert a + b == b && p + q == q;
    } else {
      hide Splits, IsPiece;
      var k := FirstPiece(a, p);
      SplitsJoin(a[k..], p[1..], b, q);
      PieceInFront(p[0], a[..k], a[k..] + b, p[1..] + q);
      InThree(a, k, b);
      InThree(p, 1, q);
      assert p[..1] == [p[0]];
    }
  }

  lemma SamePayload(wireType: nat, s: Bytes, j: nat, k: nat)
    requires j <= |s| && k <= |s| && IsPayload(wireType, s[..j]) && IsPayload(wireType, s[..k])
    ensures j == k
  {
    if wireType == 0 {
      SameVarint(s, j, k);
    } else if wireType == 2 {
      var a, b :| Delimits(s[..j], a) && Delimits(s[..k], b);
      SameDelimited(s, j, k, a, b);
    }
  }

  lemma DelimitedAt(s: Bytes, j: nat, body: Bytes) returns (m: nat)
    requires j <= |s| && Delimits(s[..j], body)
    ensures 0 < m <= j && IsVarint(s[..m]) && Number(s[..m]) == |body| == j - m
  {
    hide IsVarint, Number;
    m :| 0 < m <= j && IsVarint(s[..j][..m]) && Number(s[..j][..m]) == |body| && s[..j][m..] == body;
    assert s[..j][..m] == s[..m];
  }

  lemma SameDelimited(s: Bytes, j: nat, k: nat, a: Bytes, b: Bytes)
    requires j <= |s| && k <= |s| && Delimits(s[..j], a) && Delimits(s[..k], b)
    ensures j == k
  {
    hide IsVarint, Number, Delimits;
    var m := DelimitedAt(s, j, a);
    var n := DelimitedAt(s, k, b);
    SameVarint(s, m, n);
  }

  lemma PieceAt(s: Bytes, j: nat, p: Piece) returns (m: nat)
    requires j <= |s| && IsPiece(p, s[..j])
    ensures 0 < m <= j && IsVarint(s[..m]) && Number(s[..m]) == 8 * p.tag + p.wireType
    ensures p.payload == s[m..][..j - m] && IsPayload(p.wireType, s[m..][..j - m])
  {
    hide IsVarint, IsPayload, Number;
    m :| 0 < m <= j && IsVarint(s[..j][..m]) && Number(s[..j][..m]) == 8 * p.tag + p.wireType &&
      p.payload == s[..j][m..] && IsPayload(p.wireType, p.payload);
    assert s[..j][..m] == s[..m] && s[..j][m..] == s[m..][..j - m];
  }

  lemma SamePiece(s: Bytes, j: nat, k: nat, p: Piece, q: Piece)
    requires j <= |s| && k <= |s| && IsPiece(p, s[..j]) && IsPiece(q, s[..k]) && p.wireType < 8 && q.wireType < 8
    ensures j == k && p == q
  {
    hide IsVarint, IsPayload, Number, IsPiece;
    var m := PieceAt(s, j, p);
    var n := PieceAt(s, k, q);
    SameVarint(s, m, n);
    SamePayload(p.wireType, s[m..], j - m, k - m);
  }

  /** There is only one way to read a sequence of records. */
  lemma {:induction false} SplitsOneWay(s: Bytes, p: seq<Piece>, q: seq<Piece>)
    requires Splits(s, p) && Splits(s, q)
    ensures p == q
    decreases |p|
  {
    hide IsPiece, Splits;
    if |p| == 0 || |q| == 0 {
      NoPieceIsEmpty(s, p);
      NoPieceIsEmpty(s, q);
    } else {
      var j := FirstPiece(s, p);
      var k := FirstPiece(s, q);
      SamePiece(s, j, k, p[0], q[0]);
      SplitsOneWay(s[j..], p[1..], q[1..]);
      assert p == [p[0]] + p[1..] && q == [q[0]] + q[1..];
    }
  }

  lemma NoPieceIsEmpty(s: Bytes, p: seq<Piece>)
    requires Splits(s, p)
    ensures |s| == 0 <==> |p| == 0
  {
    hide IsPiece;
    if |p| > 0 { var k := FirstPiece(s, p); }
  }

  // ---------------------------------------------------------------- every encoding is such records

  /** Field numbers leave room for the wire type in 32 bits, here and in all submessages. */
  ghost predicate TagsFit(fields: seq<Field>)
    decreases fields
  {
    forall i :: 0 <= i < |fields| ==> TagFits(fields[i])
  }

  ghost predicate TagFits(field: Field)
    decreases field
  {
    0 < field.tag < 0x2000_0000 && (field.kind.SubmessageKind? ==> TagsFit(field.kind.fields))
  }

  lemma {:induction false} ValueMeans(kind: Kind, v: Value)
    requires Typed(kind, v) && (kind.SubmessageKind? ==> TagsFit(kind.fields))
    requires EncodeValue(kind, v).Some? && |EncodeValue(kind, v).value| < TWO_TO_64
    ensures Means(kind, EncodeValue(kind, v).value, v)
    ensures IsPayload(WireTypeNumber(kind), EncodeValue(kind, v).value)
    decreases kind, 0
  {
    hide Splits, IsPiece, Delimits;
    if IsScalar(kind) {
      ScalarMeans(kind, v);
    } else if kind.SubmessageKind? {
      var body := EncodeFields(kind.fields, v.slots, |kind.fields|).value;
      var pieces := FieldsSplit(kind.fields, v.slots, |kind.fields|);
      DelimitedDelimits(body);
    } else {
      DelimitedDelimits(v.bytes);
    }
  }

  lemma {:induction false} ItemsSplit(field: Field, items: seq<Value>, n: nat) returns (pieces: seq<Piece>)
    requires n <= |items| && TagFits(field) && forall i :: 0 <= i < |items| ==> Typed(field.kind, items[i])
    requires var e := EncodeItems(field.kind, items, n, Tag(WireTypeNumber(field.kind), field.tag));
             e.Some? && |e.value| < TWO_TO_64
    ensures var e := EncodeItems(field.kind, items, n, Tag(WireTypeNumber(field.kind), field.tag));
            Splits(e.value, pieces) && SentItems(field.kind, items[..n], field.tag, pieces)
    decreases field, 0, n
  {
    hide Splits, IsPiece, IsPayload, Means, Tag;
    if n == 0 {
      pieces := [];
      NothingSplits();
    } else {
      var before := ItemsSplit(field, items, n - 1);
      var last := EncodeValue(field.kind, items[n - 1]).value;
      ValueMeans(field.kind, items[n - 1]);
      var p := Piece(field.tag, WireTypeNumber(field.kind), last);
      KeyAndPayload(p.tag, p.wireType, last);
      var tag := Tag(p.wireType, p.tag);
      OnePieceSplits(p, tag + last);
      SplitsJoin(EncodeItems(field.kind, items, n - 1, tag).value, before, tag + last, [p]);
      pieces := before + [p];
    }
  }

  lemma NothingSplits()
    ensures Splits([], [])
  {
  }

  lemma {:induction false} ItemsPacked(kind: Kind, items: seq<Value>, n: nat) returns (parts: seq<Bytes>)
    requires IsScalar(kind) && n <= |items| && forall i :: 0 <= i < |items| ==> Typed(kind, items[i])
    ensures EncodeItems(kind, items, n, []).Some? && |parts| == n &&
            Joined(parts) == EncodeItems(kind, items, n, []).value
    ensures forall i :: 0 <= i < n ==> Means(kind, parts[i], items[i])
  {
    hide Means, EncodeValue;
    if n == 0 {
      parts := [];
    } else {
      var before := ItemsPacked(kind, items, n - 1);
      ScalarMeans(kind, items[n - 1]);
      parts := before + [EncodeValue(kind, items[n - 1]).value];
      assert parts[..n - 1] == before;
      assert [] + EncodeValue(kind, items[n - 1]).value == EncodeValue(kind, items[n - 1]).value;
    }
  }

  lemma SameScalars(kind: Kind)
    ensures IsScalar(kind) <==> Packable(kind)
    ensures WireTypeNumber(kind) == WireType(kind)
  {
  }

  lemma {:induction false} SentIsPresent(field: Field, slot: Slot)
    requires TypedSlot(field, slot)
    ensures IsSent(field, slot) <==> Present(field, slot)
    ensures IsSent(field, slot) <==> !IsDefault(field, slot)
    decreases field, 1
  {
    if field.rule.Singular? { ZeroIsDefault(field.kind, slot.items[0]); }
  }

  lemma {:induction false} ZeroIsDefault(kind: Kind, v: Value)
    requires Typed(kind, v)
    ensures IsZero(kind, v) <==> IsDefaultValue(kind, v)
    decreases kind, 0
  {
    if kind.SubmessageKind? {
      var fields := kind.fields;
      assert TypedSlots(fields, v.slots);
      forall i | 0 <= i < |fields| ensures IsSent(fields[i], v.slots[i]) <==> !IsDefault(fields[i], v.slots[i]) {
        SentIsPresent(fields[i], v.slots[i]);
      }
    }
  }

  lemma {:induction false} FieldSplits(field: Field, slot: Slot) returns (pieces: seq<Piece>)
    requires TypedSlot(field, slot) && TagFits(field)
    requires EncodeField(field, slot).Some? && |EncodeField(field, slot).value| < TWO_TO_64
    ensures Splits(EncodeField(field, slot).value, pieces) && SentField(field, slot, pieces)
    decreases field, 1, 0
  {
    hide Splits, IsPiece, IsPayload, Means, Tag, Delimits, WireType;
    SameScalars(field.kind);
    NothingSplits();
    SentIsPresent(field, slot);
    if !Present(field, slot) {
      pieces := [];
    } else if field.rule.Repeated? && Packable(field.kind) {
      pieces := PackedSplits(field, slot);
    } else if field.rule.Repeated? {
      pieces := ItemsSplit(field, slot.items, |slot.items|);
      assert slot.items[..|slot.items|] == slot.items;
    } else {
      var value := EncodeValue(field.kind, slot.items[0]).value;
      ValueMeans(field.kind, slot.items[0]);
      var p := Piece(field.tag, WireTypeNumber(field.kind), value);
      KeyAndPayload(p.tag, p.wireType, value);
      OnePieceSplits(p, Tag(p.wireType, p.tag) + value);
      pieces := [p];
    }
  }

  lemma PackedSplits(field: Field, slot: Slot) returns (pieces: seq<Piece>)
    requires TypedSlot(field, slot) && TagFits(field) && field.rule.Repeated? && IsScalar(field.kind)
    requires Packable(field.kind) && |slot.items| > 0
    requires EncodeField(field, slot).Some? && |EncodeField(field, slot).value| < TWO_TO_64
    ensures Splits(EncodeField(field, slot).value, pieces) && SentField(field, slot, pieces)
  {
    hide Splits, IsPiece, IsPayload, Means, Tag, Delimits;
    var parts := ItemsPacked(field.kind, slot.items, |slot.items|);
    var body := EncodeItems(field.kind, slot.items, |slot.items|, []).value;
    DelimitedDelimits(body);
    var p := Piece(field.tag, 2, Delimited(body));
    KeyAndPayload(p.tag, 2, p.payload);
    OnePieceSplits(p, Tag(2, field.tag) + p.payload);
    assert IsPacked(field.kind, slot.items, body);
    pieces := [p];
  }

  lemma {:induction false} FieldsSplit(fields: seq<Field>, slots: seq<Slot>, n: nat) returns (pieces: seq<Piece>)
    requires TypedSlots(fields, slots) && TagsFit(fields) && n <= |fields|
    requires EncodeFields(fields, slots, n).Some? && |EncodeFields(fields, slots, n).value| < TWO_TO_64
    ensures Splits(EncodeFields(fields, slots, n).value, pieces) && Sent(fields, slots, n, pieces)
    decreases fields, 2, n
  {
    hide Splits, SentField, TypedSlot, EncodeField;
    if n == 0 {
      pieces := [];
      NothingSplits();
    } else {
      var before := FieldsSplit(fields, slots, n - 1);
      assert TagFits(fields[n - 1]) && TypedSlot(fields[n - 1], slots[n - 1]);
      var last := FieldSplits(fields[n - 1], slots[n - 1]);
      SplitsJoin(EncodeFields(fields, slots, n - 1).value, before, EncodeField(fields[n - 1], slots[n - 1]).value,
        last);
      pieces := before + last;
      assert pieces[..|before|] == before && pieces[|before|..] == last;
    }
  }

  /** Whatever is encoded, a reader without the descriptor finds the present fields in the order of the descriptor, each
      with the wire type of its kind and a payload that means its value. */
  lemma EncodingIsReadable(fields: seq<Field>, slots: seq<Slot>) returns (pieces: seq<Piece>)
    requires TypedSlots(fields, slots) && TagsFit(fields)
    requires EncodeMessage(fields, slots).Some? && |EncodeMessage(fields, slots).value| < TWO_TO_64
    ensures Splits(EncodeMessage(fields, slots).value, pieces) && Sent(fields, slots, |fields|, pieces)
  {
    pieces := FieldsSplit(fields, slots, |fields|);
  }

  // ---------------------------------------------------------------- what is refused

  /** More bytes than the field has room for, or somewhere in a submessage. */
  ghost predicate IsTooLong(kind: Kind, v: Value)
    requires Typed(kind, v)
    decreases kind
  {
    match kind
    case BytesKind(capacity) => |v.bytes| > capacity
    case SubmessageKind(fields) => SomeTooLong(fields, v.slots, |fields|)
    case _ => false
  }

  /** A field that is sent has too many elements, or one that is too long. */
  ghost predicate FieldTooLong(field: Field, slot: Slot)
    requires TypedSlot(field, slot)
    decreases field
  {
    IsSent(field, slot) &&
    ((field.rule.Repeated? && |slot.items| > field.rule.max) ||
     exists i :: 0 <= i < |slot.items| && IsTooLong(field.kind, slot.items[i]))
  }

  ghost predicate SomeTooLong(fields: seq<Field>, slots: seq<Slot>, n: nat)
    requires TypedSlots(fields, slots) && n <= |fields|
    decreases fields
  {
    exists i :: 0 <= i < n && FieldTooLong(fields[i], slots[i])
  }

  lemma {:induction false} ValueRefused(kind: Kind, v: Value)
    requires Typed(kind, v)
    ensures EncodeValue(kind, v).None? <==> IsTooLong(kind, v)
    decreases kind, 0
  {
    if kind.SubmessageKind? { FieldsRefused(kind.fields, v.slots, |kind.fields|); }
  }

  lemma {:induction false} ItemsRefused(field: Field, items: seq<Value>, n: nat, before: Bytes)
    requires n <= |items| && forall i :: 0 <= i < |items| ==> Typed(field.kind, items[i])
    ensures EncodeItems(field.kind, items, n, before).None? <==>
              exists i :: 0 <= i < n && IsTooLong(field.kind, items[i])
    decreases field, 0, n
  {
    hide EncodeValue, IsTooLong;
    if n == 0 {
    } else {
      ItemsRefused(field, items, n - 1, before);
      ValueRefused(field.kind, items[n - 1]);
    }
  }

  lemma {:induction false} FieldRefused(field: Field, slot: Slot)
    requires TypedSlot(field, slot)
    ensures EncodeField(field, slot).None? <==> FieldTooLong(field, slot)
    decreases field, 1, 0
  {
    hide EncodeValue, EncodeItems, Typed;
    SentIsPresent(field, slot);
    if field.rule.Repeated? && |slot.items| > 0 {
      ItemsRefused(field, slot.items, |slot.items|, if Packable(field.kind) then []
        else Tag(WireType(field.kind), field.tag));
    } else if !field.rule.Repeated? {
      ValueRefused(field.kind, slot.items[0]);
    }
  }

  lemma {:induction false} FieldsRefused(fields: seq<Field>, slots: seq<Slot>, n: nat)
    requires TypedSlots(fields, slots) && n <= |fields|
    ensures EncodeFields(fields, slots, n).None? <==> SomeTooLong(fields, slots, n)
    decreases fields, 2, n
  {
    hide EncodeField, FieldTooLong;
    if n == 0 {
    } else {
      FieldsRefused(fields, slots, n - 1);
      FieldRefused(fields[n - 1], slots[n - 1]);
    }
  }

  /** A message cannot be encoded if and only if something that would be sent has outgrown its field. */
  lemma RefusedExactlyWhen(fields: seq<Field>, slots: seq<Slot>)
    requires TypedSlots(fields, slots)
    ensures EncodeMessage(fields, slots).None? <==> SomeTooLong(fields, slots, |fields|)
  {
    FieldsRefused(fields, slots, |fields|);
  }
}
