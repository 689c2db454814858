/** Decoding what was encoded gives the message back, up to the contents of absent fields. */
module NanopbRoundTrip {
  import opened InternalKeys
  import opened NanopbVarint
  import opened Varints
  import opened NanopbMessage
  import opened NanopbDecode

  // ---------------------------------------------------------------- when the round trip is promised

  /** Distinct, nonzero tags that leave room for the wire type in 32 bits. */
  ghost predicate WellFormed(fields: seq<Field>)
    decreases fields
  {
    (forall i, j :: 0 <= i < j < |fields| ==> fields[i].tag != fields[j].tag) &&
    forall i :: 0 <= i < |fields| ==> WellFormedField(fields[i])
  }

  ghost predicate WellFormedField(field: Field)
    decreases field
  {
    0 < field.tag < 0x2000_0000 && WellFormedKind(field.kind)
  }

  ghost predicate WellFormedKind(kind: Kind)
    decreases kind
  {
    kind.SubmessageKind? ==> WellFormed(kind.fields)
  }

  /** No oneof has two members chosen, here and in all submessages: which_ names one member, or none. */
  ghost predicate Chosen(kind: Kind, v: Value)
    decreases kind
  {
    kind.SubmessageKind? ==> v.Message? && ChosenSlots(kind.fields, v.slots)
  }

  ghost predicate ChosenSlot(field: Field, slot: Slot)
    decreases field
  {
    forall i :: 0 <= i < |slot.items| ==> Chosen(field.kind, slot.items[i])
  }

  ghost predicate ChosenSlots(fields: seq<Field>, slots: seq<Slot>)
    decreases fields
  {
    |slots| == |fields| && OneChosen(fields, slots) &&
    forall i :: 0 <= i < |fields| ==> ChosenSlot(fields[i], slots[i])
  }

  ghost predicate OneChosen(fields: seq<Field>, slots: seq<Slot>)
    requires |slots| == |fields|
  {
    forall i, j :: 0 <= i < |fields| && 0 <= j < |fields| && i != j && SameOneof(fields[i], fields[j]) ==>
      !(slots[i].has && slots[j].has)
  }

  /** Every string that is sent leaves room for its terminating zero. */
  ghost predicate StringsFit(kind: Kind, v: Value)
    requires Typed(kind, v)
    decreases kind
  {
    match kind
    case StringKind(capacity) => |v.bytes| < capacity
    case SubmessageKind(fields) => StringsFitUpTo(fields, v.slots, |fields|)
    case _ => true
  }

  ghost predicate StringsFitIn(field: Field, slot: Slot)
    requires TypedSlot(field, slot)
    decreases field
  {
    Present(field, slot) ==> forall i :: 0 <= i < |slot.items| ==> StringsFit(field.kind, slot.items[i])
  }

  ghost predicate StringsFitUpTo(fields: seq<Field>, slots: seq<Slot>, n: nat)
    requires TypedSlots(fields, slots) && n <= |fields|
    decreases fields
  {
    forall i :: 0 <= i < n ==> StringsFitIn(fields[i], slots[i])
  }

  // ---------------------------------------------------------------- up to the contents of absent fields

  ghost predicate SameValue(kind: Kind, a: Value, b: Value)
    decreases kind
  {
    if kind.SubmessageKind? then a.Message? && b.Message? && SameSlots(kind.fields, a.slots, b.slots) else a == b
  }

  ghost predicate SameItems(field: Field, a: Slot, b: Slot)
    decreases field, 0
  {
    |a.items| == |b.items| && forall i :: 0 <= i < |a.items| ==> SameValue(field.kind, a.items[i], b.items[i])
  }

  ghost predicate SameSlot(field: Field, a: Slot, b: Slot)
    decreases field, 1
  {
    if field.rule.Optional? || field.rule.Oneof? then a.has == b.has && (a.has ==> SameItems(field, a, b))
    else SameItems(field, a, b)
  }

  ghost predicate SameSlots(fields: seq<Field>, a: seq<Slot>, b: seq<Slot>)
    decreases fields
  {
    |a| == |b| == |fields| && forall i :: 0 <= i < |fields| ==> SameSlot(fields[i], a[i], b[i])
  }

  // ---------------------------------------------------------------- fields that are not sent

  lemma {:induction false} DefaultIsSame(kind: Kind, v: Value)
    requires Typed(kind, v) && IsDefaultValue(kind, v)
    ensures SameValue(kind, v, DefaultValue(kind))
    decreases kind
  {
    if kind.SubmessageKind? {
      var fields := kind.fields;
      assert TypedSlots(fields, v.slots);
      forall i | 0 <= i < |fields| ensures SameSlot(fields[i], v.slots[i], Defaults(fields)[i]) {
        AbsentIsSame(fields[i], v.slots[i]);
      }
    }
  }

  /** What is not sent is what the defaults say. */
  lemma {:induction false} AbsentIsSame(field: Field, slot: Slot)
    requires TypedSlot(field, slot) && !Present(field, slot)
    ensures SameSlot(field, slot, DefaultSlot(field))
    decreases field
  {
    if field.rule.Singular? { DefaultIsSame(field.kind, slot.items[0]); }
  }

  // ---------------------------------------------------------------- lengths and tags

  lemma DelimitedReads(s: Bytes, tail: Bytes)
    requires |s| < TWO_TO_32
    ensures TakeDelimited(Delimited(s) + tail) == Some((s, tail))
  {
    assert Delimited(s) + tail == Varint(|s|) + (s + tail);
    Varint32ReadsBack(|s|, s + tail);
    assert (s + tail)[..|s|] == s && (s + tail)[|s|..] == tail;
  }

  lemma TagReads(wireType: nat, tag: nat, rest: Bytes)
    requires wireType < 8 && 0 < tag < 0x2000_0000
    ensures DecodeVarint32(Tag(wireType, tag) + rest) == Some((tag * 8 + wireType, rest))
    ensures (tag * 8 + wireType) / 8 == tag && (tag * 8 + wireType) % 8 == wireType
  {
    Varint32ReadsBack(tag * 8 + wireType, rest);
  }

  /** How many steps forward position n is from start. */
  function Distance(start: nat, n: nat, size: nat): nat
    requires start < size && n < size
  {
    if n >= start then n - start else n + size - start
  }

  lemma DistanceLeadsThere(start: nat, n: nat, size: nat)
    requires start < size && n < size
    ensures Distance(start, n, size) < size && Wrap(start + Distance(start, n, size), size) == n
  {
  }

  /** With distinct tags the search finds the field, wherever it starts. */
  lemma {:induction false} TagIsFound(fields: seq<Field>, start: nat, steps: nat, n: nat)
    requires forall i, j :: 0 <= i < j < |fields| ==> fields[i].tag != fields[j].tag
    requires start < |fields| && n < |fields| && steps <= Distance(start, n, |fields|)
    ensures FindFrom(fields, start, steps, fields[n].tag) == Some(n)
    decreases |fields| - steps
  {
    DistanceLeadsThere(start, n, |fields|);
    if steps < Distance(start, n, |fields|) {
      TagIsFound(fields, start, steps + 1, n);
    }
  }

  // ---------------------------------------------------------------- one value

  lemma ScalarReads(kind: Kind, v: Value, tail: Bytes)
    requires Packable(kind) && Typed(kind, v)
    ensures EncodeValue(kind, v).Some? && DecodeFresh(kind, EncodeValue(kind, v).value + tail) == Some((v, tail))
  {
    match kind
    case VarintKind(_) =>
      SignIsKept(v.i);
      VarintReadsBack(ToUnsigned(v.i), tail);
    case UVarintKind(_) => VarintReadsBack(v.i, tail);
    case SVarintKind(_) =>
      ZigZagIsUndone(v.i);
      VarintReadsBack(ZigZag(v.i), tail);
    case Fixed32Kind => LittleReads(v.i, 4, tail);
    case Fixed64Kind => LittleReads(v.i, 8, tail);
  }

  lemma LittleReads(v: nat, n: nat, tail: Bytes)
    requires (n == 4 && v < TWO_TO_32) || (n == 8 && v < TWO_TO_64)
    ensures Take(Little(v, n) + tail, n) == Some((Little(v, n), tail)) && FromLittle(Little(v, n)) == v
  {
    assert Pow256(4) == TWO_TO_32;
    assert Pow256(8) == 256 * (256 * (256 * (256 * Pow256(4))));
    WordReadsBack(v, n);
    assert (Little(v, n) + tail)[..n] == Little(v, n) && (Little(v, n) + tail)[n..] == tail;
  }

  lemma NoZeroInside(s: Bytes)
    requires 0 !in s
    ensures CString(s) == s
  {
    if |s| > 0 {
      assert s[0] in s;
      assert forall b :: b in s[1..] ==> b in s;
      NoZeroInside(s[1..]);
    }
  }

  /** The bytes of one value are read as that value, whatever follows them, if and only if its strings fit. */
  lemma {:induction false} ValueReads(kind: Kind, v: Value, tail: Bytes)
    requires Typed(kind, v) && WellFormedKind(kind) && Chosen(kind, v)
    requires EncodeValue(kind, v).Some? && |EncodeValue(kind, v).value| < TWO_TO_32
    ensures var r := DecodeFresh(kind, EncodeValue(kind, v).value + tail);
            if StringsFit(kind, v) then r.Some? && r.value.1 == tail && SameValue(kind, v, r.value.0) else r.None?
    decreases kind, 1
  {
    match kind
    case BytesKind(_) => DelimitedReads(v.bytes, tail);
    case StringKind(_) =>
      DelimitedReads(v.bytes, tail);
      NoZeroInside(v.bytes);
    case FixedLengthBytesKind(_) => DelimitedReads(v.bytes, tail);
    case SubmessageKind(fields) =>
      DelimitedReads(EncodeMessage(fields, v.slots).value, tail);
      MessageReads(fields, v.slots);
    case _ => ScalarReads(kind, v, tail);
  }

  /** A string is written whatever its length, but it is read only if its field has room for a terminating zero. */
  lemma StringReadsExactlyWhen(kind: Kind, v: Value, tail: Bytes)
    requires kind.StringKind? && Typed(kind, v) && |v.bytes| < TWO_TO_32
    ensures EncodeValue(kind, v).Some?
    ensures DecodeFresh(kind, EncodeValue(kind, v).value + tail) == Some((v, tail)) <==> |v.bytes| < kind.capacity
  {
    DelimitedReads(v.bytes, tail);
    NoZeroInside(v.bytes);
  }

  lemma {:induction false} PackedReads(kind: Kind, items: seq<Value>, n: nat, tail: Bytes, max: nat)
    requires Packable(kind) && n <= |items| <= max && forall i :: 0 <= i < |items| ==> Typed(kind, items[i])
    ensures EncodeItems(kind, items, n, []).Some?
    ensures DecodePacked(kind, EncodeItems(kind, items, n, []).value + tail, [], max) ==
            DecodePacked(kind, tail, items[..n], max)
  {
    hide EncodeValue, DecodeFresh;
    if n == 0 {
      assert [] + tail == tail;
    } else {
      ScalarReads(kind, items[n - 1], tail);
      var last := EncodeValue(kind, items[n - 1]).value;
      PackedReads(kind, items, n - 1, last + tail, max);
      var before := EncodeItems(kind, items, n - 1, []).value;
      assert [] + last == last;
      assert (before + last) + tail == before + (last + tail);
      ScalarTakesRoom(kind, items[n - 1]);
      OnePackedItem(kind, items, n, last, tail, max);
    }
  }

  lemma OnePackedItem(kind: Kind, items: seq<Value>, n: nat, bytes: Bytes, tail: Bytes, max: nat)
    requires 0 < n <= |items| <= max && |bytes| > 0 && DecodeFresh(kind, bytes + tail) == Some((items[n - 1], tail))
    ensures DecodePacked(kind, bytes + tail, items[..n - 1], max) == DecodePacked(kind, tail, items[..n], max)
  {
    hide DecodeFresh;
    assert items[..n - 1] + [items[n - 1]] == items[..n];
  }

  lemma ScalarTakesRoom(kind: Kind, v: Value)
    requires Packable(kind) && Typed(kind, v)
    ensures EncodeValue(kind, v).Some? && |EncodeValue(kind, v).value| > 0
  {
  }

  // ---------------------------------------------------------------- one field

  /** What has been read once the first n fields have gone by. */
  ghost predicate ReadUpTo(fields: seq<Field>, slots: seq<Slot>, n: nat, p: Progress)
    requires n <= |fields| == |slots|
  {
    ShapedProgress(fields, p) &&
    (forall i :: 0 <= i < n ==> SameSlot(fields[i], slots[i], p.slots[i])) &&
    (forall i :: n <= i < |fields| ==> p.slots[i] == DefaultSlot(fields[i])) &&
    (forall k :: 0 <= k < RequiredBefore(fields, n) && k < MAX_REQUIRED_FIELDS ==> k in p.seen)
  }

  lemma StepIsHandled(fields: seq<Field>, n: nat, wireType: nat, rest: Bytes, p: Progress)
    requires WellFormed(fields) && n < |fields| && ShapedProgress(fields, p)
    ensures var d := DecodeSlot(fields[n], wireType, rest, p.slots[n]);
            DecodeStep(fields, fields[n].tag, wireType, rest, p)
            == if d.Some? then Some((Handled(fields, n, d.value.0, p), d.value.1)) else None
  {
    hide DecodeSlot, Store, Shaped;
    TagIsFound(fields, p.pos, 0, n);
  }

  /** One tag and its value. */
  lemma TagsAfterStep(fields: seq<Field>, tag: nat, wireType: nat, rest: Bytes, p: Progress)
    requires ShapedProgress(fields, p) && wireType < 8 && 0 < tag < 0x2000_0000
    ensures var r := DecodeStep(fields, tag, wireType, rest, p);
            DecodeTags(fields, Tag(wireType, tag) + rest, p)
            == if r.Some? then DecodeTags(fields, r.value.1, r.value.0) else None
  {
    hide DecodeStep, Shaped, Tag;
    TagReads(wireType, tag, rest);
    TagTakesRoom(wireType, tag);
  }

  lemma TagTakesRoom(wireType: nat, tag: nat)
    ensures |Tag(wireType, tag)| > 0
  {
  }

  /** One tag of a known field and its value. */
  lemma TagIsHandled(fields: seq<Field>, n: nat, wireType: nat, rest: Bytes, p: Progress)
    requires WellFormed(fields) && n < |fields| && ShapedProgress(fields, p) && wireType < 8
    ensures var d := DecodeSlot(fields[n], wireType, rest, p.slots[n]);
            DecodeTags(fields, Tag(wireType, fields[n].tag) + rest, p)
            == if d.Some? then DecodeTags(fields, d.value.1, Handled(fields, n, d.value.0, p)) else None
  {
    hide DecodeSlot, DecodeStep, DecodeTags, Shaped;
    assert WellFormedField(fields[n]);
    StepIsHandled(fields, n, wireType, rest, p);
    TagsAfterStep(fields, fields[n].tag, wireType, rest, p);
  }

  function Handled(fields: seq<Field>, n: nat, slot: Slot, p: Progress): (q: Progress)
    requires n < |fields| && ShapedProgress(fields, p) && ShapedSlot(fields[n], slot)
    ensures ShapedProgress(fields, q)
  {
    var k := RequiredBefore(fields, n);
    Progress(Store(fields, p.slots, n, slot), n,
             if fields[n].rule.Required? && k < MAX_REQUIRED_FIELDS then p.seen + {k} else p.seen)
  }

  /** The field has been read and the earlier ones are as they were. */
  lemma HandledIsRead(fields: seq<Field>, slots: seq<Slot>, n: nat, slot: Slot, p: Progress)
    requires TypedSlots(fields, slots) && ChosenSlots(fields, slots) && n < |fields| && ReadUpTo(fields, slots, n, p)
    requires ShapedSlot(fields[n], slot) && SameSlot(fields[n], slots[n], slot)
    requires fields[n].rule.Oneof? ==> slots[n].has
    ensures ReadUpTo(fields, slots, n + 1, Handled(fields, n, slot, p))
  {
    var q := Handled(fields, n, slot, p);
    forall i | 0 <= i < n ensures SameSlot(fields[i], slots[i], q.slots[i]) {
      assert SameSlot(fields[i], slots[i], p.slots[i]);
      if SameOneof(fields[n], fields[i]) { assert !slots[i].has; }
    }
  }

  lemma AbsentIsRead(fields: seq<Field>, slots: seq<Slot>, n: nat, p: Progress)
    requires TypedSlots(fields, slots) && n < |fields| && ReadUpTo(fields, slots, n, p)
    requires !Present(fields[n], slots[n])
    ensures ReadUpTo(fields, slots, n + 1, p)
  {
    AbsentIsSame(fields[n], slots[n]);
  }

  /** A field that is not repeated, read over the defaults. */
  lemma {:induction false} SlotReads(field: Field, slot: Slot, tail: Bytes)
    requires TypedSlot(field, slot) && WellFormedField(field) && ChosenSlot(field, slot) && !field.rule.Repeated?
    requires EncodeValue(field.kind, slot.items[0]).Some? && |EncodeValue(field.kind, slot.items[0]).value| < TWO_TO_32
    requires Present(field, slot)
    ensures ShapedSlot(field, DefaultSlot(field))
    ensures var bytes := EncodeValue(field.kind, slot.items[0]).value;
            var d := DecodeSlot(field, WireType(field.kind), bytes + tail, DefaultSlot(field));
            if StringsFitIn(field, slot) then d.Some? && d.value.1 == tail && SameSlot(field, slot, d.value.0)
            else d.None?
    decreases field
  {
    DefaultSlotIsShaped(field);
    ValueReads(field.kind, slot.items[0], tail);
  }

  /** A packed array, read into an empty one. */
  lemma PackedSlotReads(field: Field, slot: Slot, tail: Bytes)
    requires TypedSlot(field, slot) && field.rule.Repeated? && Packable(field.kind) && |slot.items| <= field.rule.max
    ensures EncodeItems(field.kind, slot.items, |slot.items|, []).Some?
    ensures var body := EncodeItems(field.kind, slot.items, |slot.items|, []).value;
            |body| < TWO_TO_32 ==>
              DecodeSlot(field, WT_STRING, Delimited(body) + tail, DefaultSlot(field)) ==
                Some((Slot(false, slot.items), tail))
  {
    var items := slot.items;
    PackedReads(field.kind, items, |items|, [], field.rule.max);
    var body := EncodeItems(field.kind, items, |items|, []).value;
    assert body + [] == body && items[..|items|] == items;
    if |body| < TWO_TO_32 { DelimitedReads(body, tail); }
  }

  /** One more item of an array that is not packed. */
  lemma {:induction false} ItemReads(field: Field, v: Value, tail: Bytes, before: seq<Value>)
    requires Typed(field.kind, v) && WellFormedField(field) && Chosen(field.kind, v)
    requires field.rule.Repeated? && !Packable(field.kind) && |before| < field.rule.max
    requires EncodeValue(field.kind, v).Some? && |EncodeValue(field.kind, v).value| < TWO_TO_32
    ensures var bytes := EncodeValue(field.kind, v).value;
            var d := DecodeSlot(field, WireType(field.kind), bytes + tail, Slot(false, before));
            if StringsFit(field.kind, v) then
              d.Some? && d.value.1 == tail && d.value.0 == Slot(false, before + [d.value.0.items[|before|]]) &&
              SameValue(field.kind, v, d.value.0.items[|before|])
            else d.None?
    decreases field
  {
    ValueReads(field.kind, v, tail);
  }

  // ---------------------------------------------------------------- whole messages

  /** Nothing but field n has changed, and it holds the first k items. */
  ghost predicate ItemsRead(fields: seq<Field>, slots: seq<Slot>, n: nat, k: nat, p: Progress, q: Progress)
    requires n < |fields| == |slots| && k <= |slots[n].items|
  {
    ShapedProgress(fields, p) && ShapedProgress(fields, q) && q.seen == p.seen && |q.slots[n].items| == k &&
    (forall i :: 0 <= i < |fields| && i != n ==> q.slots[i] == p.slots[i]) && !q.slots[n].has &&
    forall i :: 0 <= i < k ==> SameValue(fields[n].kind, slots[n].items[i], q.slots[n].items[i])
  }

  /** The last of k items, and those before it. */
  lemma LastItem(kind: Kind, items: seq<Value>, k: nat, before: Bytes)
    requires 0 < k <= |items| && forall i :: 0 <= i < |items| ==> Typed(kind, items[i])
    requires EncodeItems(kind, items, k, before).Some?
    ensures EncodeItems(kind, items, k - 1, before).Some? && EncodeValue(kind, items[k - 1]).Some?
    ensures var all, value := EncodeItems(kind, items, k, before).value, EncodeValue(kind, items[k - 1]).value;
            all == EncodeItems(kind, items, k - 1, before).value + (before + value) && |value| <= |all|
  {
    hide EncodeValue;
  }

  ghost predicate ItemsFit(kind: Kind, items: seq<Value>, k: nat)
    requires k <= |items| && forall i :: 0 <= i < |items| ==> Typed(kind, items[i])
  {
    forall i :: 0 <= i < k ==> StringsFit(kind, items[i])
  }

  lemma NoItems(fields: seq<Field>, slots: seq<Slot>, n: nat, before: Bytes, tail: Bytes, p: Progress)
    requires n < |fields| == |slots| && ShapedProgress(fields, p) && fields[n].rule.Repeated?
    requires p.slots[n] == DefaultSlot(fields[n])
    requires forall i :: 0 <= i < |slots[n].items| ==> Typed(fields[n].kind, slots[n].items[i])
    ensures ItemsRead(fields, slots, n, 0, p, p) && ItemsFit(fields[n].kind, slots[n].items, 0)
    ensures EncodeItems(fields[n].kind, slots[n].items, 0, before) == Some([]) && [] + tail == tail
  {
  }

  lemma OneMoreFits(kind: Kind, items: seq<Value>, k: nat)
    requires k < |items| && forall i :: 0 <= i < |items| ==> Typed(kind, items[i])
    ensures ItemsFit(kind, items, k + 1) <==> ItemsFit(kind, items, k) && StringsFit(kind, items[k])
  {
    hide StringsFit;
  }

  lemma {:induction false} UnpackedReads(fields: seq<Field>, slots: seq<Slot>, n: nat, k: nat, tail: Bytes, p: Progress)
    returns (q: Progress)
    requires WellFormed(fields) && TypedSlots(fields, slots) && ChosenSlots(fields, slots) && n < |fields|
    requires fields[n].rule.Repeated? && !Packable(fields[n].kind) && k <= |slots[n].items| <= fields[n].rule.max
    requires ShapedProgress(fields, p) && p.slots[n] == DefaultSlot(fields[n])
    requires forall i :: 0 <= i < |slots[n].items| ==> Typed(fields[n].kind, slots[n].items[i])
    requires var e := EncodeItems(fields[n].kind, slots[n].items, k, Tag(WireType(fields[n].kind), fields[n].tag));
             e.Some? && |e.value| < TWO_TO_32
    ensures var e := EncodeItems(fields[n].kind, slots[n].items, k, Tag(WireType(fields[n].kind), fields[n].tag));
            if ItemsFit(fields[n].kind, slots[n].items, k) then
              ItemsRead(fields, slots, n, k, p, q) &&
              DecodeTags(fields, e.value + tail, p) == DecodeTags(fields, tail, q)
            else DecodeTags(fields, e.value + tail, p) == None
    decreases fields, 0, k
  {
    hide DecodeTags, ItemsRead, Tag, WellFormed, ChosenSlots, ItemsFit, StringsFit, EncodeItems, EncodeValue,
         ShapedProgress, WireType;
    var field, items := fields[n], slots[n].items;
    var tag := Tag(WireType(field.kind), field.tag);
    if k == 0 {
      NoItems(fields, slots, n, tag, tail, p);
      q := p;
    } else {
      LastItem(field.kind, items, k, tag);
      var value := EncodeValue(field.kind, items[k - 1]).value;
      var before := EncodeItems(field.kind, items, k - 1, tag).value;
      var q1 := UnpackedReads(fields, slots, n, k - 1, (tag + value) + tail, p);
      OneMoreFits(field.kind, items, k - 1);
      if ItemsFit(field.kind, items, k - 1) {
        q := OneMoreItem(fields, slots, n, k - 1, tail, p, q1);
      } else {
        q := q1;
      }
      assert (before + (tag + value)) + tail == before + ((tag + value) + tail);
    }
  }

  lemma {:induction false} OneMoreItem(fields: seq<Field>, slots: seq<Slot>, n: nat, k: nat, tail: Bytes, p: Progress,
                                       q1: Progress)
    returns (q: Progress)
    requires WellFormed(fields) && TypedSlots(fields, slots) && ChosenSlots(fields, slots) && n < |fields|
    requires fields[n].rule.Repeated? && !Packable(fields[n].kind) && k < |slots[n].items| <= fields[n].rule.max
    requires ItemsRead(fields, slots, n, k, p, q1) && Typed(fields[n].kind, slots[n].items[k])
    requires var e := EncodeValue(fields[n].kind, slots[n].items[k]); e.Some? && |e.value| < TWO_TO_32
    ensures var bytes := Tag(WireType(fields[n].kind), fields[n].tag)
                         + EncodeValue(fields[n].kind, slots[n].items[k]).value;
            if StringsFit(fields[n].kind, slots[n].items[k]) then
              ItemsRead(fields, slots, n, k + 1, p, q) &&
              DecodeTags(fields, bytes + tail, q1) == DecodeTags(fields, tail, q)
            else DecodeTags(fields, bytes + tail, q1) == None
    decreases fields, 0, 0
  {
    hide DecodeTags, DecodeSlot, Tag;
    var field := fields[n];
    var tag, value := Tag(WireType(field.kind), field.tag), EncodeValue(field.kind, slots[n].items[k]).value;
    assert ChosenSlot(field, slots[n]) && WellFormedField(field);
    ItemReads(field, slots[n].items[k], tail, q1.slots[n].items);
    assert q1.slots[n] == Slot(false, q1.slots[n].items);
    TagIsHandled(fields, n, WireType(field.kind), value + tail, q1);
    assert (tag + value) + tail == tag + (value + tail);
    var d := DecodeSlot(field, WireType(field.kind), value + tail, q1.slots[n]);
    q := if d.Some? then Handled(fields, n, d.value.0, q1) else q1;
  }

  /** Field n has been read if its strings fit, or else the decoder has failed. */
  ghost predicate FieldDone(fields: seq<Field>, slots: seq<Slot>, n: nat, s: Bytes, tail: Bytes, p: Progress,
                            q: Progress)
    requires TypedSlots(fields, slots) && n < |fields| && ShapedProgress(fields, p)
  {
    if StringsFitIn(fields[n], slots[n]) then
      ReadUpTo(fields, slots, n + 1, q) && DecodeTags(fields, s, p) == DecodeTags(fields, tail, q)
    else DecodeTags(fields, s, p) == None
  }

  lemma {:induction false} FieldReads(fields: seq<Field>, slots: seq<Slot>, n: nat, tail: Bytes, p: Progress)
    returns (q: Progress)
    requires WellFormed(fields) && TypedSlots(fields, slots) && ChosenSlots(fields, slots) && n < |fields|
    requires EncodeField(fields[n], slots[n]).Some? && |EncodeField(fields[n], slots[n]).value| < TWO_TO_32
    requires ReadUpTo(fields, slots, n, p)
    ensures FieldDone(fields, slots, n, EncodeField(fields[n], slots[n]).value + tail, tail, p, q)
    decreases fields, 1, 0
  {
    var field, slot := fields[n], slots[n];
    assert WellFormedField(field) && ChosenSlot(field, slot) && TypedSlot(field, slot);
    if !Present(field, slot) {
      assert [] + tail == tail;
      AbsentIsRead(fields, slots, n, p);
      q := p;
    } else if !field.rule.Repeated? {
      q := SingleReads(fields, slots, n, tail, p);
    } else if Packable(field.kind) {
      q := PackedFieldReads(fields, slots, n, tail, p);
    } else {
      q := UnpackedReads(fields, slots, n, |slot.items|, tail, p);
      if StringsFitIn(field, slot) { ArrayIsRead(fields, slots, n, p, q); }
    }
  }

  lemma {:induction false} SingleReads(fields: seq<Field>, slots: seq<Slot>, n: nat, tail: Bytes, p: Progress)
    returns (q: Progress)
    requires WellFormed(fields) && TypedSlots(fields, slots) && ChosenSlots(fields, slots) && n < |fields|
    requires !fields[n].rule.Repeated? && Present(fields[n], slots[n]) && ReadUpTo(fields, slots, n, p)
    requires EncodeField(fields[n], slots[n]).Some? && |EncodeField(fields[n], slots[n]).value| < TWO_TO_32
    ensures FieldDone(fields, slots, n, EncodeField(fields[n], slots[n]).value + tail, tail, p, q)
    decreases fields, 0, 0
  {
    hide DecodeTags, DecodeSlot, Tag, StringsFitIn;
    var field, slot := fields[n], slots[n];
    assert WellFormedField(field) && ChosenSlot(field, slot);
    var value := EncodeValue(field.kind, slot.items[0]).value;
    SlotReads(field, slot, tail);
    TagIsHandled(fields, n, WireType(field.kind), value + tail, p);
    var tag := Tag(WireType(field.kind), field.tag);
    assert (tag + value) + tail == tag + (value + tail);
    var d := DecodeSlot(field, WireType(field.kind), value + tail, p.slots[n]);
    if StringsFitIn(field, slot) {
      HandledIsRead(fields, slots, n, d.value.0, p);
      q := Handled(fields, n, d.value.0, p);
    } else {
      q := p;
    }
  }

  lemma PackedFieldReads(fields: seq<Field>, slots: seq<Slot>, n: nat, tail: Bytes, p: Progress) returns (q: Progress)
    requires WellFormed(fields) && TypedSlots(fields, slots) && ChosenSlots(fields, slots) && n < |fields|
    requires fields[n].rule.Repeated? && Packable(fields[n].kind) && |slots[n].items| > 0 &&
             ReadUpTo(fields, slots, n, p)
    requires EncodeField(fields[n], slots[n]).Some? && |EncodeField(fields[n], slots[n]).value| < TWO_TO_32
    ensures FieldDone(fields, slots, n, EncodeField(fields[n], slots[n]).value + tail, tail, p, q)
  {
    hide DecodeTags, DecodeSlot, Tag, EncodeItems;
    var field, slot := fields[n], slots[n];
    PackedSlotReads(field, slot, tail);
    var body := EncodeItems(field.kind, slot.items, |slot.items|, []).value;
    TagIsHandled(fields, n, WT_STRING, Delimited(body) + tail, p);
    var tag := Tag(WT_STRING, field.tag);
    assert (tag + Delimited(body)) + tail == tag + (Delimited(body) + tail);
    ScalarsAreSame(field.kind, slot.items);
    HandledIsRead(fields, slots, n, Slot(false, slot.items), p);
    q := Handled(fields, n, Slot(false, slot.items), p);
  }

  lemma ScalarsAreSame(kind: Kind, items: seq<Value>)
    requires Packable(kind) && forall i :: 0 <= i < |items| ==> Typed(kind, items[i])
    ensures forall i :: 0 <= i < |items| ==> SameValue(kind, items[i], items[i]) && StringsFit(kind, items[i])
  {
  }

  lemma ArrayIsRead(fields: seq<Field>, slots: seq<Slot>, n: nat, p: Progress, q: Progress)
    requires |slots| == |fields| && n < |fields| && fields[n].rule.Repeated? && ReadUpTo(fields, slots, n, p)
    requires ItemsRead(fields, slots, n, |slots[n].items|, p, q)
    ensures ReadUpTo(fields, slots, n + 1, q)
  {
  }

  /** The first n fields are read one after the other, up to the first string that does not fit. */
  lemma {:induction false} FieldsRead(fields: seq<Field>, slots: seq<Slot>, n: nat, tail: Bytes) returns (q: Progress)
    requires WellFormed(fields) && TypedSlots(fields, slots) && ChosenSlots(fields, slots) && n <= |fields|
    requires EncodeFields(fields, slots, n).Some? && |EncodeFields(fields, slots, n).value| < TWO_TO_32
    ensures ShapedProgress(fields, Progress(Defaults(fields), 0, {}))
    ensures var r := DecodeTags(fields, EncodeFields(fields, slots, n).value + tail, Progress(Defaults(fields), 0, {}));
            if StringsFitUpTo(fields, slots, n) then
              ReadUpTo(fields, slots, n, q) && r == DecodeTags(fields, tail, q)
            else r == None
    decreases fields, 2, n
  {
    DefaultsAreShaped(fields);
    if n == 0 {
      assert [] + tail == tail;
      q := Progress(Defaults(fields), 0, {});
    } else {
      var before := EncodeFields(fields, slots, n - 1).value;
      var last := EncodeField(fields[n - 1], slots[n - 1]).value;
      q := FieldsRead(fields, slots, n - 1, last + tail);
      assert (before + last) + tail == before + (last + tail);
      if StringsFitUpTo(fields, slots, n - 1) { q := FieldReads(fields, slots, n - 1, tail, q); }
    }
  }

  /** The round trip: what was encoded is decoded if and only if every string that was sent leaves room for a
      terminating zero, and then the message is the same up to the contents of absent fields. */
  lemma {:induction false} MessageReads(fields: seq<Field>, slots: seq<Slot>)
    requires WellFormed(fields) && TypedSlots(fields, slots) && ChosenSlots(fields, slots)
    requires EncodeMessage(fields, slots).Some? && |EncodeMessage(fields, slots).value| < TWO_TO_32
    ensures var m := Decode(fields, EncodeMessage(fields, slots).value);
            if StringsFitUpTo(fields, slots, |fields|) then m.Some? && SameSlots(fields, slots, m.value) else m.None?
    decreases fields, 3
  {
    var s := EncodeMessage(fields, slots).value;
    var q := FieldsRead(fields, slots, |fields|, []);
    assert s + [] == s;
  }
}
