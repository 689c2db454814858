/** Message descriptors and messages of nanopb (pb.h), and the bytes a message stands for on the wire, after the
    sections "Base 128 Varints" and "Length-Delimited Records" of the Protocol Buffers Encoding specification. */
module NanopbMessage {
  import opened InternalKeys
  import opened NanopbVarint
  import opened Varints

  // ---------------------------------------------------------------- descriptors

  /** The logical types of statically allocated fields.  Sizes are those of the C field: 1, 2, 4 or 8 for integers,
      the capacity for bytes, the capacity with the terminating zero for strings. */
  datatype Kind =
    | VarintKind(size: nat)
    | UVarintKind(size: nat)
    | SVarintKind(size: nat)
    | Fixed32Kind
    | Fixed64Kind
    | BytesKind(capacity: nat)
    | StringKind(capacity: nat)
    | SubmessageKind(fields: seq<Field>)
    | FixedLengthBytesKind(size: nat)

  /** Optional fields have a has_ flag, singular ones (proto3) do not; the members of one oneof share a group. */
  datatype Rule = Required | Optional | Singular | Repeated(max: nat) | Oneof(group: nat)

  datatype Field = Field(tag: nat, rule: Rule, kind: Kind)

  predicate Packable(kind: Kind) {
    kind.VarintKind? || kind.UVarintKind? || kind.SVarintKind? || kind.Fixed32Kind? || kind.Fixed64Kind?
  }

  // ---------------------------------------------------------------- messages

  datatype Value = Int(i: int) | Raw(bytes: Bytes) | Message(slots: seq<Slot>)

  /** What the message struct holds for one field.  has is the has_ flag, or that which_ names this member of its
      oneof.  A repeated field has its items, every other field has one. */
  datatype Slot = Slot(has: bool, items: seq<Value>)

  predicate InRange(size: nat, signed: bool, i: int) {
    if size == 1 then (if signed then -0x80 <= i < 0x80 else 0 <= i < 0x100)
    else if size == 2 then (if signed then -0x8000 <= i < 0x8000 else 0 <= i < 0x1_0000)
    else if size == 4 then (if signed then -TWO_TO_31 <= i < TWO_TO_31 else 0 <= i < TWO_TO_32)
    else size == 8 && if signed then -TWO_TO_63 <= i < TWO_TO_63 else 0 <= i < TWO_TO_64
  }

  /** v is a value that the C field can hold. */
  predicate Typed(kind: Kind, v: Value)
    decreases kind
  {
    match kind
    case VarintKind(size) => v.Int? && InRange(size, true, v.i)
    case UVarintKind(size) => v.Int? && InRange(size, false, v.i)
    case SVarintKind(size) => v.Int? && InRange(size, true, v.i)
    case Fixed32Kind => v.Int? && 0 <= v.i < TWO_TO_32
    case Fixed64Kind => v.Int? && 0 <= v.i < TWO_TO_64
    case BytesKind(_) => v.Raw?
    case StringKind(capacity) => v.Raw? && |v.bytes| <= capacity && 0 !in v.bytes
    case SubmessageKind(fields) => v.Message? && TypedSlots(fields, v.slots)
    case FixedLengthBytesKind(size) => v.Raw? && |v.bytes| == size
  }

  predicate TypedSlot(field: Field, slot: Slot)
    decreases field
  {
    (field.rule.Repeated? || |slot.items| == 1) &&
    forall i :: 0 <= i < |slot.items| ==> Typed(field.kind, slot.items[i])
  }

  predicate TypedSlots(fields: seq<Field>, slots: seq<Slot>)
    decreases fields
  {
    |slots| == |fields| && forall i :: 0 <= i < |fields| ==> TypedSlot(fields[i], slots[i])
  }

  // ---------------------------------------------------------------- presence of proto3 singular fields

  /** pb_check_proto3_default_value: nothing of the field needs to be sent. */
  predicate IsDefault(field: Field, slot: Slot)
    requires TypedSlot(field, slot)
    decreases field, 1
  {
    match field.rule
    case Required => false
    case Optional => !slot.has
    case Repeated(_) => |slot.items| == 0
    case Oneof(_) => !slot.has
    case Singular => IsDefaultValue(field.kind, slot.items[0])
  }

  predicate IsDefaultValue(kind: Kind, v: Value)
    requires Typed(kind, v)
    decreases kind, 0
  {
    match kind
    case BytesKind(_) => |v.bytes| == 0
    case StringKind(_) => |v.bytes| == 0
    case FixedLengthBytesKind(size) => size == 0
    case SubmessageKind(fields) =>
      assert TypedSlots(fields, v.slots);
      forall i :: 0 <= i < |fields| ==> IsDefault(fields[i], v.slots[i])
    case _ => v.i == 0
  }

  // ---------------------------------------------------------------- the bytes of a message

  const WT_VARINT: nat := 0
  const WT_64BIT: nat := 1
  const WT_STRING: nat := 2
  const WT_32BIT: nat := 5

  function WireType(kind: Kind): nat {
    match kind
    case VarintKind(_) => WT_VARINT
    case UVarintKind(_) => WT_VARINT
    case SVarintKind(_) => WT_VARINT
    case Fixed32Kind => WT_32BIT
    case Fixed64Kind => WT_64BIT
    case _ => WT_STRING
  }

  function Tag(wireType: nat, tag: nat): Bytes { Varint(tag * 8 + wireType) }

  function Delimited(s: Bytes): Bytes { Varint(|s|) + s }

  /** The bytes of a value without its tag, or None where the encoder refuses the value. */
  function EncodeValue(kind: Kind, v: Value): Option<Bytes>
    requires Typed(kind, v)
    decreases kind, 0
  {
    match kind
    case VarintKind(_) => Some(Varint(ToUnsigned(v.i)))
    case UVarintKind(_) => Some(Varint(v.i))
    case SVarintKind(_) => Some(Varint(ZigZag(v.i)))
    case Fixed32Kind => Some(Little(v.i, 4))
    case Fixed64Kind => Some(Little(v.i, 8))
    case BytesKind(capacity) => if |v.bytes| > capacity then None else Some(Delimited(v.bytes))
    case StringKind(_) => Some(Delimited(v.bytes))
    case FixedLengthBytesKind(_) => Some(Delimited(v.bytes))
    case SubmessageKind(fields) =>
      match EncodeFields(fields, v.slots, |fields|)
      case None => None
      case Some(s) => Some(Delimited(s))
  }

  function Append(a: Option<Bytes>, b: Option<Bytes>): Option<Bytes> {
    if a.Some? && b.Some? then Some(a.value + b.value) else None
  }

  /** The first n items one after the other, each behind the same bytes. */
  function EncodeItems(kind: Kind, items: seq<Value>, n: nat, before: Bytes): Option<Bytes>
    requires n <= |items| && forall i :: 0 <= i < |items| ==> Typed(kind, items[i])
    decreases kind, 1, n
  {
    if n == 0 then Some([])
    else Append(EncodeItems(kind, items, n - 1, before), Append(Some(before), EncodeValue(kind, items[n - 1])))
  }

  function EncodeArray(field: Field, items: seq<Value>): Option<Bytes>
    requires field.rule.Repeated? && forall i :: 0 <= i < |items| ==> Typed(field.kind, items[i])
    decreases field, 0
  {
    if |items| == 0 then Some([])
    else if |items| > field.rule.max then None
    else if Packable(field.kind) then
      match EncodeItems(field.kind, items, |items|, [])
      case None => None
      case Some(s) => Some(Tag(WT_STRING, field.tag) + Delimited(s))
    else EncodeItems(field.kind, items, |items|, Tag(WireType(field.kind), field.tag))
  }

  /** Whether the encoder writes the one item of a field that is not repeated. */
  predicate Present(field: Field, slot: Slot)
    requires TypedSlot(field, slot)
  {
    match field.rule
    case Required => true
    case Optional => slot.has
    case Singular => !IsDefault(field, slot)
    case Oneof(_) => slot.has
    case Repeated(_) => |slot.items| > 0
  }

  function EncodeField(field: Field, slot: Slot): Option<Bytes>
    requires TypedSlot(field, slot)
    decreases field, 1
  {
    if field.rule.Repeated? then EncodeArray(field, slot.items)
    else if Present(field, slot) then
      Append(Some(Tag(WireType(field.kind), field.tag)), EncodeValue(field.kind, slot.items[0]))
    else Some([])
  }

  /** The first n fields of a message. */
  function EncodeFields(fields: seq<Field>, slots: seq<Slot>, n: nat): Option<Bytes>
    requires n <= |fields| && TypedSlots(fields, slots)
    decreases fields, 2, n
  {
    if n == 0 then Some([]) else Append(EncodeFields(fields, slots, n - 1), EncodeField(fields[n - 1], slots[n - 1]))
  }

  function EncodeMessage(fields: seq<Field>, slots: seq<Slot>): Option<Bytes>
    requires TypedSlots(fields, slots)
  {
    EncodeFields(fields, slots, |fields|)
  }
}
