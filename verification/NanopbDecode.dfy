/** The nanopb decoder (pb_decode.c): what it makes of any bytes, and the loops that do it. */
module NanopbDecode {
  import opened InternalKeys
  import opened NanopbVarint
  import opened Varints
  import opened NanopbMessage

  const MAX_REQUIRED_FIELDS: nat := 64

  // ---------------------------------------------------------------- defaults

  function DefaultValue(kind: Kind): Value
    decreases kind, 0
  {
    match kind
    case BytesKind(_) => Raw([])
    case StringKind(_) => Raw([])
    case FixedLengthBytesKind(size) => Raw(seq(size, _ => 0))
    case SubmessageKind(fields) => Message(Defaults(fields))
    case _ => Int(0)
  }

  function DefaultSlot(field: Field): Slot
    decreases field, 1
  {
    Slot(false, if field.rule.Repeated? then [] else [DefaultValue(field.kind)])
  }

  /** pb_message_set_to_defaults, for fields without default values of their own. */
  function Defaults(fields: seq<Field>): (r: seq<Slot>)
    ensures |r| == |fields|
    decreases fields, 2
  {
    seq(|fields|, i requires 0 <= i < |fields| => DefaultSlot(fields[i]))
  }

  /** The shape of a message struct: a member for every field. */
  ghost predicate Shaped(fields: seq<Field>, slots: seq<Slot>)
    decreases fields
  {
    |slots| == |fields| && forall i :: 0 <= i < |fields| ==> ShapedSlot(fields[i], slots[i])
  }

  ghost predicate ShapedSlot(field: Field, slot: Slot)
    decreases field
  {
    !field.rule.Repeated? ==> |slot.items| == 1 && ShapedValue(field.kind, slot.items[0])
  }

  ghost predicate ShapedValue(kind: Kind, v: Value)
    decreases kind
  {
    kind.SubmessageKind? ==> v.Message? && Shaped(kind.fields, v.slots)
  }

  lemma DefaultsAreShaped(fields: seq<Field>)
    ensures Shaped(fields, Defaults(fields))
    decreases fields
  {
    forall i | 0 <= i < |fields| ensures ShapedSlot(fields[i], Defaults(fields)[i]) {
      DefaultSlotIsShaped(fields[i]);
    }
  }

  lemma DefaultSlotIsShaped(field: Field)
    ensures ShapedSlot(field, DefaultSlot(field))
    decreases field
  {
    DefaultIsShaped(field.kind);
  }

  lemma DefaultIsShaped(kind: Kind)
    ensures ShapedValue(kind, DefaultValue(kind))
    decreases kind
  {
    if kind.SubmessageKind? { DefaultsAreShaped(kind.fields); }
  }

  // ---------------------------------------------------------------- finding a field

  function RequiredBefore(fields: seq<Field>, n: nat): nat
    requires n <= |fields|
  {
    if n == 0 then 0 else RequiredBefore(fields, n - 1) + if fields[n - 1].rule.Required? then 1 else 0
  }

  /** A position that may have run past the last field. */
  function Wrap(i: nat, size: nat): (r: nat)
    requires i < 2 * size
    ensures r < size
  {
    if i < size then i else i - size
  }

  /** pb_field_iter_find: the search starts at the current field and goes round once. */
  function FindFrom(fields: seq<Field>, start: nat, steps: nat, tag: nat): (r: Option<nat>)
    requires start < |fields| && steps <= |fields|
    ensures r.Some? ==> r.value < |fields| && fields[r.value].tag == tag
    decreases |fields| - steps
  {
    if steps == |fields| then None
    else
      var i := Wrap(start + steps, |fields|);
      if fields[i].tag == tag then Some(i) else FindFrom(fields, start, steps + 1, tag)
  }

  // ---------------------------------------------------------------- values

  /** n bytes off the stream. */
  function Take(s: Bytes, n: nat): (r: Option<(Bytes, Bytes)>)
    ensures r.Some? ==> n <= |s| && r.value == (s[..n], s[n..])
  {
    if n <= |s| then Some((s[..n], s[n..])) else None
  }

  /** A length and that many bytes: what a substream gets, and what is left of its parent. */
  function TakeDelimited(s: Bytes): (r: Option<(Bytes, Bytes)>)
    ensures r.Some? ==> |r.value.0| + |r.value.1| < |s|
  {
    match DecodeVarint32(s)
    case None => None
    case Some((n, rest)) => Take(rest, n)
  }

  /** A C string ends before its first zero. */
  function CString(s: Bytes): Bytes { if |s| == 0 || s[0] == 0 then [] else [s[0]] + CString(s[1..]) }

  function InRangeOrNone(size: nat, signed: bool, i: int, rest: Bytes): Option<(Value, Bytes)> {
    if InRange(size, signed, i) then Some((Int(i), rest)) else None
  }

  /** Reads one value over the one the struct holds, and gives back the bytes left. */
  function DecodeValue(kind: Kind, s: Bytes, cur: Value): (r: Option<(Value, Bytes)>)
    requires ShapedValue(kind, cur)
    ensures r.Some? ==> |r.value.1| <= |s| && ShapedValue(kind, r.value.0)
    decreases kind, 0, 0
  {
    match kind
    case VarintKind(size) =>
      (match DecodeVarint(s)
       case None => None
       case Some((v, rest)) => InRangeOrNone(size, true, if size == 8 then ToInt64(v) else ToInt32(v), rest))
    case UVarintKind(size) =>
      (match DecodeVarint(s)
       case None => None
       case Some((v, rest)) => InRangeOrNone(size, false, v, rest))
    case SVarintKind(size) =>
      (match DecodeVarint(s)
       case None => None
       case Some((v, rest)) => InRangeOrNone(size, true, UnZigZag(v), rest))
    case Fixed32Kind =>
      (match Take(s, 4)
       case None => None
       case Some((w, rest)) => Some((Int(FromLittle(w)), rest)))
    case Fixed64Kind =>
      (match Take(s, 8)
       case None => None
       case Some((w, rest)) => Some((Int(FromLittle(w)), rest)))
    case BytesKind(capacity) =>
      (match TakeDelimited(s)
       case None => None
       case Some((b, rest)) => if |b| > capacity then None else Some((Raw(b), rest)))
    case StringKind(capacity) =>
      (match TakeDelimited(s)
       case None => None
       case Some((b, rest)) => if |b| + 1 > capacity then None else Some((Raw(CString(b)), rest)))
    case FixedLengthBytesKind(size) =>
      (match TakeDelimited(s)
       case None => None
       case Some((b, rest)) =>
         if |b| == 0 then Some((Raw(seq(size, _ => 0)), rest)) else if |b| != size then None else Some((Raw(b), rest)))
    case SubmessageKind(fields) =>
      (match TakeDelimited(s)
       case None => None
       case Some((b, rest)) =>
         match DecodeNoInit(fields, b, cur.slots)
         case None => None
         case Some(slots) => Some((Message(slots), rest)))
  }

  /** A new item of an array, or a newly chosen member of a oneof, starts from the defaults. */
  function DecodeFresh(kind: Kind, s: Bytes): (r: Option<(Value, Bytes)>)
    ensures r.Some? ==> |r.value.1| <= |s| && ShapedValue(kind, r.value.0)
    decreases kind, 0, 1
  {
    DefaultIsShaped(kind);
    DecodeValue(kind, s, DefaultValue(kind))
  }

  /** The items of a packed array, as long as there are bytes and room. */
  function DecodePacked(kind: Kind, s: Bytes, items: seq<Value>, max: nat): Option<(seq<Value>, Bytes)>
    decreases kind, 1, max - |items|
  {
    if |s| == 0 || |items| >= max then Some((items, s))
    else
      match DecodeFresh(kind, s)
      case None => None
      case Some((v, rest)) => DecodePacked(kind, rest, items + [v], max)
  }

  // ---------------------------------------------------------------- fields

  /** decode_static_field, on the part of the struct that belongs to the field. */
  function DecodeSlot(field: Field, wireType: nat, s: Bytes, slot: Slot): (r: Option<(Slot, Bytes)>)
    requires ShapedSlot(field, slot)
    ensures r.Some? ==> |r.value.1| <= |s| && ShapedSlot(field, r.value.0)
    decreases field
  {
    match field.rule
    case Repeated(max) =>
      if wireType == WT_STRING && Packable(field.kind) then
        (match TakeDelimited(s)
         case None => None
         case Some((b, rest)) =>
           match DecodePacked(field.kind, b, slot.items, max)
           case None => None
           case Some((items, left)) => if |left| != 0 then None else Some((slot.(items := items), rest)))
      else if |slot.items| >= max then None
      else
        (match DecodeFresh(field.kind, s)
         case None => None
         case Some((v, rest)) => Some((slot.(items := slot.items + [v]), rest)))
    case Oneof(_) =>
      (match DecodeFresh(field.kind, s)
       case None => None
       case Some((v, rest)) => Some((Slot(true, [v]), rest)))
    case _ =>
      (match DecodeValue(field.kind, s, slot.items[0])
       case None => None
       case Some((v, rest)) => Some((Slot(field.rule.Optional? || slot.has, [v]), rest)))
  }

  predicate SameOneof(a: Field, b: Field) { a.rule.Oneof? && a.rule == b.rule }

  /** Writes one field's part of the struct.  Choosing a member of a oneof takes the choice from every other one. */
  function Store(fields: seq<Field>, slots: seq<Slot>, i: nat, slot: Slot): (r: seq<Slot>)
    requires Shaped(fields, slots) && i < |fields| && ShapedSlot(fields[i], slot)
    ensures Shaped(fields, r)
  {
    var r := seq(|slots|, k requires 0 <= k < |slots| =>
      if k == i then slot else if SameOneof(fields[i], fields[k]) then slots[k].(has := false) else slots[k]);
    SameItemsAreShaped(fields, slots, r, i);
    r
  }

  lemma SameItemsAreShaped(fields: seq<Field>, slots: seq<Slot>, r: seq<Slot>, i: nat)
    requires Shaped(fields, slots) && |r| == |slots| && i < |fields| && ShapedSlot(fields[i], r[i])
    requires forall k :: 0 <= k < |slots| && k != i ==> r[k].items == slots[k].items
    ensures Shaped(fields, r)
  {
    forall k | 0 <= k < |fields| ensures ShapedSlot(fields[k], r[k]) {
      if k != i { assert ShapedSlot(fields[k], slots[k]); }
    }
  }

  function DecodeField(fields: seq<Field>, i: nat, wireType: nat, s: Bytes,
                       slots: seq<Slot>): (r: Option<(seq<Slot>, Bytes)>)
    requires i < |fields| && Shaped(fields, slots)
    ensures r.Some? ==> |r.value.1| <= |s| && Shaped(fields, r.value.0)
    decreases fields, 0, 0
  {
    match DecodeSlot(fields[i], wireType, s, slots[i])
    case None => None
    case Some((slot, rest)) => Some((Store(fields, slots, i, slot), rest))
  }

  // ---------------------------------------------------------------- messages

  function SkipVarint(s: Bytes): (r: Option<Bytes>)
    ensures r.Some? ==> |r.value| < |s|
  {
    if |s| == 0 then None else if s[0] >= 128 then SkipVarint(s[1..]) else Some(s[1..])
  }

  function SkipField(wireType: nat, s: Bytes): (r: Option<Bytes>)
    ensures r.Some? ==> |r.value| <= |s|
  {
    if wireType == WT_VARINT then SkipVarint(s)
    else if wireType == WT_64BIT then (if |s| < 8 then None else Some(s[8..]))
    else if wireType == WT_STRING then (var d := TakeDelimited(s); if d.None? then None else Some(d.value.1))
    else if wireType == WT_32BIT then (if |s| < 4 then None else Some(s[4..]))
    else None
  }

  /** How far a decoder has come: the message, where its field iterator stands, and which required fields it saw. */
  datatype Progress = Progress(slots: seq<Slot>, pos: nat, seen: set<nat>)

  ghost predicate ShapedProgress(fields: seq<Field>, p: Progress) {
    Shaped(fields, p.slots) && (|fields| > 0 ==> p.pos < |fields|)
  }

  /** One tag and what belongs to it.  The outcome None is an error. */
  function DecodeStep(fields: seq<Field>, tag: nat, wireType: nat, s: Bytes,
                      p: Progress): (r: Option<(Progress, Bytes)>)
    requires ShapedProgress(fields, p)
    ensures r.Some? ==> |r.value.1| <= |s| && ShapedProgress(fields, r.value.0)
    decreases fields, 1, 0
  {
    if |fields| == 0 && tag == 0 then None
    else
      var found := if |fields| == 0 then None else FindFrom(fields, p.pos, 0, tag);
      match found
      case None => (var rest := SkipField(wireType, s); if rest.None? then None else Some((p, rest.value)))
      case Some(i) =>
        var k := RequiredBefore(fields, i);
        var seen := if fields[i].rule.Required? && k < MAX_REQUIRED_FIELDS then p.seen + {k} else p.seen;
        match DecodeField(fields, i, wireType, s, p.slots)
        case None => None
        case Some((slots, rest)) => Some((Progress(slots, i, seen), rest))
  }

  /** All tags up to the end, or up to a zero in place of a tag. */
  function DecodeTags(fields: seq<Field>, s: Bytes, p: Progress): (r: Option<Progress>)
    requires ShapedProgress(fields, p)
    ensures r.Some? ==> ShapedProgress(fields, r.value)
    decreases fields, 2, |s|
  {
    if |s| == 0 then Some(p)
    else
      match DecodeVarint32(s)
      case None => None
      case Some((t, rest)) =>
        if t == 0 then Some(p)
        else
          match DecodeStep(fields, t / 8, t % 8, rest, p)
          case None => None
          case Some((q, left)) => DecodeTags(fields, left, q)
  }

  /** The required fields that the bitmap has room for have all been seen. */
  predicate AllRequiredSeen(fields: seq<Field>, seen: set<nat>) {
    forall k :: 0 <= k < RequiredBefore(fields, |fields|) && k < MAX_REQUIRED_FIELDS ==> k in seen
  }

  function DecodeNoInit(fields: seq<Field>, s: Bytes, slots: seq<Slot>): (r: Option<seq<Slot>>)
    requires Shaped(fields, slots)
    ensures r.Some? ==> Shaped(fields, r.value)
    decreases fields, 3, 0
  {
    match DecodeTags(fields, s, Progress(slots, 0, {}))
    case None => None
    case Some(p) => if AllRequiredSeen(fields, p.seen) then Some(p.slots) else None
  }

  function Decode(fields: seq<Field>, s: Bytes): Option<seq<Slot>> {
    DefaultsAreShaped(fields);
    DecodeNoInit(fields, s, Defaults(fields))
  }
}
