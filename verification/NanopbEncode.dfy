/** The nanopb encoder (pb_encode.c): one recursive walk that either writes a message or only counts its bytes. */
module NanopbEncode {
  import opened InternalKeys
  import opened NanopbVarint
  import opened Varints
  import opened NanopbMessage

  /** What a call has done to a stream: it has counted or written exactly the bytes, or it has failed, for lack of
      room or because there are no such bytes. */
  ghost predicate Emits(sizing: bool, maxSize: nat, out: Bytes, written: nat, bytes: Option<Bytes>, ok: bool,
                        out': Bytes, written': nat)
  {
    if bytes.None? then !ok
    else if sizing then ok && out' == out && written' == written + |bytes.value|
    else if written + |bytes.value| <= maxSize then ok && out' == out + bytes.value &&
      written' == written + |bytes.value|
    else !ok
  }

  /** One call after another, as long as the first succeeds. */
  lemma EmitsThen(sizing: bool, maxSize: nat, out: Bytes, written: nat, a: Option<Bytes>, out': Bytes, written': nat,
                  b: Option<Bytes>, ok: bool, out'': Bytes, written'': nat)
    requires Emits(sizing, maxSize, out, written, a, true, out', written')
    requires Emits(sizing, maxSize, out', written', b, ok, out'', written'')
    ensures Emits(sizing, maxSize, out, written, Append(a, b), ok, out'', written'')
  {
    if b.Some? && !sizing { assert out + (a.value + b.value) == (out + a.value) + b.value; }
  }

  lemma EmitsNothing(sizing: bool, maxSize: nat, out: Bytes, written: nat)
    requires sizing || written <= maxSize
    ensures Emits(sizing, maxSize, out, written, Some([]), true, out, written)
  {
    assert out + [] == out;
  }

  lemma EmitsNoMore(sizing: bool, maxSize: nat, out: Bytes, written: nat, a: Option<Bytes>, b: Option<Bytes>,
                    out': Bytes, written': nat)
    requires Emits(sizing, maxSize, out, written, a, false, out', written')
    ensures Emits(sizing, maxSize, out, written, Append(a, b), false, out', written')
  {
  }

  class OStream {
    const sizing: bool
    const maxSize: nat
    var out: Bytes
    var written: nat

    constructor (sizing: bool, maxSize: nat, out: Bytes)
      ensures this.sizing == sizing && this.maxSize == maxSize && this.out == out && written == 0 && Ok()
    {
      this.sizing, this.maxSize, this.out, written := sizing, maxSize, out, 0;
    }

    /** A stream with a buffer never holds more than fits. */
    ghost predicate Ok()
      reads this
    {
      sizing || written <= maxSize
    }

    ghost predicate Did(out0: Bytes, written0: nat, bytes: Option<Bytes>, ok: bool)
      reads this
    {
      Emits(sizing, maxSize, out0, written0, bytes, ok, out, written)
    }

    method Write(bytes: Bytes) returns (ok: bool)
      requires Ok()
      modifies this
      ensures Ok() && Did(old(out), old(written), Some(bytes), ok)
    {
      if !sizing {
        if written + |bytes| > maxSize { return false; }
        out := out + bytes;
      }
      written := written + |bytes|;
      ok := true;
    }

    /** The write that only counts. */
    method Count(size: nat)
      requires sizing
      requires Ok()
      modifies this
      ensures Ok() && out == old(out) && written == old(written) + size
    {
      written := written + size;
    }

    method WriteVarint(v: nat) returns (ok: bool)
      requires Ok()
      modifies this
      ensures Ok() && Did(old(out), old(written), Some(Varint(v)), ok)
    {
      var bytes := EncodeVarint(v);
      ok := Write(bytes);
    }

    method WriteTag(wireType: nat, tag: nat) returns (ok: bool)
      requires Ok()
      modifies this
      ensures Ok() && Did(old(out), old(written), Some(Tag(wireType, tag)), ok)
    {
      ok := WriteVarint(tag * 8 + wireType);
    }

    /** pb_encode_string: length and bytes. */
    method WriteDelimited(bytes: Bytes) returns (ok: bool)
      requires Ok()
      modifies this
      ensures Ok() && Did(old(out), old(written), Some(Delimited(bytes)), ok)
    {
      ghost var out0, written0 := out, written;
      ok := WriteVarint(|bytes|);
      if !ok {
        EmitsNoMore(sizing, maxSize, out0, written0, Some(Varint(|bytes|)), Some(bytes), out, written);
        return;
      }
      ghost var out1, written1 := out, written;
      ok := Write(bytes);
      EmitsThen(sizing, maxSize, out0, written0, Some(Varint(|bytes|)), out1, written1, Some(bytes), ok, out, written);
    }

    // -------------------------------------------------------------- values

    method EncodeValue(kind: Kind, v: Value) returns (ok: bool)
      requires Typed(kind, v)
      requires Ok()
      modifies this
      ensures Ok() && Did(old(out), old(written), NanopbMessage.EncodeValue(kind, v), ok)
      decreases kind, 1
    {
      match kind {
        case VarintKind(_) => ok := WriteVarint(ToUnsigned(v.i));
        case UVarintKind(_) => ok := WriteVarint(v.i);
        case SVarintKind(_) => ok := WriteVarint(ZigZag(v.i));
        case Fixed32Kind => ok := Write(Little(v.i, 4));
        case Fixed64Kind => ok := Write(Little(v.i, 8));
        case BytesKind(capacity) =>
          if |v.bytes| > capacity { return false; }
          ok := WriteDelimited(v.bytes);
        case StringKind(_) => ok := WriteDelimited(v.bytes);
        case FixedLengthBytesKind(_) => ok := WriteDelimited(v.bytes);
        case SubmessageKind(fields) => ok := EncodeSubmessage(fields, v.slots);
      }
    }

    /** Sizes the message in a first walk, writes the size, and writes the message in a second walk.  The two walks
        always agree. */
    method EncodeSubmessage(fields: seq<Field>, slots: seq<Slot>) returns (ok: bool)
      requires TypedSlots(fields, slots)
      requires Ok()
      modifies this
      ensures Ok()
      ensures var s := EncodeMessage(fields, slots);
              Did(old(out), old(written), if s.None? then None else Some(Delimited(s.value)), ok)
      decreases fields, 4
    {
      var sizer := new OStream(true, 0, []);
      ok := sizer.Encode(fields, slots);
      if !ok { return; }
      ghost var s := EncodeMessage(fields, slots).value;
      var size := sizer.written;
      ghost var out0, written0 := out, written;
      ok := WriteVarint(size);
      if !ok {
        EmitsNoMore(sizing, maxSize, out0, written0, Some(Varint(size)), Some(s), out, written);
        return;
      }
      ghost var out1, written1 := out, written;
      if sizing {
        Count(size);
      } else if written + size > maxSize {
        ok := false;
      } else {
        var writer := new OStream(false, size, out);
        var status := writer.Encode(fields, slots);
        written := written + writer.written;
        out := writer.out;
        ok := status && writer.written == size;
      }
      EmitsThen(sizing, maxSize, out0, written0, Some(Varint(size)), out1, written1, Some(s), ok, out, written);
    }

    // -------------------------------------------------------------- fields

    /** encode_array: packed whenever the type allows it. */
    method EncodeArray(field: Field, items: seq<Value>) returns (ok: bool)
      requires field.rule.Repeated? && forall i :: 0 <= i < |items| ==> Typed(field.kind, items[i])
      requires Ok()
      modifies this
      ensures Ok() && Did(old(out), old(written), NanopbMessage.EncodeArray(field, items), ok)
      decreases field, 2
    {
      EmitsNothing(sizing, maxSize, out, written);
      if |items| == 0 { return true; }
      if |items| > field.rule.max { return false; }
      if Packable(field.kind) {
        ok := EncodePacked(field, items);
      } else {
        ok := EncodeEach(field.kind, items, Some((WireType(field.kind), field.tag)));
      }
    }

    method EncodePacked(field: Field, items: seq<Value>) returns (ok: bool)
      requires Packable(field.kind) && forall i :: 0 <= i < |items| ==> Typed(field.kind, items[i])
      requires Ok()
      modifies this
      ensures Ok()
      ensures var s := EncodeItems(field.kind, items, |items|, []);
              Did(old(out), old(written),
                  if s.None? then None else Some(Tag(WT_STRING, field.tag) + Delimited(s.value)), ok)
      decreases field, 1
    {
      ghost var out0, written0 := out, written;
      PackedExists(field.kind, items, |items|);
      ghost var s := EncodeItems(field.kind, items, |items|, []);
      ghost var tag := Some(Tag(WT_STRING, field.tag));
      ok := WriteTag(WT_STRING, field.tag);
      if !ok {
        EmitsNoMore(sizing, maxSize, out0, written0, tag, Some(Delimited(s.value)), out, written);
        return;
      }
      ghost var out1, written1 := out, written;
      ok := EncodePackedBody(field.kind, items);
      EmitsThen(sizing, maxSize, out0, written0, tag, out1, written1, Some(Delimited(s.value)), ok, out, written);
    }

    method EncodePackedBody(kind: Kind, items: seq<Value>) returns (ok: bool)
      requires Packable(kind) && (forall i :: 0 <= i < |items| ==> Typed(kind, items[i]))
      requires EncodeItems(kind, items, |items|, []).Some?
      requires Ok()
      modifies this
      ensures Ok() && Did(old(out), old(written), Some(Delimited(EncodeItems(kind, items, |items|, []).value)), ok)
      decreases kind, 5
    {
      ghost var s := EncodeItems(kind, items, |items|, []);
      var size := PackedSize(kind, items);
      ghost var out0, written0 := out, written;
      ok := WriteVarint(size);
      if !ok {
        EmitsNoMore(sizing, maxSize, out0, written0, Some(Varint(size)), s, out, written);
        return;
      }
      ghost var out1, written1 := out, written;
      if sizing {
        Count(size);
      } else {
        ok := EncodeEach(kind, items, None);
      }
      EmitsThen(sizing, maxSize, out0, written0, Some(Varint(size)), out1, written1, s, ok, out, written);
    }

    /** The size of a packed array: known for fixed-width items, counted for the others. */
    method PackedSize(kind: Kind, items: seq<Value>) returns (size: nat)
      requires Packable(kind) && (forall i :: 0 <= i < |items| ==> Typed(kind, items[i]))
      requires EncodeItems(kind, items, |items|, []).Some?
      ensures size == |EncodeItems(kind, items, |items|, []).value|
      decreases kind, 4
    {
      if kind.Fixed32Kind? {
        FixedSize(kind, items, |items|, 4);
        size := 4 * |items|;
      } else if kind.Fixed64Kind? {
        FixedSize(kind, items, |items|, 8);
        size := 8 * |items|;
      } else {
        var sizer := new OStream(true, 0, []);
        var ok := sizer.EncodeEach(kind, items, None);
        size := sizer.written;
      }
    }

    /** Writes the items one after the other, each behind a tag if there is one. */
    method EncodeEach(kind: Kind, items: seq<Value>, tag: Option<(nat, nat)>) returns (ok: bool)
      requires forall i :: 0 <= i < |items| ==> Typed(kind, items[i])
      requires Ok()
      modifies this
      ensures Ok() && Did(old(out), old(written), EncodeItems(kind, items, |items|, TagBytes(tag)), ok)
      decreases kind, 3
    {
      ghost var out0, written0 := out, written;
      EmitsNothing(sizing, maxSize, out, written);
      ok := true;
      var i := 0;
      while i < |items|
        invariant 0 <= i <= |items|
        invariant ok && Ok() && Did(out0, written0, EncodeItems(kind, items, i, TagBytes(tag)), true)
      {
        ghost var before := EncodeItems(kind, items, i, TagBytes(tag));
        ghost var item := Append(Some(TagBytes(tag)), NanopbMessage.EncodeValue(kind, items[i]));
        ghost var out1, written1 := out, written;
        ok := EncodeItem(kind, items[i], tag);
        EmitsThen(sizing, maxSize, out0, written0, before, out1, written1, item, ok, out, written);
        i := i + 1;
        if !ok {
          ItemsFail(sizing, maxSize, out0, written0, kind, items, i, TagBytes(tag), out, written);
          return;
        }
      }
    }

    method EncodeItem(kind: Kind, v: Value, tag: Option<(nat, nat)>) returns (ok: bool)
      requires Typed(kind, v)
      requires Ok()
      modifies this
      ensures Ok() && Did(old(out), old(written), Append(Some(TagBytes(tag)), NanopbMessage.EncodeValue(kind, v)), ok)
      decreases kind, 2
    {
      ghost var out0, written0 := out, written;
      ghost var value := NanopbMessage.EncodeValue(kind, v);
      EmitsNothing(sizing, maxSize, out, written);
      if tag.Some? {
        ok := WriteTag(tag.value.0, tag.value.1);
        if !ok {
          EmitsNoMore(sizing, maxSize, out0, written0, Some(TagBytes(tag)), value, out, written);
          return;
        }
      }
      ghost var out1, written1 := out, written;
      assert Did(out0, written0, Some(TagBytes(tag)), true);
      ok := EncodeValue(kind, v);
      EmitsThen(sizing, maxSize, out0, written0, Some(TagBytes(tag)), out1, written1, value, ok, out, written);
    }

    /** encode_basic_field. */
    method EncodeField(field: Field, slot: Slot) returns (ok: bool)
      requires TypedSlot(field, slot)
      requires Ok()
      modifies this
      ensures Ok() && Did(old(out), old(written), NanopbMessage.EncodeField(field, slot), ok)
      decreases field, 3
    {
      EmitsNothing(sizing, maxSize, out, written);
      match field.rule {
        case Required => ok := EncodeItem(field.kind, slot.items[0], Some((WireType(field.kind), field.tag)));
        case Optional =>
          ok := true;
          if slot.has { ok := EncodeItem(field.kind, slot.items[0], Some((WireType(field.kind), field.tag))); }
        case Singular =>
          ok := true;
          if !IsDefault(field, slot) {
            ok := EncodeItem(field.kind, slot.items[0], Some((WireType(field.kind), field.tag)));
          }
        case Repeated(_) => ok := EncodeArray(field, slot.items);
        case Oneof(_) =>
          ok := true;
          if slot.has { ok := EncodeItem(field.kind, slot.items[0], Some((WireType(field.kind), field.tag))); }
      }
    }

    /** pb_encode: the fields in descriptor order. */
    method Encode(fields: seq<Field>, slots: seq<Slot>) returns (ok: bool)
      requires TypedSlots(fields, slots)
      requires Ok()
      modifies this
      ensures Ok() && Did(old(out), old(written), EncodeMessage(fields, slots), ok)
      decreases fields, 3
    {
      ghost var out0, written0 := out, written;
      EmitsNothing(sizing, maxSize, out, written);
      ok := true;
      var i := 0;
      while i < |fields|
        invariant 0 <= i <= |fields|
        invariant ok && Ok() && Did(out0, written0, EncodeFields(fields, slots, i), true)
      {
        ghost var out1, written1 := out, written;
        ok := EncodeField(fields[i], slots[i]);
        EmitsThen(sizing, maxSize, out0, written0, EncodeFields(fields, slots, i), out1, written1,
                  NanopbMessage.EncodeField(fields[i], slots[i]), ok, out, written);
        i := i + 1;
        if !ok {
          FieldsFail(sizing, maxSize, out0, written0, fields, slots, i, out, written);
          return;
        }
      }
    }
  }

  function TagBytes(tag: Option<(nat, nat)>): Bytes { if tag.None? then [] else Tag(tag.value.0, tag.value.1) }

  /** Scalars of packable types are never refused. */
  lemma {:induction false} PackedExists(kind: Kind, items: seq<Value>, n: nat)
    requires Packable(kind) && n <= |items| && forall i :: 0 <= i < |items| ==> Typed(kind, items[i])
    ensures EncodeItems(kind, items, n, []).Some?
  {
    if n == 0 {
    } else {
      PackedExists(kind, items, n - 1);
    }
  }

  lemma {:induction false} FixedSize(kind: Kind, items: seq<Value>, n: nat, width: nat)
    requires n <= |items| && forall i :: 0 <= i < |items| ==> Typed(kind, items[i])
    requires (kind.Fixed32Kind? && width == 4) || (kind.Fixed64Kind? && width == 8)
    ensures EncodeItems(kind, items, n, []).Some? && |EncodeItems(kind, items, n, []).value| == width * n
  {
    if n == 0 {
    } else {
      FixedSize(kind, items, n - 1, width);
    }
  }

  /** A stream that could not take the first i items cannot take all of them. */
  lemma {:induction false} ItemsFail(sizing: bool, maxSize: nat, out: Bytes, written: nat, kind: Kind,
                                     items: seq<Value>, i: nat, before: Bytes, out': Bytes, written': nat)
    requires i <= |items| && forall k :: 0 <= k < |items| ==> Typed(kind, items[k])
    requires Emits(sizing, maxSize, out, written, EncodeItems(kind, items, i, before), false, out', written')
    ensures Emits(sizing, maxSize, out, written, EncodeItems(kind, items, |items|, before), false, out', written')
    decreases |items| - i
  {
    if i == |items| {
    } else {
      EmitsNoMore(sizing, maxSize, out, written, EncodeItems(kind, items, i, before),
                  Append(Some(before), EncodeValue(kind, items[i])), out', written');
      ItemsFail(sizing, maxSize, out, written, kind, items, i + 1, before, out', written');
    }
  }

  lemma {:induction false} FieldsFail(sizing: bool, maxSize: nat, out: Bytes, written: nat, fields: seq<Field>,
                                      slots: seq<Slot>, i: nat, out': Bytes, written': nat)
    requires i <= |fields| && TypedSlots(fields, slots)
    requires Emits(sizing, maxSize, out, written, EncodeFields(fields, slots, i), false, out', written')
    ensures Emits(sizing, maxSize, out, written, EncodeMessage(fields, slots), false, out', written')
    decreases |fields| - i
  {
    if i == |fields| {
    } else {
      EmitsNoMore(sizing, maxSize, out, written, EncodeFields(fields, slots, i), EncodeField(fields[i], slots[i]),
        out', written');
      FieldsFail(sizing, maxSize, out, written, fields, slots, i + 1, out', written');
    }
  }

  /** pb_get_encoded_size: exactly the number of bytes that encoding into a large enough buffer writes. */
  method GetEncodedSize(fields: seq<Field>, slots: seq<Slot>) returns (size: Option<nat>)
    requires TypedSlots(fields, slots)
    ensures var s := EncodeMessage(fields, slots); size == if s.None? then None else Some(|s.value|)
  {
    var stream := new OStream(true, 0, []);
    var ok := stream.Encode(fields, slots);
    size := if ok then Some(stream.written) else None;
  }
}
