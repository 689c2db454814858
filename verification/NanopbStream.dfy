/** The decoder's loops over an input stream and its substreams (pb_decode.c, pb_common.c), each tied to what
    NanopbDecode says the bytes mean. */
module NanopbStream {
  import opened InternalKeys
  import opened NanopbVarint
  import opened Varints
  import opened NanopbMessage
  import opened NanopbDecode

  /** The outcome of a read: the value, and the stream stands behind it; or an error. */
  ghost predicate Took<T>(d: Option<(T, Bytes)>, r: Option<T>, rest: Bytes) {
    if d.None? then r.None? else r == Some(d.value.0) && rest == d.value.1
  }

  class IStream {
    var buf: Bytes            // from the read pointer on
    var bytesLeft: nat        // how much of it is this stream's

    ghost predicate Ok()
      reads this
    {
      bytesLeft <= |buf|
    }

    ghost function Rest(): Bytes
      reads this
      requires Ok()
    {
      buf[..bytesLeft]
    }

    /** What lies in memory behind the stream: nothing a read may touch. */
    ghost function Beyond(): Bytes
      reads this
      requires Ok()
    {
      buf[bytesLeft..]
    }

    constructor (buf: Bytes, size: nat)
      requires size <= |buf|
      ensures Ok() && Rest() == buf[..size] && Beyond() == buf[size..]
    {
      this.buf, bytesLeft := buf, size;
    }

    method Read(n: nat) returns (r: Option<Bytes>)
      requires Ok()
      modifies this
      ensures Ok() && Beyond() == old(Beyond()) && Took(Take(old(Rest()), n), r, Rest())
      ensures r.None? ==> Rest() == old(Rest())
    {
      if bytesLeft < n { return None; }
      r := Some(buf[..n]);
      assert buf[..n] == Rest()[..n] && buf[n..][..bytesLeft - n] == Rest()[n..];
      assert buf[n..][bytesLeft - n..] == buf[bytesLeft..];
      buf, bytesLeft := buf[n..], bytesLeft - n;
    }

    method ReadByte() returns (r: Option<Byte>)
      requires Ok()
      modifies this
      ensures Ok() && Beyond() == old(Beyond()) && (r.None? <==> |old(Rest())| == 0)
      ensures r.Some? ==> r.value == old(Rest())[0] && Rest() == old(Rest())[1..]
    {
      if bytesLeft == 0 { return None; }
      r := Some(buf[0]);
      assert buf[1..][bytesLeft - 1..] == buf[bytesLeft..];
      buf, bytesLeft := buf[1..], bytesLeft - 1;
    }

    method ReadVarint64() returns (r: Option<nat>)
      requires Ok()
      modifies this
      ensures Ok() && Beyond() == old(Beyond()) && Took(DecodeVarint(old(Rest())), r, Rest())
      ensures r.Some? ==> r.value < TWO_TO_64
    {
      hide Pow2;
      ghost var all := Rest();
      var bitpos: nat, result: nat := 0, 0;
      while true
        invariant Ok() && Beyond() == old(Beyond()) && ReadVarint(Rest(), result, bitpos) == DecodeVarint(all)
        decreases bytesLeft
      {
        if bitpos >= 64 { return None; }
        var b := ReadByte();
        if b.None? { return None; }
        result := (result + (b.value % 128) * Pow2(bitpos)) % TWO_TO_64;
        bitpos := NextBitpos(bitpos);
        if b.value < 128 { return Some(result); }
      }
    }

    method ReadVarint32() returns (r: Option<nat>)
      requires Ok()
      modifies this
      ensures Ok() && Beyond() == old(Beyond()) && Took(DecodeVarint32(old(Rest())), r, Rest())
    {
      hide Pow2, BitOr, OrShifted;
      ghost var all := Rest();
      var first := ReadByte();
      if first.None? { return None; }
      if first.value < 128 { return Some(first.value); }
      var bitpos: nat, result: nat := 7, first.value % 128;
      while true
        invariant Ok() && Beyond() == old(Beyond()) &&
                  NanopbVarint.ReadVarint32(Rest(), result, bitpos) == DecodeVarint32(all)
        decreases bytesLeft
      {
        var b := ReadByte();
        if b.None? { return None; }
        var low := b.value % 128;
        if bitpos >= 32 {
          var signExtension := if bitpos < 63 then 0xff else 0x01;
          if low != 0 && (result < TWO_TO_31 || b.value != signExtension) { return None; }
        } else {
          result := OrShifted(result, low, bitpos);
        }
        bitpos := NextBitpos(bitpos);
        if b.value < 128 {
          return if bitpos == 35 && low >= 16 then None else Some(result);
        }
      }
    }

    /** pb_make_string_substream: the next bytes, as many as the length says, become a stream of their own; this
        stream's read pointer stays where it is until the substream is closed. */
    method MakeSubstream() returns (r: Option<IStream>)
      requires Ok()
      modifies this
      ensures r.None? <==> TakeDelimited(old(Rest())).None?
      ensures r.None? ==> Ok() && Beyond() == old(Beyond())
      ensures r.Some? ==> fresh(r.value) && Opened(TakeDelimited(old(Rest())).value, old(Beyond()), r.value)
    {
      var size := ReadVarint32();
      if size.None? { return None; }
      if bytesLeft < size.value { return None; }
      var sub := new IStream(buf, size.value);
      SplitAt(buf, size.value, bytesLeft);
      bytesLeft := bytesLeft - size.value;
      r := Some(sub);
    }

    /** sub reads the delimited part; behind it lie the rest of this stream and what lies behind this stream. */
    ghost predicate Opened(d: (Bytes, Bytes), beyond: Bytes, sub: IStream)
      reads this, sub
    {
      sub.Ok() && sub != this && bytesLeft == |d.1| && sub.Rest() == d.0 && sub.Beyond() == d.1 + beyond
    }

    /** pb_close_string_substream: skips what is left of the substream and goes on behind it. */
    method CloseSubstream(sub: IStream, ghost after: Bytes, ghost beyond: Bytes)
      requires sub.Ok() && sub != this && bytesLeft == |after| && sub.Beyond() == after + beyond
      modifies this, sub
      ensures Ok() && Rest() == after && Beyond() == beyond
    {
      ghost var n := sub.bytesLeft;
      if sub.bytesLeft != 0 {
        var skipped := sub.Read(sub.bytesLeft);
      }
      assert sub.buf == sub.Beyond();
      buf := sub.buf;
    }

    /** A length and that many bytes, for values that are read in one go. */
    method ReadDelimited() returns (r: Option<Bytes>)
      requires Ok()
      modifies this
      ensures Ok() && Beyond() == old(Beyond()) && Took(TakeDelimited(old(Rest())), r, Rest())
    {
      var size := ReadVarint32();
      if size.None? { return None; }
      r := Read(size.value);
    }

    method Skip(wireType: nat) returns (ok: bool)
      requires Ok()
      modifies this
      ensures Ok() && Beyond() == old(Beyond())
      ensures var d := SkipField(wireType, old(Rest())); if d.None? then !ok else ok && Rest() == d.value
    {
      if wireType == WT_VARINT {
        ok := SkipVarint();
      } else if wireType == WT_64BIT {
        var r := Read(8);
        ok := r.Some?;
      } else if wireType == WT_STRING {
        var r := ReadDelimited();
        ok := r.Some?;
      } else if wireType == WT_32BIT {
        var r := Read(4);
        ok := r.Some?;
      } else {
        ok := false;
      }
    }

    method SkipVarint() returns (ok: bool)
      requires Ok()
      modifies this
      ensures Ok() && Beyond() == old(Beyond())
      ensures var d := NanopbDecode.SkipVarint(old(Rest())); if d.None? then !ok else ok && Rest() == d.value
    {
      ghost var all := Rest();
      while true
        invariant Ok() && Beyond() == old(Beyond())
        invariant NanopbDecode.SkipVarint(Rest()) == NanopbDecode.SkipVarint(all)
        decreases bytesLeft
      {
        var b := ReadByte();
        if b.None? { return false; }
        if b.value < 128 { return true; }
      }
    }

    // -------------------------------------------------------------- values

    method ReadValue(kind: Kind, cur: Value) returns (r: Option<Value>)
      requires Ok() && ShapedValue(kind, cur)
      modifies this
      ensures Ok() && Beyond() == old(Beyond()) && Took(DecodeValue(kind, old(Rest()), cur), r, Rest())
      decreases kind, 2
    {
      if kind.SubmessageKind? {
        r := ReadSubmessage(kind, cur);
      } else {
        r := ReadPlain(kind, cur);
      }
    }

    /** Everything but submessages. */
    method ReadPlain(kind: Kind, ghost cur: Value) returns (r: Option<Value>)
      requires Ok() && !kind.SubmessageKind? && ShapedValue(kind, cur)
      modifies this
      ensures Ok() && Beyond() == old(Beyond()) && Took(DecodeValue(kind, old(Rest()), cur), r, Rest())
    {
      match kind {
        case VarintKind(size) =>
          var v := ReadVarint64();
          if v.None? { return None; }
          var value := if size == 8 then ToInt64(v.value) else ToInt32(v.value);
          r := if InRange(size, true, value) then Some(Int(value)) else None;
        case UVarintKind(size) =>
          var v := ReadVarint64();
          if v.None? { return None; }
          r := if InRange(size, false, v.value) then Some(Int(v.value)) else None;
        case SVarintKind(size) =>
          var v := ReadVarint64();
          if v.None? { return None; }
          var value := UnZigZag(v.value);
          r := if InRange(size, true, value) then Some(Int(value)) else None;
        case Fixed32Kind =>
          var w := Read(4);
          r := if w.Some? then Some(Int(FromLittle(w.value))) else None;
        case Fixed64Kind =>
          var w := Read(8);
          r := if w.Some? then Some(Int(FromLittle(w.value))) else None;
        case BytesKind(capacity) =>
          var b := ReadDelimited();
          r := if b.Some? && |b.value| <= capacity then Some(Raw(b.value)) else None;
        case StringKind(capacity) =>
          var b := ReadDelimited();
          r := if b.Some? && |b.value| + 1 <= capacity then Some(Raw(CString(b.value))) else None;
        case FixedLengthBytesKind(size) =>
          var b := ReadDelimited();
          if b.Some? && |b.value| == 0 { return Some(Raw(seq(size, _ => 0))); }
          r := if b.Some? && |b.value| == size then Some(Raw(b.value)) else None;
      }
    }

    method ReadSubmessage(kind: Kind, cur: Value) returns (r: Option<Value>)
      requires Ok() && kind.SubmessageKind? && ShapedValue(kind, cur)
      modifies this
      ensures Ok() && Beyond() == old(Beyond()) && Took(DecodeValue(kind, old(Rest()), cur), r, Rest())
      decreases kind, 1
    {
      ghost var beyond := Beyond();
      ghost var d := TakeDelimited(Rest());
      var sub := MakeSubstream();
      if sub.None? { return None; }
      var slots := sub.value.DecodeNoInit(kind.fields, cur.slots);
      CloseSubstream(sub.value, d.value.1, beyond);
      r := if slots.Some? then Some(Message(slots.value)) else None;
    }

    method ReadFresh(kind: Kind) returns (r: Option<Value>)
      requires Ok()
      modifies this
      ensures Ok() && Beyond() == old(Beyond()) && Took(DecodeFresh(kind, old(Rest())), r, Rest())
      decreases kind, 3
    {
      DefaultIsShaped(kind);
      r := ReadValue(kind, DefaultValue(kind));
    }

    // -------------------------------------------------------------- fields

    method ReadPacked(kind: Kind, before: seq<Value>, max: nat) returns (r: Option<seq<Value>>)
      requires Ok()
      modifies this
      ensures Ok() && Beyond() == old(Beyond())
      ensures r.None? <==> DecodePacked(kind, old(Rest()), before, max).None?
      ensures r.Some? ==> Took(DecodePacked(kind, old(Rest()), before, max), r, Rest())
      decreases kind, 4
    {
      ghost var all := Rest();
      var items := before;
      while bytesLeft > 0 && |items| < max
        invariant Ok() && Beyond() == old(Beyond())
        invariant DecodePacked(kind, Rest(), items, max) == DecodePacked(kind, all, before, max)
        decreases max - |items|
      {
        var v := ReadFresh(kind);
        if v.None? { return None; }
        items := items + [v.value];
      }
      r := Some(items);
    }

    /** decode_static_field. */
    method ReadSlot(field: Field, wireType: nat, slot: Slot) returns (r: Option<Slot>)
      requires Ok() && ShapedSlot(field, slot)
      modifies this
      ensures Ok() && Beyond() == old(Beyond()) && Took(DecodeSlot(field, wireType, old(Rest()), slot), r, Rest())
      decreases field, 1
    {
      match field.rule {
        case Repeated(max) =>
          if wireType == WT_STRING && Packable(field.kind) {
            r := ReadPackedSlot(field, max, slot);
          } else if |slot.items| >= max {
            r := None;
          } else {
            var v := ReadFresh(field.kind);
            r := if v.Some? then Some(slot.(items := slot.items + [v.value])) else None;
          }
        case Oneof(_) =>
          var v := ReadFresh(field.kind);
          r := if v.Some? then Some(Slot(true, [v.value])) else None;
        case _ =>
          var v := ReadValue(field.kind, slot.items[0]);
          r := if v.Some? then Some(Slot(field.rule.Optional? || slot.has, [v.value])) else None;
      }
    }

    method ReadPackedSlot(field: Field, max: nat, slot: Slot) returns (r: Option<Slot>)
      requires Ok() && ShapedSlot(field, slot) && field.rule == Repeated(max) && Packable(field.kind)
      modifies this
      ensures Ok() && Beyond() == old(Beyond()) && Took(DecodeSlot(field, WT_STRING, old(Rest()), slot), r, Rest())
      decreases field, 0
    {
      ghost var beyond := Beyond();
      ghost var d := TakeDelimited(Rest());
      var sub := MakeSubstream();
      if sub.None? { return None; }
      var items := sub.value.ReadPacked(field.kind, slot.items, max);
      var overflow := sub.value.bytesLeft != 0;
      CloseSubstream(sub.value, d.value.1, beyond);
      r := if items.Some? && !overflow then Some(slot.(items := items.value)) else None;
    }

    // -------------------------------------------------------------- messages

    /** pb_decode_noinit. */
    method DecodeNoInit(fields: seq<Field>, start: seq<Slot>) returns (r: Option<seq<Slot>>)
      requires Ok() && Shaped(fields, start)
      modifies this
      ensures Ok() && Beyond() == old(Beyond()) && r == NanopbDecode.DecodeNoInit(fields, old(Rest()), start)
      decreases fields, 3
    {
      ghost var all := Rest();
      var slots, seen := start, {};
      var iter := new FieldIter(fields);
      while bytesLeft > 0
        invariant Ok() && Beyond() == old(Beyond()) && iter.Ok() && iter.fields == fields && Shaped(fields, slots)
        invariant DecodeTags(fields, Rest(), Progress(slots, iter.pos, seen)) ==
                  DecodeTags(fields, all, Progress(start, 0, {}))
        decreases bytesLeft
      {
        var t := ReadVarint32();
        if t.None? { return None; }
        if t.value == 0 { break; }
        var step := ReadField(fields, iter, t.value / 8, t.value % 8, slots, seen);
        if step.None? { return None; }
        slots, seen := step.value.0, step.value.1;
      }
      var complete := iter.CheckRequired(seen);
      r := if complete then Some(slots) else None;
    }

    /** What follows one tag. */
    method ReadField(fields: seq<Field>, iter: FieldIter, tag: nat, wireType: nat, slots: seq<Slot>, seen: set<nat>)
      returns (r: Option<(seq<Slot>, set<nat>)>)
      requires Ok() && iter.Ok() && iter.fields == fields && Shaped(fields, slots)
      modifies this, iter
      ensures Ok() && Beyond() == old(Beyond()) && iter.Ok()
      ensures var d := DecodeStep(fields, tag, wireType, old(Rest()), Progress(slots, old(iter.pos), seen));
              if d.None? then r.None?
              else r.Some? && Progress(r.value.0, iter.pos, r.value.1) == d.value.0 && Rest() == d.value.1
      decreases fields, 2
    {
      var found := iter.Find(tag);
      if !found {
        var ok := Skip(wireType);
        return if ok then Some((slots, seen)) else None;
      }
      if |fields| == 0 {
        // The empty message's terminator has been taken for a field.
        return None;
      }
      var field := fields[iter.pos];
      var now :=
        if field.rule.Required? && iter.requiredIndex < MAX_REQUIRED_FIELDS then seen + {iter.requiredIndex} else seen;
      var slot := ReadSlot(field, wireType, slots[iter.pos]);
      if slot.None? { return None; }
      r := Some((Store(fields, slots, iter.pos, slot.value), now));
    }
  }

  /** The field iterator, which goes round the descriptor. */
  class FieldIter {
    const fields: seq<Field>
    var pos: nat
    var requiredIndex: nat

    ghost predicate Ok()
      reads this
    {
      if |fields| == 0 then pos == 0 && requiredIndex == 0
      else pos < |fields| && requiredIndex == RequiredBefore(fields, pos)
    }

    constructor (fields: seq<Field>)
      ensures Ok() && this.fields == fields && pos == 0
    {
      this.fields, pos, requiredIndex := fields, 0, 0;
    }

    /** One field further; false when that was once round. */
    method Next() returns (more: bool)
      requires Ok()
      modifies this
      ensures Ok() && (|fields| > 0 ==> pos == Wrap(old(pos) + 1, |fields|))
      ensures more <==> |fields| > 0 && old(pos) + 1 < |fields|
    {
      if |fields| == 0 { return false; }
      if fields[pos].rule.Required? { requiredIndex := requiredIndex + 1; }
      pos := pos + 1;
      if pos == |fields| {
        pos, requiredIndex := 0, 0;
        return false;
      }
      more := true;
    }

    /** The terminator of an empty message has tag 0. */
    method Find(tag: nat) returns (found: bool)
      requires Ok()
      modifies this
      ensures Ok()
      ensures |fields| == 0 ==> (found <==> tag == 0)
      ensures |fields| > 0 ==> FindFrom(fields, old(pos), 0, tag) == (if found then Some(pos) else None)
      ensures !found ==> pos == old(pos)
    {
      if |fields| == 0 { return tag == 0; }
      var start := pos;
      ghost var steps := 0;
      while true
        invariant Ok() && steps < |fields| && pos == Wrap(start + steps, |fields|)
        invariant FindFrom(fields, start, 0, tag) == FindFrom(fields, start, steps, tag)
        decreases |fields| - steps
      {
        if fields[pos].tag == tag { return true; }
        var more := Next();
        steps := steps + 1;
        if pos == start { break; }
      }
      found := false;
    }

    /** The check at the end of pb_decode_noinit: walks to the last field to count the required ones, and looks for
        each of them, as far as the bitmap goes. */
    method CheckRequired(seen: set<nat>) returns (ok: bool)
      requires Ok()
      modifies this
      ensures ok <==> AllRequiredSeen(fields, seen)
    {
      if |fields| == 0 { return true; }
      var count, lastRequired := requiredIndex, fields[pos].rule.Required?;
      var more := true;
      while more
        invariant Ok()
        invariant if more then pos < |fields|
                  else count == RequiredBefore(fields, |fields| - 1) &&
                       lastRequired == fields[|fields| - 1].rule.Required?
        decreases more, |fields| - pos
      {
        count, lastRequired := requiredIndex, fields[pos].rule.Required?;
        more := Next();
      }
      if lastRequired { count := count + 1; }
      if count > MAX_REQUIRED_FIELDS { count := MAX_REQUIRED_FIELDS; }
      var i := 0;
      while i < count
        invariant 0 <= i <= count && forall k :: 0 <= k < i ==> k in seen
      {
        if i !in seen { return false; }
        i := i + 1;
      }
      ok := true;
    }
  }

  lemma SplitAt(buf: Bytes, n: nat, m: nat)
    requires n <= m <= |buf|
    ensures buf[..m][..n] == buf[..n] && buf[n..] == buf[..m][n..] + buf[m..]
  {
  }

  /** pb_decode. */
  method DecodeMessage(fields: seq<Field>, bytes: Bytes) returns (r: Option<seq<Slot>>)
    ensures r == Decode(fields, bytes)
  {
    DefaultsAreShaped(fields);
    var stream := new IStream(bytes, |bytes|);
    assert bytes[..|bytes|] == bytes;
    r := stream.DecodeNoInit(fields, Defaults(fields));
  }
}
