/** The log file in the numerals of its format (db/log_format.h, db/log_writer.cc): blocks of 32768 bytes, fragments
    with a header of seven bytes, of type 1 for a whole record, and 2, 3 and 4 for the first, a middle and the last
    part of one. */
module LogForms {
  import opened Crc32c
  import opened LogFile

  /** Four bytes of checksum over type and payload, two of length, one of type, the payload. */
  ghost predicate IsFragment(s: Bytes, kind: int, payload: Bytes) {
    |s| == 7 + |payload| && s[7..] == payload && s[6] as int == kind &&
    s[4] as int + 256 * s[5] as int == |payload| &&
    DecodeFixed32(s[0], s[1], s[2], s[3]) == Mask(Value([s[6]] + payload))
  }

  /** The bytes that the rest of a record takes up from file position p on.  Less than seven bytes at the end of a
      block are zeros; a part that is not the last one fills its block. */
  ghost predicate IsFrame(s: Bytes, p: nat, data: Bytes, first: bool)
    decreases |s|
  {
    var left := 32768 - p % 32768;
    if left < 7 then
      left <= |s| && (forall i :: 0 <= i < left ==> s[i] == 0) && IsFrame(s[left..], p + left, data, first)
    else if 7 + |data| <= left then IsFragment(s, if first then 1 else 4, data)
    else
      left <= |s| && IsFragment(s[..left], if first then 2 else 3, data[..left - 7]) &&
      IsFrame(s[left..], p + left, data[left - 7..], false)
  }

  /** The bytes that records take up from file position p on. */
  ghost predicate IsLog(s: Bytes, p: nat, records: seq<Bytes>)
    decreases |records|
  {
    if |records| == 0 then s == []
    else exists k: nat :: k <= |s| && IsFrame(s[..k], p, records[0], true) && IsLog(s[k..], p + k, records[1..])
  }

  lemma PhysicalIsFragment(t: bv8, payload: Bytes)
    requires |payload| <= 0xffff
    ensures IsFragment(Physical(t, payload), t as int, payload)
  {
    hide Extended, Mask;
    var s, crc := Physical(t, payload), Mask(Extended(Value([t]), payload));
    assert s[..4] == EncodeFixed32(crc);
    assert s[4..6] == LengthBytes(|payload|);
    assert s[4] == s[4..6][0] && s[5] == s[4..6][1];
    ExtendedTwice(0, [t], payload);
  }

  lemma ZerosInFront(rest: Bytes, p: nat, data: Bytes, first: bool)
    requires Left(p) < 7 && IsFrame(rest, p + Left(p), data, first)
    ensures IsFrame(Zeros(Left(p)) + rest, p, data, first)
  {
    hide IsFragment;
    var left := 32768 - p % 32768;
    ZerosAndMore(left, rest);
  }

  lemma ZerosAndMore(n: nat, rest: Bytes)
    ensures var s := Zeros(n) + rest; n <= |s| && (forall i :: 0 <= i < n ==> s[i] == 0) && s[n..] == rest
  {
  }

  lemma LastPart(p: nat, data: Bytes, first: bool)
    requires Left(p) >= 7 && 7 + |data| <= Left(p)
    ensures IsFrame(Physical(TypeOf(first, true), data), p, data, first)
  {
    hide IsFragment, Physical;
    PhysicalIsFragment(TypeOf(first, true), data);
  }

  lemma OtherPart(p: nat, data: Bytes, first: bool, rest: Bytes)
    requires Left(p) >= 7 && var n := Left(p) - 7; n < |data| && IsFrame(rest, p + Left(p), data[n..], false)
    ensures var n := Left(p) - 7; IsFrame(Physical(TypeOf(first, false), data[..n]) + rest, p, data, first)
  {
    hide IsFragment, Physical;
    var n := Left(p) - 7;
    var front := Physical(TypeOf(first, false), data[..n]);
    PhysicalIsFragment(TypeOf(first, false), data[..n]);
    var s := front + rest;
    assert s[..7 + n] == front && s[7 + n..] == rest;
  }

  lemma {:induction false} FrameIsSpelled(data: Bytes, p: nat, first: bool)
    ensures IsFrame(Frame(data, p, first), p, data, first)
    decreases |data|, if Left(p) <= HEADER_SIZE then 1 else 0
  {
    hide Physical, IsFrame;
    if Left(p) < 7 {
      FrameIsSpelled(data, p + Left(p), first);
      ZerosInFront(Frame(data, p + Left(p), first), p, data, first);
    } else {
      var n := FragmentLength(|data|, p);
      if n == |data| {
        LastPart(p, data, first);
        assert data[..n] == data;
        assert Physical(TypeOf(first, true), data) + [] == Physical(TypeOf(first, true), data);
      } else {
        FrameIsSpelled(data[n..], p + HEADER_SIZE + n, false);
        OtherPart(p, data, first, Frame(data[n..], p + HEADER_SIZE + n, false));
      }
    }
  }

  /** The file that the writer leaves has this form. */
  lemma {:induction false} LogIsSpelled(records: seq<Bytes>, p: nat)
    ensures IsLog(Log(records, p), p, records)
    decreases |records|
  {
    hide Frame, IsFrame;
    if |records| == 0 {
    } else {
      var f := Frame(records[0], p, true);
      var s := Log(records, p);
      FrameIsSpelled(records[0], p, true);
      LogIsSpelled(records[1..], p + |f|);
      assert s[..|f|] == f && s[|f|..] == Log(records[1..], p + |f|);
    }
  }
}
