/** The log file format: records cut into fragments over 32 KB blocks (db/log_writer.cc), and put together again
    from whatever a crash has left of the file (db/log_reader.cc). */
module LogFile {
  import opened InternalKeys
  import opened Crc32c
  import Octet

  type Bytes = seq<bv8>

  const BLOCK_SIZE: nat := 32768
  const HEADER_SIZE: nat := 7

  const ZERO_TYPE: bv8 := 0
  const FULL_TYPE: bv8 := 1
  const FIRST_TYPE: bv8 := 2
  const MIDDLE_TYPE: bv8 := 3
  const LAST_TYPE: bv8 := 4

  // ---------------------------------------------------------------- the bytes of a log

  function TypeOf(begin: bool, end: bool): bv8 {
    if begin && end then FULL_TYPE else if begin then FIRST_TYPE else if end then LAST_TYPE else MIDDLE_TYPE
  }

  /** Two bytes, the lower one first. */
  function LengthBytes(n: nat): (r: Bytes)
    requires n <= 0xffff
    ensures |r| == 2 && r[0] as int + 256 * r[1] as int == n
  {
    [Octet.Pattern(n % 256), Octet.Pattern(n / 256)]
  }

  /** Checksum of type and payload, length, type. */
  function Header(t: bv8, payload: Bytes): (h: Bytes)
    requires |payload| <= 0xffff
    ensures |h| == HEADER_SIZE
  {
    EncodeFixed32(Mask(Extended(Value([t]), payload))) + LengthBytes(|payload|) + [t]
  }

  function Physical(t: bv8, payload: Bytes): (r: Bytes)
    requires |payload| <= 0xffff
    ensures |r| == HEADER_SIZE + |payload|
  {
    Header(t, payload) + payload
  }

  function Zeros(n: nat): (z: Bytes)
    ensures |z| == n
  {
    seq(n, _ => 0)
  }

  /** What is left of the block at file position p. */
  function Left(p: nat): (n: nat)
    ensures 0 < n <= BLOCK_SIZE && (p + n) % BLOCK_SIZE == 0
  {
    BLOCK_SIZE - p % BLOCK_SIZE
  }

  function FragmentLength(size: nat, p: nat): (n: nat)
    requires Left(p) >= HEADER_SIZE
    ensures n <= size && HEADER_SIZE + n <= Left(p) && n <= 0xffff
  {
    if size < Left(p) - HEADER_SIZE then size else Left(p) - HEADER_SIZE
  }

  /** The bytes that the rest of a record takes up from file position p on. */
  function Frame(data: Bytes, p: nat, begin: bool): Bytes
    decreases |data|, if Left(p) <= HEADER_SIZE then 1 else 0
  {
    if Left(p) < HEADER_SIZE then Zeros(Left(p)) + Frame(data, p + Left(p), begin)
    else
      var n := FragmentLength(|data|, p);
      var end := n == |data|;
      Physical(TypeOf(begin, end), data[..n]) + if end then [] else Frame(data[n..], p + HEADER_SIZE + n, false)
  }

  /** The bytes that records take up from file position p on. */
  function Log(records: seq<Bytes>, p: nat): Bytes {
    if |records| == 0 then []
    else
      var f := Frame(records[0], p, true);
      f + Log(records[1..], p + |f|)
  }

  lemma TrailerStep(before: Bytes, data: Bytes, begin: bool)
    requires Left(|before|) < HEADER_SIZE
    ensures var p := |before|;
            before + Frame(data, p, begin) == (before + Zeros(Left(p))) + Frame(data, p + Left(p), begin)
  {
  }

  /** A header alone can fill the block. */
  lemma BlockIsFull(p: nat)
    ensures Left(p) == HEADER_SIZE ==> Left(p + HEADER_SIZE) == BLOCK_SIZE
  {
  }

  lemma FragmentStep(before: Bytes, data: Bytes, begin: bool)
    requires Left(|before|) >= HEADER_SIZE
    ensures var p := |before|;
            var n := FragmentLength(|data|, p);
            var end := n == |data|;
            var rest := if end then [] else Frame(data[n..], p + HEADER_SIZE + n, false);
            before + Frame(data, p, begin) == (before + Physical(TypeOf(begin, end), data[..n])) + rest
  {
  }

  lemma {:induction false} LogGrows(records: seq<Bytes>, p: nat, r: Bytes)
    ensures Log(records + [r], p) == Log(records, p) + Frame(r, p + |Log(records, p)|, true)
  {
    hide Frame;
    if |records| == 0 {
      assert records + [r] == [r];
      assert [r][1..] == [];
    } else {
      var f := Frame(records[0], p, true);
      LogGrows(records[1..], p + |f|, r);
      assert (records + [r])[1..] == records[1..] + [r];
    }
  }

  // ---------------------------------------------------------------- writing

  lemma MovedTogether(a: nat, b: nat, n: nat)
    requires a % BLOCK_SIZE == b % BLOCK_SIZE
    ensures (a + n) % BLOCK_SIZE == (b + n) % BLOCK_SIZE
  {
  }

  class Writer {
    var dest: Bytes
    var blockOffset: nat
    ghost var written: seq<Bytes>

    ghost predicate Ok()
      reads this
    {
      Placed() && dest == Log(written, 0)
    }

    /** The offset in the block follows from the length of the file; a full block counts as full or as new. */
    ghost predicate Placed()
      reads this`blockOffset, this`dest
    {
      blockOffset <= BLOCK_SIZE && blockOffset % BLOCK_SIZE == |dest| % BLOCK_SIZE
    }

    constructor ()
      ensures Ok() && written == []
    {
      dest, blockOffset, written := [], 0, [];
    }

    /** Goes on writing a log that already has a length. */
    constructor Reopen(file: Bytes, ghost records: seq<Bytes>)
      requires file == Log(records, 0)
      ensures Ok() && written == records && dest == file
    {
      hide Log;
      dest, blockOffset, written := file, |file| % BLOCK_SIZE, records;
    }

    method AddRecord(record: Bytes)
      requires Ok()
      modifies this
      ensures Ok() && written == old(written) + [record]
      ensures dest == old(dest) + Frame(record, |old(dest)|, true)
    {
      hide Frame, Physical, Log, Left, Writer.Placed;
      var left, begin := record, true;
      ghost var before := dest;
      while true
        invariant Placed() && before + Frame(record, |before|, true) == dest + Frame(left, |dest|, begin)
        invariant written == old(written)
        decreases |left|, if Left(|dest|) <= HEADER_SIZE then 1 else 0
      {
        if Left(|dest|) < HEADER_SIZE { TrailerStep(dest, left, begin); }
        SwitchBlock();
        var avail := BLOCK_SIZE - blockOffset - HEADER_SIZE;
        var fragmentLength := if |left| < avail then |left| else avail;
        var end := |left| == fragmentLength;
        FragmentStep(dest, left, begin);
        BlockIsFull(|dest|);
        EmitPhysicalRecord(TypeOf(begin, end), left[..fragmentLength]);
        left := left[fragmentLength..];
        begin := false;
        if end { break; }
      }
      LogGrows(written, 0, record);
      written := written + [record];
    }

    /** Fills what is left of the block with zeros when it is too short for a header. */
    method SwitchBlock()
      requires Placed()
      modifies this
      ensures Placed() && written == old(written) && BLOCK_SIZE - blockOffset == Left(|dest|) >= HEADER_SIZE
      ensures dest == if Left(|old(dest)|) < HEADER_SIZE then old(dest) + Zeros(Left(|old(dest)|)) else old(dest)
    {
      var leftover := BLOCK_SIZE - blockOffset;
      if leftover < HEADER_SIZE {
        if leftover > 0 {
          dest := dest + Zeros(leftover);
        }
        blockOffset := 0;
      }
    }

    method EmitPhysicalRecord(t: bv8, payload: Bytes)
      requires Placed() && blockOffset + HEADER_SIZE + |payload| <= BLOCK_SIZE
      modifies this
      ensures Placed() && dest == old(dest) + Physical(t, payload) && written == old(written)
    {
      hide Extended, Mask, Log, LengthBytes, EncodeFixed32;
      MovedTogether(blockOffset, |dest|, HEADER_SIZE + |payload|);
      var typeCrc := Extend(0, [t], 0);
      var crc := Extend(typeCrc, payload, 0);
      var header := EncodeFixed32(Mask(crc)) + LengthBytes(|payload|) + [t];
      dest := dest + header;
      dest := dest + payload;
      blockOffset := blockOffset + HEADER_SIZE + |payload|;
    }
  }

  // ---------------------------------------------------------------- what a file says, whatever is in it

  datatype Outcome = Eof | BadRecord | Fragment(kind: bv8, payload: Bytes)

  /** The end of the block at file position p, or of the file if that comes first. */
  function BlockEnd(file: Bytes, p: nat): (e: nat)
    requires p <= |file|
    ensures p <= e <= |file| && (p < |file| ==> p < e)
  {
    if p + Left(p) <= |file| then p + Left(p) else |file|
  }

  function LengthIn(block: Bytes): nat
    requires |block| >= HEADER_SIZE
  {
    block[4] as int + 256 * block[5] as int
  }

  predicate ChecksumOk(block: Bytes, length: nat)
    requires HEADER_SIZE + length <= |block|
  {
    Unmask(DecodeFixed32(block[0], block[1], block[2], block[3])) == Value(block[6..HEADER_SIZE + length])
  }

  /** The physical record at the start of the rest of a block, and how much of the block is done with then.  Only the
      last block of a file may not be full. */
  function Parse(block: Bytes, full: bool): (r: (Outcome, nat))
    requires |block| >= HEADER_SIZE
    ensures 0 < r.1 <= |block| && (r.0.Eof? ==> !full && r.1 == |block|)
  {
    var length := LengthIn(block);
    if HEADER_SIZE + length > |block| then (if full then BadRecord else Eof, |block|) else ParseWhole(block, length)
  }

  /** The same where the block goes on far enough. */
  function ParseWhole(block: Bytes, length: nat): (r: (Outcome, nat))
    requires HEADER_SIZE + length <= |block|
    ensures 0 < r.1 <= |block| && !r.0.Eof?
  {
    if block[6] == ZERO_TYPE && length == 0 then (BadRecord, |block|)
    else if !ChecksumOk(block, length) then (BadRecord, |block|)
    else (Fragment(block[6], block[HEADER_SIZE..HEADER_SIZE + length]), HEADER_SIZE + length)
  }

  predicate EndsBlock(e: nat) { e % BLOCK_SIZE == 0 }

  /** The physical record at position p, and the position behind it. */
  function NextPhysical(file: Bytes, p: nat): (r: (Outcome, nat))
    requires p <= |file|
    ensures p <= r.1 <= |file| && (!r.0.Eof? ==> p < r.1)
    decreases |file| - p
  {
    var e := BlockEnd(file, p);
    if e - p < HEADER_SIZE then
      if e == |file| then (Eof, |file|) else NextPhysical(file, e)
    else
      var (o, used) := Parse(file[p..e], EndsBlock(e));
      (o, p + used)
  }

  /** The next whole record from position p on, when scratch has been read of one already. */
  function NextRecord(file: Bytes, p: nat, inFragmented: bool, scratch: Bytes): (r: (Option<Bytes>, nat))
    requires p <= |file|
    ensures p <= r.1 <= |file| && (r.0.Some? ==> p < r.1)
    decreases |file| - p
  {
    var (o, q) := NextPhysical(file, p);
    match o
    case Eof => (None, q)
    case BadRecord => NextRecord(file, q, false, [])
    case Fragment(kind, payload) =>
      if kind == FULL_TYPE then (Some(payload), q)
      else if kind == FIRST_TYPE then NextRecord(file, q, true, payload)
      else if kind == MIDDLE_TYPE then
        NextRecord(file, q, inFragmented, if inFragmented then scratch + payload else scratch)
      else if kind == LAST_TYPE then
        if inFragmented then (Some(scratch + payload), q) else NextRecord(file, q, false, scratch)
      else NextRecord(file, q, false, [])
  }

  /** All records a reader gets from position p on. */
  function ReadAll(file: Bytes, p: nat): seq<Bytes>
    requires p <= |file|
    decreases |file| - p
  {
    var (r, q) := NextRecord(file, p, false, []);
    if r.None? then [] else [r.value] + ReadAll(file, q)
  }

  lemma SameBlock(file: Bytes, p: nat, q: nat)
    requires p <= |file| && p < q < BlockEnd(file, p)
    ensures BlockEnd(file, q) == BlockEnd(file, p)
  {
  }

  /** Too little for a header is passed over. */
  lemma ShortBlock(file: Bytes, p: nat)
    requires p <= |file|
    ensures BlockEnd(file, p) - p < HEADER_SIZE ==> NextPhysical(file, p) == NextPhysical(file, BlockEnd(file, p))
  {
  }

  lemma NothingAtEnd(file: Bytes)
    ensures NextPhysical(file, |file|) == (Eof, |file|)
  {
  }

  // ---------------------------------------------------------------- reading

  method CheckCrc(block: Bytes, length: nat) returns (ok: bool)
    requires HEADER_SIZE + length <= |block|
    ensures ok <==> ChecksumOk(block, length)
  {
    hide Unmask, DecodeFixed32, Extended;
    var expected := Unmask(DecodeFixed32(block[0], block[1], block[2], block[3]));
    var actual := Extend(0, block[6..HEADER_SIZE + length], 0);
    ok := actual == expected;
  }

  /** What is done with a complete header in the buffer. */
  method ParsePhysicalRecord(buffer: Bytes, eof: bool) returns (o: Outcome, used: nat)
    requires |buffer| >= HEADER_SIZE
    ensures (o, used) == Parse(buffer, !eof)
  {
    hide ChecksumOk, LengthIn;
    var length := LengthIn(buffer);
    var kind := buffer[6];
    if HEADER_SIZE + length > |buffer| {
      return if eof then Eof else BadRecord, |buffer|;
    }
    if kind == ZERO_TYPE && length == 0 {
      return BadRecord, |buffer|;
    }
    var ok := CheckCrc(buffer, length);
    if !ok {
      return BadRecord, |buffer|;
    }
    o, used := Fragment(kind, buffer[HEADER_SIZE..HEADER_SIZE + length]), HEADER_SIZE + length;
  }

  /** A reader that checks checksums and starts at the beginning of the file. */
  class Reader {
    const file: Bytes
    var filePos: nat
    var buffer: Bytes
    var eof: bool

    ghost predicate Ok()
      reads this
      ensures Ok() ==> |buffer| <= filePos <= |file|
    {
      |buffer| <= filePos <= |file| && buffer == file[filePos - |buffer|..filePos] && (eof ==> filePos == |file|) &&
      (|buffer| > 0 ==> filePos == BlockEnd(file, Pos()) && (eof <==> filePos % BLOCK_SIZE != 0)) &&
      (|buffer| == 0 && !eof ==> filePos % BLOCK_SIZE == 0)
    }

    ghost function Pos(): (p: nat)
      reads this
      requires |buffer| <= filePos
    {
      filePos - |buffer|
    }

    constructor (file: Bytes)
      ensures Ok() && Pos() == 0 && this.file == file
    {
      this.file, filePos, buffer, eof := file, 0, [], false;
    }

    /** The file's Read: the next block, or what there is of it. */
    method ReadBlock()
      requires Ok() && !eof && filePos % BLOCK_SIZE == 0
      modifies this
      ensures Ok() && Pos() == old(filePos)
      ensures filePos == BlockEnd(file, old(filePos))
      ensures eof <==> |file| - old(filePos) < BLOCK_SIZE
    {
      var n := if |file| - filePos < BLOCK_SIZE then |file| - filePos else BLOCK_SIZE;
      buffer := file[filePos..filePos + n];
      filePos := filePos + n;
      if n < BLOCK_SIZE { eof := true; }
    }

    method ReadPhysicalRecord() returns (o: Outcome)
      requires Ok()
      modifies this
      ensures Ok() && (o, Pos()) == NextPhysical(file, old(Pos()))
    {
      hide NextPhysical, Parse, LengthIn, ChecksumOk;
      ghost var start := Pos();
      while |buffer| < HEADER_SIZE
        invariant Ok() && NextPhysical(file, Pos()) == NextPhysical(file, start)
        decreases |file| - Pos(), |file| - filePos, !eof
      {
        ShortBlock(file, Pos());
        NothingAtEnd(file);
        if eof {
          buffer := [];
          return Eof;
        }
        buffer := [];
        ReadBlock();
      }
      o := TakeRecord();
    }

    method TakeRecord() returns (o: Outcome)
      requires Ok() && |buffer| >= HEADER_SIZE
      modifies this
      ensures Ok() && (o, Pos()) == NextPhysical(file, old(Pos()))
    {
      hide Parse;
      ghost var p, e := Pos(), filePos;
      var used;
      o, used := ParsePhysicalRecord(buffer, eof);
      buffer := buffer[used..];
      if Pos() < e { SameBlock(file, p, Pos()); }
    }

    method ReadRecord() returns (r: Option<Bytes>)
      requires Ok()
      modifies this
      ensures Ok() && (r, Pos()) == NextRecord(file, old(Pos()), false, [])
    {
      var inFragmented, scratch := false, [];
      ghost var start := Pos();
      while true
        invariant Ok() && NextRecord(file, Pos(), inFragmented, scratch) == NextRecord(file, start, false, [])
        decreases |file| - Pos()
      {
        var o := ReadPhysicalRecord();
        match o {
          case Eof => return None;
          case BadRecord => inFragmented, scratch := false, [];
          case Fragment(kind, payload) =>
            if kind == FULL_TYPE {
              return Some(payload);
            } else if kind == FIRST_TYPE {
              inFragmented, scratch := true, payload;
            } else if kind == MIDDLE_TYPE {
              if inFragmented { scratch := scratch + payload; }
            } else if kind == LAST_TYPE {
              if inFragmented { return Some(scratch + payload); }
            } else {
              inFragmented, scratch := false, [];
            }
        }
      }
    }
  }

  // ---------------------------------------------------------------- what was written is read

  lemma ChecksumIsStored(t: bv8, payload: Bytes)
    ensures Extended(Value([t]), payload) == Value([t] + payload)
  {
    hide Extended;
    ExtendedTwice(0, [t], payload);
  }

  lemma HeaderFields(t: bv8, payload: Bytes)
    requires |payload| <= 0xffff
    ensures var h := Header(t, payload);
            DecodeFixed32(h[0], h[1], h[2], h[3]) == Mask(Extended(Value([t]), payload)) &&
            h[4] as int + 256 * h[5] as int == |payload| && h[6] == t
  {
    hide Extended, Mask, DecodeFixed32, LengthBytes;
  }

  lemma BlockStartsWithHeader(t: bv8, payload: Bytes, rest: Bytes)
    requires |payload| <= 0xffff
    ensures var block, h := Physical(t, payload) + rest, Header(t, payload);
            |block| >= HEADER_SIZE + |payload| && (forall i :: 0 <= i < HEADER_SIZE ==> block[i] == h[i]) &&
            block[6..HEADER_SIZE + |payload|] == [h[6]] + payload
  {
    hide Header;
  }

  lemma LengthIsRight(t: bv8, payload: Bytes, rest: Bytes)
    requires |payload| <= 0xffff
    ensures var block := Physical(t, payload) + rest; LengthIn(block) == |payload| && block[6] == t
  {
    hide Header, Physical;
    BlockStartsWithHeader(t, payload, rest);
    HeaderFields(t, payload);
  }

  lemma ChecksumIsRight(t: bv8, payload: Bytes, rest: Bytes)
    requires |payload| <= 0xffff
    ensures ChecksumOk(Physical(t, payload) + rest, |payload|)
  {
    hide Header, Physical, Extended, Mask, Unmask, DecodeFixed32, Value;
    BlockStartsWithHeader(t, payload, rest);
    HeaderFields(t, payload);
    ChecksumIsStored(t, payload);
    MaskingIsUndone(Extended(Value([t]), payload));
  }

  lemma HeaderIsRight(t: bv8, payload: Bytes, rest: Bytes)
    requires |payload| <= 0xffff
    ensures var block := Physical(t, payload) + rest;
            LengthIn(block) == |payload| && block[6] == t && ChecksumOk(block, |payload|)
  {
    hide Header, ChecksumOk, LengthIn;
    LengthIsRight(t, payload, rest);
    ChecksumIsRight(t, payload, rest);
  }

  lemma PhysicalParses(t: bv8, payload: Bytes, rest: Bytes, full: bool)
    requires |payload| <= 0xffff && t != ZERO_TYPE
    ensures Parse(Physical(t, payload) + rest, full) == (Fragment(t, payload), HEADER_SIZE + |payload|)
  {
    hide ChecksumOk, LengthIn, Header;
    HeaderIsRight(t, payload, rest);
    var block := Physical(t, payload) + rest;
    assert block[HEADER_SIZE..HEADER_SIZE + |payload|] == payload;
  }

  lemma WithinBlock(file: Bytes, p: nat, q: nat)
    requires p <= q <= |file| && q <= p + Left(p)
    ensures q <= BlockEnd(file, p)
  {
  }

  lemma NextPhysicalReads(file: Bytes, p: nat, t: bv8, payload: Bytes)
    requires HEADER_SIZE + |payload| <= Left(p) && |payload| <= 0xffff && t != ZERO_TYPE
    requires p + HEADER_SIZE + |payload| <= |file| && file[p..p + HEADER_SIZE + |payload|] == Physical(t, payload)
    ensures NextPhysical(file, p) == (Fragment(t, payload), p + HEADER_SIZE + |payload|)
  {
    hide Parse, Physical, BlockEnd, EndsBlock, Left;
    var e := BlockEnd(file, p);
    var q := p + HEADER_SIZE + |payload|;
    WithinBlock(file, p, q);
    assert file[p..e] == file[p..q] + file[q..e];
    PhysicalParses(t, payload, file[q..e], EndsBlock(e));
  }

  /** A file that ends inside a physical record ends there for the reader as well. */
  lemma NextPhysicalCut(file: Bytes, p: nat, t: bv8, payload: Bytes)
    requires HEADER_SIZE + |payload| <= Left(p) && |payload| <= 0xffff
    requires p <= |file| < p + HEADER_SIZE + |payload|
    requires file[p..] == Physical(t, payload)[..|file| - p]
    ensures NextPhysical(file, p) == (Eof, |file|)
  {
    hide Parse, Physical, EndsBlock, Left;
    var e := |file|;
    assert BlockEnd(file, p) == e;
    if e - p >= HEADER_SIZE {
      CutHeaderIsRight(t, payload, e - p);
      assert file[p..e] == file[p..];
      CutIsNotFull(p, e);
    }
  }

  lemma CutIsNotFull(p: nat, e: nat)
    requires p < e < p + Left(p)
    ensures !EndsBlock(e)
  {
  }

  lemma CutHeaderIsRight(t: bv8, payload: Bytes, k: nat)
    requires |payload| <= 0xffff && HEADER_SIZE <= k < HEADER_SIZE + |payload|
    ensures LengthIn(Physical(t, payload)[..k]) == |payload|
    ensures Parse(Physical(t, payload)[..k], false) == (Eof, k)
  {
    hide ChecksumOk;
    HeaderIsRight(t, payload, []);
    assert Physical(t, payload) + [] == Physical(t, payload);
  }

  lemma TrailerIsSkipped(file: Bytes, p: nat, inFragmented: bool, scratch: Bytes)
    requires Left(p) < HEADER_SIZE && p + Left(p) < |file|
    ensures NextRecord(file, p, inFragmented, scratch) == NextRecord(file, p + Left(p), inFragmented, scratch)
  {
  }

  lemma NothingInTrailer(file: Bytes, p: nat, inFragmented: bool, scratch: Bytes)
    requires Left(p) < HEADER_SIZE && p <= |file| <= p + Left(p)
    ensures NextRecord(file, p, inFragmented, scratch) == (None, |file|)
  {
  }

  /** What the reader does next once it has a fragment that was written as one. */
  lemma FragmentIsTaken(file: Bytes, p: nat, q: nat, begin: bool, end: bool, payload: Bytes, scratch: Bytes)
    requires p < q <= |file| && NextPhysical(file, p) == (Fragment(TypeOf(begin, end), payload), q)
    ensures var sofar := if begin then payload else scratch + payload;
            NextRecord(file, p, !begin, scratch) == if end then (Some(sofar), q) else NextRecord(file, q, true, sofar)
  {
    hide NextPhysical;
  }

  lemma FrameAfterTrailer(data: Bytes, p: nat, begin: bool)
    requires Left(p) < HEADER_SIZE
    ensures Frame(data, p, begin) == Zeros(Left(p)) + Frame(data, p + Left(p), begin)
  {
  }

  /** The first fragment of a frame, and what follows it. */
  lemma FrameAtFragment(data: Bytes, p: nat, begin: bool) returns (n: nat, q: nat, rest: Bytes)
    requires Left(p) >= HEADER_SIZE
    ensures n == FragmentLength(|data|, p) && q == p + HEADER_SIZE + n
    ensures rest == if n == |data| then [] else Frame(data[n..], q, false)
    ensures Frame(data, p, begin) == Physical(TypeOf(begin, n == |data|), data[..n]) + rest
  {
    hide Physical, TypeOf;
    n := FragmentLength(|data|, p);
    q := p + HEADER_SIZE + n;
    rest := if n == |data| then [] else Frame(data[n..], q, false);
  }

  /** A record that lies in the file completely is read as it was written. */
  lemma {:induction false} FrameReads(file: Bytes, p: nat, data: Bytes, begin: bool, scratch: Bytes)
    requires p + |Frame(data, p, begin)| <= |file|
    requires file[p..p + |Frame(data, p, begin)|] == Frame(data, p, begin)
    ensures NextRecord(file, p, !begin, scratch)
         == (Some(if begin then data else scratch + data), p + |Frame(data, p, begin)|)
    decreases |data|, if Left(p) <= HEADER_SIZE then 1 else 0
  {
    hide NextRecord, NextPhysical, Physical, Frame;
    var f := Frame(data, p, begin);
    if Left(p) < HEADER_SIZE {
      var q := p + Left(p);
      FrameNotEmpty(data, q, begin);
      FrameAfterTrailer(data, p, begin);
      TrailerIsSkipped(file, p, !begin, scratch);
      Suffix(file, p, f, Zeros(Left(p)), Frame(data, q, begin));
      FrameReads(file, q, data, begin, scratch);
    } else {
      var n, q, rest := FrameAtFragment(data, p, begin);
      var end := n == |data|;
      Suffix(file, p, f, Physical(TypeOf(begin, end), data[..n]), rest);
      NextPhysicalReads(file, p, TypeOf(begin, end), data[..n]);
      FragmentIsTaken(file, p, q, begin, end, data[..n], scratch);
      if !end { FrameReads(file, q, data[n..], false, if begin then data[..n] else scratch + data[..n]); }
      Parts(data, n, scratch);
    }
  }

  lemma Parts(data: Bytes, n: nat, scratch: Bytes)
    requires n <= |data|
    ensures data[..n] + data[n..] == data && (scratch + data[..n]) + data[n..] == scratch + data
    ensures n == |data| ==> data[..n] == data
  {
  }

  lemma FrameNotEmpty(data: Bytes, p: nat, begin: bool)
    requires Left(p) >= HEADER_SIZE
    ensures |Frame(data, p, begin)| > 0
  {
  }

  /** A part of the file that is a + b is a followed by b. */
  lemma Suffix(file: Bytes, p: nat, f: Bytes, a: Bytes, b: Bytes)
    requires p + |f| <= |file| && file[p..p + |f|] == f == a + b
    ensures file[p..p + |a|] == a && file[p + |a|..p + |a| + |b|] == b
  {
    assert file[p..p + |a|] == file[p..p + |f|][..|a|];
    assert file[p + |a|..p + |a| + |b|] == file[p..p + |f|][|a|..];
  }

  /** A record that the file breaks off in is not read, and the reader stops. */
  lemma {:induction false} FrameCut(file: Bytes, p: nat, data: Bytes, begin: bool, scratch: Bytes)
    requires p <= |file| < p + |Frame(data, p, begin)|
    requires file[p..] == Frame(data, p, begin)[..|file| - p]
    ensures NextRecord(file, p, !begin, scratch) == (None, |file|)
    decreases |data|, if Left(p) <= HEADER_SIZE then 1 else 0
  {
    hide NextRecord, NextPhysical, Physical, Frame;
    var f := Frame(data, p, begin);
    if Left(p) < HEADER_SIZE {
      var q := p + Left(p);
      if |file| <= q {
        NothingInTrailer(file, p, !begin, scratch);
      } else {
        TrailerIsSkipped(file, p, !begin, scratch);
        FrameAfterTrailer(data, p, begin);
        CutSuffix(file, p, f, Zeros(Left(p)), Frame(data, q, begin));
        FrameCut(file, q, data, begin, scratch);
      }
    } else {
      var n, q, rest := FrameAtFragment(data, p, begin);
      var end := n == |data|;
      var phys := Physical(TypeOf(begin, end), data[..n]);
      if |file| < q {
        assert f[..|file| - p] == phys[..|file| - p];
        NextPhysicalCut(file, p, TypeOf(begin, end), data[..n]);
        EofEndsReading(file, p, !begin, scratch);
      } else {
        CutSuffix(file, p, f, phys, rest);
        NextPhysicalReads(file, p, TypeOf(begin, end), data[..n]);
        FragmentIsTaken(file, p, q, begin, end, data[..n], scratch);
        FrameCut(file, q, data[n..], false, if begin then data[..n] else scratch + data[..n]);
      }
    }
  }

  lemma EofEndsReading(file: Bytes, p: nat, inFragmented: bool, scratch: Bytes)
    requires p <= |file| && NextPhysical(file, p) == (Eof, |file|)
    ensures NextRecord(file, p, inFragmented, scratch) == (None, |file|)
  {
  }

  lemma CutSuffix(file: Bytes, p: nat, f: Bytes, a: Bytes, b: Bytes)
    requires p + |a| <= |file| <= p + |f| && f == a + b && file[p..] == f[..|file| - p]
    ensures file[p..p + |a|] == a && file[p + |a|..] == b[..|file| - p - |a|]
  {
    assert file[p..p + |a|] == file[p..][..|a|];
    assert file[p + |a|..] == file[p..][|a|..];
  }

  // ---------------------------------------------------------------- whole logs

  /** How many of the records lie completely in the first n bytes that follow position p. */
  function Whole(records: seq<Bytes>, p: nat, n: nat): (k: nat)
    ensures k <= |records|
  {
    if |records| == 0 then 0
    else
      var size := |Frame(records[0], p, true)|;
      if size <= n then 1 + Whole(records[1..], p + size, n - size) else 0
  }

  /** Those are the records whose last byte is among them. */
  lemma {:induction false} WholeMeansInside(records: seq<Bytes>, p: nat, n: nat, i: nat)
    requires i < |records|
    ensures i < Whole(records, p, n) <==> |Log(records[..i + 1], p)| <= n
  {
    hide Frame;
    var f := Frame(records[0], p, true);
    assert records[..i + 1][0] == records[0];
    assert records[..i + 1][1..] == records[1..][..i];
    if i > 0 {
      if |f| <= n { WholeMeansInside(records[1..], p + |f|, n - |f|, i - 1); }
    } else {
      assert Log([], p + |f|) == [];
    }
  }

  /** Cut anywhere, a log gives the reader exactly the records that lie completely before the cut. */
  lemma {:induction false} CutLogReads(file: Bytes, p: nat, records: seq<Bytes>)
    requires p <= |file| <= p + |Log(records, p)| && file[p..] == Log(records, p)[..|file| - p]
    ensures ReadAll(file, p) == records[..Whole(records, p, |file| - p)]
    decreases |records|
  {
    hide Frame, NextRecord;
    if |records| == 0 {
      EndOfFile(file, p);
    } else {
      var f := Frame(records[0], p, true);
      var rest := Log(records[1..], p + |f|);
      if p + |f| <= |file| {
        CutSuffix(file, p, f + rest, f, rest);
        FrameReads(file, p, records[0], true, []);
        FrameTakesRoom(records[0], p);
        CutLogReads(file, p + |f|, records[1..]);
      } else {
        assert (f + rest)[..|file| - p] == f[..|file| - p];
        FrameCut(file, p, records[0], true, []);
      }
    }
  }

  lemma FrameTakesRoom(data: Bytes, p: nat)
    ensures |Frame(data, p, true)| > 0
  {
  }

  lemma EndOfFile(file: Bytes, p: nat)
    requires p == |file|
    ensures NextRecord(file, p, false, []) == (None, p)
  {
  }

  lemma {:induction false} AllAreWhole(records: seq<Bytes>, p: nat)
    ensures Whole(records, p, |Log(records, p)|) == |records|
  {
    hide Frame;
    if |records| == 0 {
    } else {
      AllAreWhole(records[1..], p + |Frame(records[0], p, true)|);
    }
  }

  /** A log that was closed cleanly, after any number of reopenings, gives back everything that was written. */
  lemma CleanLogReads(records: seq<Bytes>)
    ensures ReadAll(Log(records, 0), 0) == records
  {
    hide Log, ReadAll, Whole;
    CutLogReads(Log(records, 0), 0, records);
    AllAreWhole(records, 0);
  }

  /** What recovery does with a log file: ReadRecord until there is no more. */
  method ReadLog(file: Bytes, ghost written: seq<Bytes>) returns (records: seq<Bytes>)
    requires |file| <= |Log(written, 0)| && file == Log(written, 0)[..|file|]
    ensures records == written[..Whole(written, 0, |file|)]
  {
    hide Log, Whole, NextRecord, NextPhysical, Reader.Ok;
    CutLogReads(file, 0, written);
    var reader := new Reader(file);
    records := [];
    var more := true;
    while more
      invariant reader.Ok() && reader.file == file
      invariant if more then records + ReadAll(file, reader.Pos()) == ReadAll(file, 0) else records == ReadAll(file, 0)
      decreases more, |file| - reader.Pos()
    {
      var r := reader.ReadRecord();
      if r.Some? { records := records + [r.value]; } else { more := false; }
    }
  }
}
