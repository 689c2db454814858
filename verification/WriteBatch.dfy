/** The bytes of a write batch (db/write_batch.cc), which are also the bytes of a log record. */
module WriteBatch {
  import opened InternalKeys
  import opened Varints
  import opened Coding

  datatype Update = Value(key: Bytes, value: Bytes) | Deletion(key: Bytes)

  const TYPE_DELETION: Byte := 0
  const TYPE_VALUE: Byte := 1
  const HEADER: nat := 12

  // ---------------------------------------------------------------- the bytes

  function UpdateBytes(u: Update): (r: Bytes)
    ensures |r| > 0
  {
    match u
    case Value(key, value) => [TYPE_VALUE] + LengthPrefixed(key) + LengthPrefixed(value)
    case Deletion(key) => [TYPE_DELETION] + LengthPrefixed(key)
  }

  function UpdatesBytes(us: seq<Update>): Bytes {
    if |us| == 0 then [] else UpdateBytes(us[0]) + UpdatesBytes(us[1..])
  }

  /** Sequence number, count, updates. */
  function BatchBytes(sequence: nat, us: seq<Update>): (r: Bytes)
    ensures |r| >= HEADER
  {
    Fixed64(sequence) + Fixed32(|us|) + UpdatesBytes(us)
  }

  lemma {:induction false} UpdatesJoin(us: seq<Update>, more: seq<Update>)
    ensures UpdatesBytes(us + more) == UpdatesBytes(us) + UpdatesBytes(more)
  {
    if |us| == 0 {
      assert us + more == more;
    } else {
      assert (us + more)[1..] == us[1..] + more;
      UpdatesJoin(us[1..], more);
    }
  }

  // ---------------------------------------------------------------- reading

  /** The first update in s, and what follows it. */
  function FirstUpdate(s: Bytes): (r: Option<(Update, Bytes)>)
    requires |s| > 0
    ensures r.Some? ==> |r.value.1| < |s|
  {
    if s[0] == TYPE_VALUE then
      var key := GetLengthPrefixed(s[1..]);
      if key.None? then None
      else
        var value := GetLengthPrefixed(key.value.1);
        if value.None? then None else Some((Value(key.value.0, value.value.0), value.value.1))
    else if s[0] == TYPE_DELETION then
      var key := GetLengthPrefixed(s[1..]);
      if key.None? then None else Some((Deletion(key.value.0), key.value.1))
    else None
  }

  /** The updates that a handler is given, and whether all of s made sense. */
  function Iterated(s: Bytes): (r: (seq<Update>, bool))
    decreases |s|
  {
    if |s| == 0 then ([], true)
    else
      var first := FirstUpdate(s);
      if first.None? then ([], false)
      else
        var rest := Iterated(first.value.1);
        ([first.value.0] + rest.0, rest.1)
  }

  function Sequence(rep: Bytes): nat
    requires |rep| >= HEADER
  {
    DecodeFixed64(rep[..8])
  }

  function Count(rep: Bytes): nat
    requires |rep| >= HEADER
  {
    DecodeFixed32(rep[8..12])
  }

  method ReadUpdate(input: Bytes) returns (r: Option<(Update, Bytes)>)
    requires |input| > 0
    ensures r == FirstUpdate(input)
  {
    hide GetLengthPrefixed;
    var tag := input[0];
    if tag == TYPE_VALUE {
      var key := GetLengthPrefixedSlice(input[1..]);
      if key.None? { return None; }
      var value := GetLengthPrefixedSlice(key.value.1);
      if value.None? { return None; }
      r := Some((Value(key.value.0, value.value.0), value.value.1));
    } else if tag == TYPE_DELETION {
      var key := GetLengthPrefixedSlice(input[1..]);
      if key.None? { return None; }
      r := Some((Deletion(key.value.0), key.value.1));
    } else {
      r := None;
    }
  }

  /** WriteBatch::Iterate: what the handler is given, and the status. */
  method Iterate(rep: Bytes) returns (handled: seq<Update>, ok: bool)
    ensures |rep| < HEADER ==> handled == [] && !ok
    ensures |rep| >= HEADER ==>
      var all := Iterated(rep[HEADER..]); handled == all.0 && ok == (all.1 && |all.0| == Count(rep))
  {
    handled := [];
    if |rep| < HEADER { return handled, false; }
    hide FirstUpdate, Count;
    var input, found := rep[HEADER..], 0;
    ghost var all := Iterated(input);
    assert [] + all.0 == all.0;
    while |input| > 0
      invariant found == |handled| && all.0 == handled + Iterated(input).0 && all.1 == Iterated(input).1
      decreases |input|
    {
      found := found + 1;
      var first := ReadUpdate(input);
      if first.None? { return handled, false; }
      assert handled + ([first.value.0] + Iterated(first.value.1).0)
          == (handled + [first.value.0]) + Iterated(first.value.1).0;
      handled, input := handled + [first.value.0], first.value.1;
    }
    ok := found == Count(rep);
  }

  // ---------------------------------------------------------------- reading back what was written

  /** The lengths fit into 32 bits. */
  predicate Encodable(u: Update) { |u.key| < TWO_TO_32 && (u.Value? ==> |u.value| < TWO_TO_32) }

  lemma UpdateIsReadBack(u: Update, rest: Bytes)
    requires Encodable(u)
    ensures Iterated(UpdateBytes(u) + rest) == ([u] + Iterated(rest).0, Iterated(rest).1)
  {
    hide GetLengthPrefixed, LengthPrefixed;
    var s := UpdateBytes(u) + rest;
    match u
    case Value(key, value) =>
      assert s[1..] == LengthPrefixed(key) + (LengthPrefixed(value) + rest);
      StringIsReadBack(key, LengthPrefixed(value) + rest);
      StringIsReadBack(value, rest);
    case Deletion(key) =>
      assert s[1..] == LengthPrefixed(key) + rest;
      StringIsReadBack(key, rest);
  }

  lemma {:induction false} UpdatesAreReadBack(us: seq<Update>)
    requires forall u :: u in us ==> Encodable(u)
    ensures Iterated(UpdatesBytes(us)) == (us, true)
  {
    hide Iterated, UpdateBytes, Encodable, FirstUpdate;
    if |us| == 0 {
      NothingIterated();
    } else {
      UpdatesAreReadBack(us[1..]);
      UpdateIsReadBack(us[0], UpdatesBytes(us[1..]));
      assert us == [us[0]] + us[1..];
    }
  }

  lemma NothingIterated()
    ensures Iterated([]) == ([], true)
  {
  }

  /** The parts of a batch. */
  lemma BatchParts(sequence: nat, us: seq<Update>)
    requires sequence < TWO_TO_64 && |us| < TWO_TO_32
    ensures var rep := BatchBytes(sequence, us);
            Sequence(rep) == sequence && Count(rep) == |us| && rep[HEADER..] == UpdatesBytes(us)
  {
    hide UpdatesBytes;
    var rep := BatchBytes(sequence, us);
    assert rep[..8] == Fixed64(sequence) && rep[8..12] == Fixed32(|us|);
    Fixed64IsReadBack(sequence);
    Fixed32IsReadBack(|us|);
  }

  // ---------------------------------------------------------------- building

  class WriteBatch {
    var rep: Bytes
    ghost var updates: seq<Update>

    ghost predicate Valid()
      reads this
    {
      |rep| >= HEADER && |updates| < TWO_TO_32 && rep[8..12] == Fixed32(|updates|) &&
      rep[HEADER..] == UpdatesBytes(updates)
    }

    constructor ()
      ensures Valid() && updates == []
    {
      rep, updates := seq(HEADER, _ => 0), [];
      new;
      NoUpdates(rep);
    }

    method Clear()
      modifies this
      ensures Valid() && updates == [] && |rep| == HEADER && forall i :: 0 <= i < |rep| ==> rep[i] == 0
    {
      rep, updates := seq(HEADER, _ => 0), [];
      NoUpdates(rep);
    }

    method SetCount(n: nat)
      requires |rep| >= HEADER
      modifies this`rep
      ensures rep == old(rep)[..8] + Fixed32(n) + old(rep)[HEADER..]
    {
      rep := rep[..8] + Fixed32(n) + rep[HEADER..];
    }

    method SetSequence(n: nat)
      requires Valid() && n < TWO_TO_64
      modifies this`rep
      ensures Valid() && rep == BatchBytes(n, updates)
    {
      hide UpdatesBytes;
      ghost var before := rep;
      rep := Fixed64(n) + rep[8..];
      assert rep[8..12] == before[8..12] && rep[HEADER..] == before[HEADER..];
      assert before[8..] == before[8..12] + before[HEADER..];
    }

    method Put(key: Bytes, value: Bytes)
      requires Valid() && |updates| + 1 < TWO_TO_32
      modifies this
      ensures Valid() && updates == old(updates) + [Value(key, value)]
    {
      hide UpdatesBytes, LengthPrefixed, Fixed32;
      CountIs(rep, |updates|);
      SetCount(Count(rep) + 1);
      rep := rep + [TYPE_VALUE];
      rep := rep + LengthPrefixed(key);
      rep := rep + LengthPrefixed(value);
      OneUpdate(Value(key, value));
      MoreUpdates(old(rep), updates, [Value(key, value)], rep);
      updates := updates + [Value(key, value)];
    }

    method Delete(key: Bytes)
      requires Valid() && |updates| + 1 < TWO_TO_32
      modifies this
      ensures Valid() && updates == old(updates) + [Deletion(key)]
    {
      hide UpdatesBytes, LengthPrefixed, Fixed32;
      CountIs(rep, |updates|);
      SetCount(Count(rep) + 1);
      rep := rep + [TYPE_DELETION];
      rep := rep + LengthPrefixed(key);
      OneUpdate(Deletion(key));
      MoreUpdates(old(rep), updates, [Deletion(key)], rep);
      updates := updates + [Deletion(key)];
    }

    /** Adds the updates of another batch, or of this one. */
    method Append(source: WriteBatch)
      requires Valid() && source.Valid() && |updates| + |source.updates| < TWO_TO_32
      modifies this
      ensures Valid() && updates == old(updates) + old(source.updates)
    {
      hide UpdatesBytes, Fixed32, Count;
      ghost var more := source.updates;
      CountIs(rep, |updates|);
      CountIs(source.rep, |source.updates|);
      SetCount(Count(rep) + Count(source.rep));
      SourceIsKept(old(rep), rep);
      rep := rep + source.rep[HEADER..];
      MoreUpdates(old(rep), updates, more, rep);
      updates := updates + more;
    }
  }

  lemma NoUpdates(rep: Bytes)
    requires |rep| == HEADER && forall i :: 0 <= i < HEADER ==> rep[i] == 0
    ensures rep[8..12] == Fixed32(0) && rep[HEADER..] == UpdatesBytes([])
  {
    assert Little(0, 4) == [0] + Little(0, 3) == [0, 0] + Little(0, 2);
    assert Little(0, 2) == [0] + Little(0, 1) == [0, 0] + Little(0, 0);
  }

  lemma CountIs(rep: Bytes, n: nat)
    requires |rep| >= HEADER && n < TWO_TO_32 && rep[8..12] == Fixed32(n)
    ensures Count(rep) == n
  {
    Fixed32IsReadBack(n);
  }

  lemma SourceIsKept(before: Bytes, after: Bytes)
    requires |before| >= HEADER && exists n: nat :: after == before[..8] + Fixed32(n) + before[HEADER..]
    ensures |after| == |before| && after[HEADER..] == before[HEADER..]
  {
  }

  lemma Sections(a: Bytes, b: Bytes, c: Bytes, d: Bytes)
    requires |a| == 8 && |b| == 4
    ensures var s := a + b + c + d; s[8..12] == b && s[12..] == c + d
  {
  }

  /** More updates behind the others, and counted. */
  lemma MoreUpdates(before: Bytes, us: seq<Update>, more: seq<Update>, after: Bytes)
    requires |before| >= HEADER && before[HEADER..] == UpdatesBytes(us)
    requires after == before[..8] + Fixed32(|us| + |more|) + before[HEADER..] + UpdatesBytes(more)
    ensures |after| >= HEADER && after[8..12] == Fixed32(|us| + |more|) && after[HEADER..] == UpdatesBytes(us + more)
  {
    hide Fixed32, UpdatesBytes;
    UpdatesJoin(us, more);
    Sections(before[..8], Fixed32(|us| + |more|), before[HEADER..], UpdatesBytes(more));
  }

  lemma OneUpdate(u: Update)
    ensures UpdatesBytes([u]) == UpdateBytes(u)
  {
    hide UpdateBytes;
    assert [u][1..] == [];
    assert UpdatesBytes([u]) == UpdateBytes(u) + UpdatesBytes([]);
  }
}
