/** Blocks of sorted entries: keys share prefixes with their predecessors, except at restart points, through which a
    reader can search (table/block_builder.cc, table/block.cc). */
module Block {
  import opened InternalKeys
  import opened Varints
  import opened Coding

  /** The comparator: whether its first argument is the smaller key. */
  type Order = (Bytes, Bytes) -> bool

  datatype Pair = Pair(key: Bytes, value: Bytes)

  ghost predicate Transitive(lt: Order) { forall a, b, c :: lt(a, b) && lt(b, c) ==> lt(a, c) }

  ghost predicate Ascending(lt: Order, entries: seq<Pair>) {
    forall i, j :: 0 <= i < j < |entries| ==> lt(entries[i].key, entries[j].key)
  }

  // ---------------------------------------------------------------- one entry

  function EntryBytes(shared: nat, p: Pair): Bytes
    requires shared <= |p.key|
  {
    Varint(shared % TWO_TO_32) + Varint((|p.key| - shared) % TWO_TO_32) + Varint(|p.value| % TWO_TO_32) +
      p.key[shared..] + p.value
  }

  /** The three lengths at the front of an entry, and what follows them. */
  datatype Lengths = Lengths(shared: nat, nonShared: nat, valueLength: nat, rest: Bytes)

  function DecodeLengths(s: Bytes): (r: Option<Lengths>)
    ensures r.Some? ==> IsRest(r.value.rest, s)
  {
    if |s| < 3 then None
    else if s[0] < 128 && s[1] < 128 && s[2] < 128 then Some(Lengths(s[0], s[1], s[2], s[3..]))
    else
      var a := GetVarint32(s);
      if a.None? then None
      else
        var b := GetVarint32(a.value.1);
        if b.None? then None
        else
          var c := GetVarint32(b.value.1);
          RestOfRest(b.value.1, a.value.1, s);
          if c.None? then None
          else
            RestOfRest(c.value.1, b.value.1, s);
            Some(Lengths(a.value.0, b.value.0, c.value.0, c.value.1))
  }

  function DecodeEntry(s: Bytes): (r: Option<Lengths>)
    ensures r.Some? ==> IsRest(r.value.rest, s)
  {
    var e := DecodeLengths(s);
    if e.None? || |e.value.rest| % TWO_TO_32 < (e.value.nonShared + e.value.valueLength) % TWO_TO_32 then None else e
  }

  lemma LengthsAreReadBack(a: nat, b: nat, c: nat, rest: Bytes)
    requires a < TWO_TO_32 && b < TWO_TO_32 && c < TWO_TO_32
    ensures DecodeLengths(Varint(a) + (Varint(b) + (Varint(c) + rest))) == Some(Lengths(a, b, c, rest))
  {
    hide GetVarint32, Varint;
    var s2 := Varint(c) + rest;
    var s1 := Varint(b) + s2;
    var s := Varint(a) + s1;
    Varint32IsReadBack(a, s1);
    Varint32IsReadBack(b, s2);
    Varint32IsReadBack(c, rest);
    if |s| >= 3 && s[0] < 128 && s[1] < 128 && s[2] < 128 { ThreeSmallLengths(s, a, s1, b, s2, c, rest); }
  }

  lemma ThreeSmallLengths(s: Bytes, a: nat, s1: Bytes, b: nat, s2: Bytes, c: nat, rest: Bytes)
    requires |s| >= 3 && s[0] < 128 && s[1] < 128 && s[2] < 128
    requires GetVarint32(s) == Some((a, s1)) && GetVarint32(s1) == Some((b, s2)) && GetVarint32(s2) == Some((c, rest))
    ensures Lengths(s[0], s[1], s[2], s[3..]) == Lengths(a, b, c, rest)
  {
    hide GetVarint32;
    OneByteVarint(s);
    OneByteVarint(s1);
    OneByteVarint(s2);
  }

  lemma EntryIsReadBack(shared: nat, p: Pair, rest: Bytes)
    requires shared <= |p.key| && |p.key| + |p.value| + |rest| < TWO_TO_32
    ensures DecodeEntry(EntryBytes(shared, p) + rest)
         == Some(Lengths(shared, |p.key| - shared, |p.value|, p.key[shared..] + p.value + rest))
  {
    hide DecodeLengths, Varint;
    var tail := p.key[shared..] + p.value + rest;
    assert EntryBytes(shared, p) + rest == Varint(shared) + (Varint(|p.key| - shared) + (Varint(|p.value|) + tail));
    LengthsAreReadBack(shared, |p.key| - shared, |p.value|, tail);
  }

  // ---------------------------------------------------------------- a list of entries

  /** Where each entry starts and the last one ends, how much each shares with its predecessor, and which entries are
      restart points. */
  datatype Layout = Layout(offsets: seq<nat>, shared: seq<nat>, starts: seq<nat>)

  function KeyBefore(entries: seq<Pair>, i: nat): Bytes
    requires i <= |entries|
  {
    if i == 0 then [] else entries[i - 1].key
  }

  ghost predicate EntryAt(buf: Bytes, entries: seq<Pair>, l: Layout, i: nat) {
    i < |entries| && i < |l.shared| && i + 1 < |l.offsets| &&
    l.shared[i] <= |entries[i].key| && entries[i].key[..l.shared[i]] <= KeyBefore(entries, i) &&
    l.offsets[i] <= l.offsets[i + 1] <= |buf| &&
    buf[l.offsets[i]..l.offsets[i + 1]] == EntryBytes(l.shared[i], entries[i])
  }

  ghost predicate Laid(buf: Bytes, entries: seq<Pair>, l: Layout) {
    |l.offsets| == |entries| + 1 && |l.shared| == |entries| && l.offsets[0] == 0 && l.offsets[|entries|] == |buf| &&
    forall i: nat :: i < |entries| ==> EntryAt(buf, entries, l, i)
  }

  /** Restart points share nothing, and the first entry is one. */
  ghost predicate Started(l: Layout) {
    |l.starts| > 0 && l.starts[0] == 0 &&
    (forall r :: 0 < r < |l.starts| ==> l.starts[r - 1] < l.starts[r] < |l.shared|) &&
    forall r :: 0 <= r < |l.starts| && l.starts[r] < |l.shared| ==> l.shared[l.starts[r]] == 0
  }

  /** What the restart array holds. */
  function RestartOffsets(l: Layout): (r: seq<nat>)
    requires Started(l) && |l.offsets| == |l.shared| + 1
    ensures |r| == |l.starts|
  {
    seq(|l.starts|, i requires 0 <= i < |l.starts| => l.offsets[l.starts[i]])
  }

  // ---------------------------------------------------------------- building

  function CommonPrefix(a: Bytes, b: Bytes): (n: nat)
    ensures n <= |a| && n <= |b| && a[..n] == b[..n]
    ensures n < |a| && n < |b| ==> a[n] != b[n]
  {
    if |a| == 0 || |b| == 0 || a[0] != b[0] then 0 else
    assert a == [a[0]] + a[1..] && b == [b[0]] + b[1..];
    1 + CommonPrefix(a[1..], b[1..])
  }

  lemma {:induction false} PrefixIsLongest(a: Bytes, b: Bytes, n: nat)
    requires n <= |a| && n <= |b| && a[..n] == b[..n] && (n < |a| && n < |b| ==> a[n] != b[n])
    ensures CommonPrefix(a, b) == n
  {
    if n == 0 {
    } else {
      assert a[0] == a[..n][0] && b[0] == b[..n][0];
      assert a[1..][..n - 1] == a[..n][1..] && b[1..][..n - 1] == b[..n][1..];
      PrefixIsLongest(a[1..], b[1..], n - 1);
    }
  }

  /** Every interval-th entry is a restart point. */
  ghost predicate Spaced(l: Layout, interval: nat) {
    |l.starts| > 0 && (forall r :: 0 < r < |l.starts| ==> l.starts[r] == l.starts[r - 1] + interval) &&
    l.starts[|l.starts| - 1] <= |l.shared| <= l.starts[|l.starts| - 1] + interval
  }

  ghost predicate CompressedAt(entries: seq<Pair>, l: Layout, i: nat) {
    i < |entries| && i < |l.shared| &&
    l.shared[i] == if i in l.starts then 0 else CommonPrefix(KeyBefore(entries, i), entries[i].key)
  }

  /** All others share as much as they can. */
  ghost predicate Compressed(entries: seq<Pair>, l: Layout) {
    |l.shared| == |entries| && forall i: nat :: i < |entries| ==> CompressedAt(entries, l, i)
  }

  function Words(ns: seq<nat>): (r: Bytes)
    ensures |r| == 4 * |ns|
  {
    if |ns| == 0 then [] else Words(ns[..|ns| - 1]) + Fixed32(ns[|ns| - 1])
  }

  lemma {:induction false} WordAt(ns: seq<nat>, i: nat)
    requires i < |ns|
    ensures Words(ns)[4 * i..4 * i + 4] == Fixed32(ns[i])
  {
    if i == |ns| - 1 {
    } else {
      WordAt(ns[..|ns| - 1], i);
      assert Words(ns)[4 * i..4 * i + 4] == Words(ns[..|ns| - 1])[4 * i..4 * i + 4];
    }
  }

  /** Where the entries end. */
  function Limit(l: Layout): nat { if |l.offsets| == 0 then 0 else l.offsets[|l.offsets| - 1] }

  /** The bytes of a finished block, of any size. */
  ghost predicate IsFinished(data: Bytes, entries: seq<Pair>, l: Layout) {
    |l.offsets| == |entries| + 1 && Limit(l) <= |data| && Laid(data[..Limit(l)], entries, l) && Started(l) &&
    data[Limit(l)..] == Words(RestartOffsets(l)) + Fixed32(|l.starts|)
  }

  /** A finished block whose entries end within 32 bits; see BlockIter.OpensExactlyWhen. */
  ghost predicate IsBlock(data: Bytes, entries: seq<Pair>, l: Layout) {
    IsFinished(data, entries, l) && Limit(l) < TWO_TO_32
  }

  /** The layout when one more entry has been added, at a restart point or not. */
  function Extended(l: Layout, size: nat, shared: nat, restart: bool): Layout {
    Layout(l.offsets + [size], l.shared + [shared], if restart then l.starts + [|l.shared|] else l.starts)
  }

  lemma LaidMore(buf: Bytes, entries: seq<Pair>, l: Layout, shared: nat, p: Pair, restart: bool)
    requires Laid(buf, entries, l) && shared <= |p.key| && p.key[..shared] <= KeyBefore(entries, |entries|)
    ensures var buf' := buf + EntryBytes(shared, p); Laid(buf', entries + [p], Extended(l, |buf'|, shared, restart))
  {
    hide EntryBytes;
    var buf', entries' := buf + EntryBytes(shared, p), entries + [p];
    var l' := Extended(l, |buf'|, shared, restart);
    forall i: nat | i < |entries'| ensures EntryAt(buf', entries', l', i) {
      if i < |entries| {
        assert EntryAt(buf, entries, l, i);
        assert KeyBefore(entries', i) == KeyBefore(entries, i);
        assert buf'[l.offsets[i]..l.offsets[i + 1]] == buf[l.offsets[i]..l.offsets[i + 1]];
      } else {
        assert buf'[|buf|..|buf'|] == EntryBytes(shared, p);
      }
    }
  }

  lemma StartedMore(l: Layout, size: nat, shared: nat, restart: bool)
    requires Started(l) && |l.offsets| == |l.shared| + 1 && (restart || |l.shared| == 0 ==> shared == 0)
    requires restart ==> l.starts[|l.starts| - 1] < |l.shared|
    ensures Started(Extended(l, size, shared, restart))
    ensures RestartOffsets(Extended(l, size, shared, restart))
         == RestartOffsets(l) + if restart then [l.offsets[|l.shared|]] else []
  {
    var l' := Extended(l, size, shared, restart);
    StartsAscend(l);
    assert forall r :: 0 <= r < |l.starts| ==> l'.starts[r] == l.starts[r];
  }

  lemma {:induction false} StartsAscendTo(l: Layout, i: nat, j: nat)
    requires Started(l) && i < j < |l.starts|
    ensures l.starts[i] < l.starts[j]
  {
    if i == j - 1 {
    } else {
      StartsAscendTo(l, i, j - 1);
    }
  }

  lemma StartsAscend(l: Layout)
    requires Started(l)
    ensures forall r :: 0 <= r < |l.starts| ==> l.starts[r] <= l.starts[|l.starts| - 1]
    ensures |l.starts| > 1 ==> l.starts[|l.starts| - 1] < |l.shared|
  {
    forall r | 0 <= r < |l.starts| - 1 ensures l.starts[r] <= l.starts[|l.starts| - 1] {
      StartsAscendTo(l, r, |l.starts| - 1);
    }
  }

  lemma LaidSizes(buf: Bytes, entries: seq<Pair>, l: Layout)
    requires Laid(buf, entries, l)
    ensures |l.offsets| == |entries| + 1 && |l.shared| == |entries| && l.offsets[|entries|] == |buf|
  {
  }

  /** Which of the entries up to the new one are restart points. */
  lemma WhichStart(l: Layout, size: nat, shared: nat, restart: bool, i: nat)
    requires Started(l) && i <= |l.shared|
    ensures var l' := Extended(l, size, shared, restart);
            i in l'.starts <==> if i < |l.shared| then i in l.starts else restart || i == 0
  {
    StartsAscend(l);
    if i == |l.shared| && restart { assert Extended(l, size, shared, restart).starts[|l.starts|] == i; }
    if i == 0 { assert l.starts[0] == 0; }
  }

  lemma LastStart(l: Layout, interval: nat)
    requires Spaced(l, interval) && Started(l)
    ensures |l.starts| > 0 && 0 <= |l.shared| - l.starts[|l.starts| - 1] <= interval
  {
  }

  lemma SpacedMore(l: Layout, interval: nat, size: nat, shared: nat, restart: bool)
    requires Spaced(l, interval) && interval >= 1 && restart == (|l.shared| - l.starts[|l.starts| - 1] == interval)
    ensures Spaced(Extended(l, size, shared, restart), interval)
  {
  }

  lemma CompressedMore(entries: seq<Pair>, l: Layout, size: nat, shared: nat, p: Pair, restart: bool)
    requires Compressed(entries, l) && Started(l)
    requires shared == if restart then 0 else CommonPrefix(KeyBefore(entries, |entries|), p.key)
    ensures Compressed(entries + [p], Extended(l, size, shared, restart))
  {
    hide CommonPrefix, CompressedAt, Started;
    forall i: nat | i < |entries| + 1 ensures CompressedAt(entries + [p], Extended(l, size, shared, restart), i) {
      if i < |entries| { assert CompressedAt(entries, l, i); }
      CompressedStays(entries, l, size, shared, p, restart, i);
    }
  }

  lemma CompressedStays(entries: seq<Pair>, l: Layout, size: nat, shared: nat, p: Pair, restart: bool, i: nat)
    requires |l.shared| == |entries| && Started(l) && i <= |entries| && (i < |entries| ==> CompressedAt(entries, l, i))
    requires shared == if restart then 0 else CommonPrefix(KeyBefore(entries, |entries|), p.key)
    ensures CompressedAt(entries + [p], Extended(l, size, shared, restart), i)
  {
    hide CommonPrefix, Started;
    assert KeyBefore(entries + [p], i) == KeyBefore(entries, i);
    WhichStart(l, size, shared, restart, i);
  }

  lemma OneMoreEntry(buf: Bytes, entries: seq<Pair>, l: Layout, interval: nat, shared: nat, p: Pair, restart: bool)
    requires Laid(buf, entries, l) && Started(l) && Spaced(l, interval) && Compressed(entries, l) && interval >= 1
    requires |l.starts| > 0 && restart == (|entries| - l.starts[|l.starts| - 1] == interval) && |l.shared| == |entries|
    requires shared == if restart then 0 else CommonPrefix(KeyBefore(entries, |entries|), p.key)
    requires shared <= |p.key| && p.key[..shared] <= KeyBefore(entries, |entries|)
    ensures var buf' := buf + EntryBytes(shared, p);
            var l' := Extended(l, |buf'|, shared, restart);
            Laid(buf', entries + [p], l') && Started(l') && Spaced(l', interval) && Compressed(entries + [p], l') &&
            RestartOffsets(l') == RestartOffsets(l) + (if restart then [|buf|] else []) &&
            |l'.starts| > 0 && |entries| + 1 - l'.starts[|l'.starts| - 1]
            == (if restart then 0 else |entries| - l.starts[|l.starts| - 1]) + 1
    ensures KeyBefore(entries + [p], |entries| + 1) == p.key
  {
    hide Laid, Started, Compressed, Spaced, CommonPrefix, RestartOffsets, EntryBytes;
    var size := |buf + EntryBytes(shared, p)|;
    LaidSizes(buf, entries, l);
    NothingShared(entries, p.key);
    LaidMore(buf, entries, l, shared, p, restart);
    StartedMore(l, size, shared, restart);
    SpacedMore(l, interval, size, shared, restart);
    CompressedMore(entries, l, size, shared, p, restart);
  }

  lemma NothingShared(entries: seq<Pair>, key: Bytes)
    ensures |entries| == 0 ==> CommonPrefix(KeyBefore(entries, |entries|), key) == 0
  {
  }

  lemma Pieces(buf: Bytes, shared: nat, p: Pair)
    requires shared <= |p.key|
    ensures buf + Varint(shared % TWO_TO_32) + Varint((|p.key| - shared) % TWO_TO_32) + Varint(|p.value| % TWO_TO_32)
            + p.key[shared..] + p.value == buf + EntryBytes(shared, p)
  {
    hide Varint;
  }

  class BlockBuilder {
    const interval: nat
    var buffer: Bytes
    var restarts: seq<nat>
    var counter: nat
    var finished: bool
    var lastKey: Bytes
    ghost var entries: seq<Pair>
    ghost var layout: Layout

    ghost predicate Valid()
      reads this
    {
      interval >= 1 && !finished && Laid(buffer, entries, layout) && Started(layout) && Spaced(layout, interval) &&
      Compressed(entries, layout) &&
      restarts == RestartOffsets(layout) &&
      lastKey == KeyBefore(entries, |entries|) && counter == |entries| - layout.starts[|layout.starts| - 1]
    }

    constructor (interval: nat)
      requires interval >= 1
      ensures Valid() && entries == [] && this.interval == interval
    {
      this.interval := interval;
      buffer, restarts, counter, finished, lastKey := [], [0], 0, false, [];
      entries, layout := [], Layout([0], [], [0]);
    }

    method Reset()
      requires interval >= 1
      modifies this
      ensures Valid() && entries == []
    {
      buffer, restarts, counter, finished, lastKey := [], [0], 0, false, [];
      entries, layout := [], Layout([0], [], [0]);
    }

    predicate Empty()
      reads this
    {
      |buffer| == 0
    }

    function CurrentSizeEstimate(): nat
      reads this
    {
      |buffer| + 4 * |restarts| + 4
    }

    method Add(key: Bytes, value: Bytes)
      requires Valid()
      modifies this
      ensures Valid() && entries == old(entries) + [Pair(key, value)]
    {
      hide Laid, Started, Compressed, Spaced, CommonPrefix, RestartOffsets, EntryBytes, Extended, KeyBefore;
      LaidSizes(buffer, entries, layout);
      LastStart(layout, interval);
      var shared := 0;
      ghost var restart := counter == interval;
      if counter < interval {
        shared := SharedWithLast(key);
      } else {
        restarts := restarts + [|buffer|];
        counter := 0;
      }
      ghost var p := Pair(key, value);
      OneMoreEntry(buffer, entries, layout, interval, shared, p, restart);
      Append(shared, key, value);
      counter := counter + 1;
      entries, layout := entries + [p], Extended(layout, |buffer|, shared, restart);
    }

    method SharedWithLast(key: Bytes) returns (shared: nat)
      ensures shared <= |lastKey| && shared <= |key| && shared == CommonPrefix(lastKey, key)
    {
      hide CommonPrefix;
      shared := 0;
      while shared < |lastKey| && shared < |key| && lastKey[shared] == key[shared]
        invariant shared <= |lastKey| && shared <= |key| && lastKey[..shared] == key[..shared]
      {
        shared := shared + 1;
      }
      PrefixIsLongest(lastKey, key, shared);
    }

    /** The three lengths, the rest of the key, and the value. */
    method Append(shared: nat, key: Bytes, value: Bytes)
      requires shared <= |lastKey| && shared <= |key| && lastKey[..shared] == key[..shared]
      modifies this`buffer, this`lastKey
      ensures buffer == old(buffer) + EntryBytes(shared, Pair(key, value)) && lastKey == key
    {
      hide EntryBytes, Varint;
      Pieces(buffer, shared, Pair(key, value));
      buffer := buffer + Varint(shared % TWO_TO_32) + Varint((|key| - shared) % TWO_TO_32) +
        Varint(|value| % TWO_TO_32);
      buffer := buffer + key[shared..];
      buffer := buffer + value;
      lastKey := lastKey[..shared] + key[shared..];
    }

    /** Appends the restart array. */
    method Finish() returns (data: Bytes)
      requires Valid()
      modifies this
      ensures data == buffer && entries == old(entries) && layout == old(layout)
      ensures |data| == |old(buffer)| + 4 * |old(restarts)| + 4
      ensures IsFinished(data, entries, layout) && Limit(layout) == |old(buffer)|
      ensures Spaced(layout, interval) && Compressed(entries, layout)
    {
      hide Laid, Started, Spaced, Compressed, RestartOffsets;
      LaidSizes(buffer, entries, layout);
      var i := 0;
      while i < |restarts|
        invariant i <= |restarts| && buffer == old(buffer) + Words(restarts[..i])
        invariant |buffer| == |old(buffer)| + 4 * i
        invariant restarts == old(restarts) && entries == old(entries) && layout == old(layout)
      {
        assert restarts[..i + 1][..i] == restarts[..i];
        buffer := buffer + Fixed32(restarts[i]);
        i := i + 1;
      }
      assert restarts[..i] == restarts;
      buffer := buffer + Fixed32(|restarts|);
      finished := true;
      data := buffer;
      BodyAndTail(old(buffer), Words(restarts), Fixed32(|restarts|));
    }
  }

  lemma BodyAndTail(body: Bytes, words: Bytes, count: Bytes)
    ensures var data := body + words + count; data[..|body|] == body && data[|body|..] == words + count
  {
  }
}
