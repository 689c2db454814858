/** Reading a finished block: the cursor moves over its entries in both directions and searches through the restart
    points (table/block.cc). */
module BlockIter {
  import opened InternalKeys
  import opened Varints
  import opened Coding
  import opened Block

  // ---------------------------------------------------------------- what the bytes of a block say

  function NumRestarts(data: Bytes): nat
    requires |data| >= 4
  {
    DecodeFixed32(data[|data| - 4..])
  }

  /** Where the restart array starts, unless the block is too small for it; the reader keeps 32 bits of it. */
  function RestartOffset(data: Bytes): (r: Option<nat>)
    ensures r.Some? ==> r.value < TWO_TO_32
  {
    if |data| < 4 || NumRestarts(data) > (|data| - 4) / 4 then None
    else Some((|data| - (1 + NumRestarts(data)) % TWO_TO_32 * 4) % TWO_TO_32)
  }

  /** Entries need room, so there are fewer of them, and of restart points, than bytes. */
  lemma {:induction false} EntriesNeedRoom(buf: Bytes, entries: seq<Pair>, l: Layout, i: nat)
    requires Laid(buf, entries, l) && i <= |entries|
    ensures l.offsets[i] >= 3 * i
  {
    hide EntryBytes;
    if i == 0 {
    } else {
      EntriesNeedRoom(buf, entries, l, i - 1);
      assert EntryAt(buf, entries, l, i - 1);
      EntryIsLong(l.shared[i - 1], entries[i - 1]);
    }
  }

  lemma StartsNeedRoom(data: Bytes, entries: seq<Pair>, l: Layout)
    requires IsBlock(data, entries, l)
    ensures |l.starts| + 1 < TWO_TO_32
  {
    hide Words, EntryAt;
    EntriesNeedRoom(data[..Limit(l)], entries, l, |entries|);
    LaidSizes(data[..Limit(l)], entries, l);
    StartsCount(l, |l.starts| - 1);
  }

  lemma {:induction false} StartsCount(l: Layout, r: nat)
    requires Started(l) && r < |l.starts|
    ensures r <= l.starts[r] && (r > 0 ==> l.starts[r] < |l.shared|)
  {
    if r == 0 {
    } else {
      StartsCount(l, r - 1);
    }
  }

  lemma BlockOpens(data: Bytes, entries: seq<Pair>, l: Layout)
    requires IsBlock(data, entries, l)
    ensures RestartOffset(data) == Some(Limit(l)) && NumRestarts(data) == |l.starts|
  {
    hide Laid, Started;
    BlockSizes(data, entries, l);
    StartsNeedRoom(data, entries, l);
    CountIsStored(data, l);
    Fixed32IsReadBack(|l.starts|);
    SmallRemainder(1 + |l.starts|, TWO_TO_32);
    SmallRemainder(Limit(l), TWO_TO_32);
  }

  lemma CountIsStored(data: Bytes, l: Layout)
    requires |l.offsets| == |l.shared| + 1 && Started(l) && Limit(l) <= |data|
    requires data[Limit(l)..] == Words(RestartOffsets(l)) + Fixed32(|l.starts|)
    ensures |data| == Limit(l) + 4 * |l.starts| + 4 && data[|data| - 4..] == Fixed32(|l.starts|)
  {
    var tail := data[Limit(l)..];
    assert data[|data| - 4..] == tail[|tail| - 4..];
  }

  lemma {:induction false} OffsetsAscend(buf: Bytes, entries: seq<Pair>, l: Layout, i: nat, j: nat)
    requires Laid(buf, entries, l) && i <= j <= |entries|
    ensures l.offsets[i] <= l.offsets[j] && (i < j ==> l.offsets[i] < l.offsets[j])
  {
    hide EntryBytes;
    if i == j {
    } else {
      OffsetsAscend(buf, entries, l, i, j - 1);
      assert EntryAt(buf, entries, l, j - 1);
      EntryIsLong(l.shared[j - 1], entries[j - 1]);
    }
  }

  lemma EntryIsLong(shared: nat, p: Pair)
    requires shared <= |p.key|
    ensures |EntryBytes(shared, p)| >= 3
  {
  }

  lemma RestartAt(data: Bytes, entries: seq<Pair>, l: Layout, r: nat)
    requires IsBlock(data, entries, l) && r < |l.starts|
    ensures l.starts[r] <= |entries| && Limit(l) + 4 * r + 4 <= |data|
    ensures DecodeFixed32(data[Limit(l) + 4 * r..Limit(l) + 4 * r + 4]) == l.offsets[l.starts[r]]
  {
    hide Laid, Words;
    LaidSizes(data[..Limit(l)], entries, l);
    var ns := RestartOffsets(l);
    var words := Words(ns);
    WordAt(ns, r);
    SliceOfRest(data, Limit(l), words, Fixed32(|l.starts|), 4 * r, 4 * r + 4);
    OffsetsAscend(data[..Limit(l)], entries, l, l.starts[r], |entries|);
    Fixed32IsReadBack(l.offsets[l.starts[r]]);
  }

  lemma SliceOfRest(data: Bytes, p: nat, a: Bytes, b: Bytes, i: nat, j: nat)
    requires p <= |data| && data[p..] == a + b && i <= j <= |a|
    ensures p + j <= |data| && data[p + i..p + j] == a[i..j]
  {
    var rest := data[p..];
    assert |rest| == |a| + |b|;
    forall k | i <= k < j ensures data[p + k] == a[k] { assert rest[k] == a[k]; }
  }

  /** However much keys share, none is longer than the block up to its end. */
  lemma {:induction false} KeyFits(buf: Bytes, entries: seq<Pair>, l: Layout, k: nat)
    requires Laid(buf, entries, l) && k < |entries|
    ensures |entries[k].key| + |entries[k].value| <= l.offsets[k + 1]
  {
    hide EntryBytes;
    assert EntryAt(buf, entries, l, k);
    EntryEnds(l.shared[k], entries[k]);
    if k == 0 {
    } else {
      KeyFits(buf, entries, l, k - 1);
    }
  }

  /** What the entry at position k is decoded to. */
  lemma EntryDecodes(data: Bytes, entries: seq<Pair>, l: Layout, k: nat)
    requires IsBlock(data, entries, l) && k < |entries|
    ensures l.shared[k] <= |entries[k].key| && entries[k].key[..l.shared[k]] <= KeyBefore(entries, k)
    ensures l.offsets[k] < l.offsets[k + 1] <= Limit(l) <= |data|
    ensures DecodeEntry(data[l.offsets[k]..Limit(l)])
         == Some(Lengths(l.shared[k], |entries[k].key| - l.shared[k], |entries[k].value|,
                         entries[k].key[l.shared[k]..] + entries[k].value + data[l.offsets[k + 1]..Limit(l)]))
    ensures |entries[k].value| <= l.offsets[k + 1] - l.offsets[k]
    ensures data[l.offsets[k + 1] - |entries[k].value|..l.offsets[k + 1]] == entries[k].value
  {
    hide EntryBytes, Started, Words, DecodeEntry;
    var buf := data[..Limit(l)];
    assert EntryAt(buf, entries, l, k);
    OffsetsAscend(buf, entries, l, k, k + 1);
    OffsetsAscend(buf, entries, l, k + 1, |entries|);
    var e := EntryBytes(l.shared[k], entries[k]);
    var rest := data[l.offsets[k + 1]..Limit(l)];
    assert data[l.offsets[k]..l.offsets[k + 1]] == e;
    SliceSplits(data, l.offsets[k], l.offsets[k + 1], Limit(l));
    EntryEnds(l.shared[k], entries[k]);
    ValueEnds(data, l.offsets[k], l.offsets[k + 1], |entries[k].value|);
    KeyFits(buf, entries, l, k);
    EntryIsReadBack(l.shared[k], entries[k], rest);
  }

  lemma SliceSplits(data: Bytes, i: nat, j: nat, k: nat)
    requires i <= j <= k <= |data|
    ensures data[i..k] == data[i..j] + data[j..k]
  {
  }

  lemma EntryEnds(shared: nat, p: Pair)
    requires shared <= |p.key|
    ensures var e := EntryBytes(shared, p);
            |e| >= |p.key| - shared + |p.value| && e[|e| - |p.value|..] == p.value && |e| >= |p.value|
  {
    hide Varint;
  }

  lemma ValueEnds(data: Bytes, i: nat, j: nat, n: nat)
    requires i <= j <= |data| && n <= j - i
    ensures data[j - n..j] == data[i..j][j - i - n..]
  {
  }

  /** The r-th word of the restart array is the offset of the r-th restart point. */
  ghost predicate RestartsAt(data: Bytes, l: Layout, r: nat) {
    |l.offsets| > 0 && Limit(l) + 4 * r + 4 <= |data| && r < |l.starts| && l.starts[r] < |l.offsets| &&
    DecodeFixed32(data[Limit(l) + 4 * r..Limit(l) + 4 * r + 4]) == l.offsets[l.starts[r]]
  }

  /** The last restart point before an entry is where the cursor thinks it is, or the one that follows. */
  ghost predicate NearStart(l: Layout, r: nat, k: nat) {
    r < |l.starts| && l.starts[r] <= k && (r + 1 < |l.starts| ==> k <= l.starts[r + 1])
  }

  /** A reader finds the end of the entries and all restart points. */
  ghost predicate Opens(data: Bytes, l: Layout) {
    RestartOffset(data) == Some(Limit(l)) && NumRestarts(data) == |l.starts| &&
    forall r: nat :: r < |l.starts| ==> RestartsAt(data, l, r)
  }

  /** However large the keys and values behind it, a finished block opens right if and only if its entries end within
      32 bits; beyond that the reader looks for the restart points where none are. */
  lemma OpensExactlyWhen(data: Bytes, entries: seq<Pair>, l: Layout)
    requires IsFinished(data, entries, l)
    ensures Opens(data, l) <==> Limit(l) < TWO_TO_32
  {
    hide IsFinished;
    if Limit(l) < TWO_TO_32 {
      BlockOpens(data, entries, l);
      BlockSizes(data, entries, l);
      forall r: nat | r < |l.starts| ensures RestartsAt(data, l, r) { RestartAt(data, entries, l, r); }
    }
  }

  /** What SeekToFirst finds: the entry that the first restart point leads to, unless that is where the entries end. */
  predicate StartsEmpty(data: Bytes) {
    RestartOffset(data).Some? && var restarts := RestartOffset(data).value;
    restarts + 4 <= |data| && DecodeFixed32(data[restarts..restarts + 4]) >= restarts
  }

  /** Whether key is enough to complete the entry at position k. */
  ghost predicate Completes(entries: seq<Pair>, l: Layout, key: Bytes, k: nat) {
    k < |entries| && k < |l.shared| ==> l.shared[k] <= |entries[k].key| && entries[k].key[..l.shared[k]] <= key
  }

  lemma KeyCompletes(data: Bytes, entries: seq<Pair>, l: Layout, k: nat)
    requires IsBlock(data, entries, l) && k <= |entries|
    ensures Completes(entries, l, KeyBefore(entries, k), k)
  {
    if k < |entries| { EntryDecodes(data, entries, l, k); }
  }

  lemma StartCompletes(data: Bytes, entries: seq<Pair>, l: Layout, r: nat)
    requires IsBlock(data, entries, l) && r < |l.starts|
    ensures Completes(entries, l, [], l.starts[r])
  {
  }

  /** The position of the first key that is not below target. */
  function LowerBound(lt: Order, entries: seq<Pair>, target: Bytes): (k: nat)
    ensures k <= |entries|
  {
    if |entries| == 0 || !lt(entries[0].key, target) then 0 else 1 + LowerBound(lt, entries[1..], target)
  }

  lemma {:induction false} LowerBoundIs(lt: Order, entries: seq<Pair>, target: Bytes, k: nat)
    requires k <= |entries| && (forall i :: 0 <= i < k ==> lt(entries[i].key, target))
    requires k < |entries| ==> !lt(entries[k].key, target)
    ensures LowerBound(lt, entries, target) == k
  {
    if k == 0 {
    } else {
      assert lt(entries[0].key, target);
      forall i | 0 <= i < k - 1 ensures lt(entries[1..][i].key, target) { assert lt(entries[i + 1].key, target); }
      LowerBoundIs(lt, entries[1..], target, k - 1);
    }
  }

  /** If a key is below the target, so are all before it. */
  lemma EarlierAreBelow(lt: Order, entries: seq<Pair>, target: Bytes, k: nat)
    requires Transitive(lt) && Ascending(lt, entries) && k < |entries| && lt(entries[k].key, target)
    ensures forall i :: 0 <= i <= k ==> lt(entries[i].key, target)
  {
    forall i | 0 <= i <= k ensures lt(entries[i].key, target) {
      if i < k { assert lt(entries[i].key, entries[k].key); }
    }
  }

  /** A cursor over the entries.  It is at one of them, or past the last one; Prev from the first one also
      ends there. */
  class Iter {
    const lt: Order
    const data: Bytes
    const restarts: nat
    const numRestarts: nat
    var current: nat
    var restartIndex: nat
    var key: Bytes
    var valueStart: nat
    var valueLength: nat
    ghost const entries: seq<Pair>
    ghost const layout: Layout
    ghost var at: nat

    ghost predicate Ok()
      reads this
    {
      IsBlock(data, entries, layout) && restarts == Limit(layout) && numRestarts == |layout.starts| > 0 &&
      |layout.offsets| == |entries| + 1 && restarts <= |data| &&
      forall r: nat :: r < numRestarts ==> RestartsAt(data, layout, r)
    }

    /** The entry at position k is parsed next. */
    ghost predicate Before(k: nat)
      reads this
    {
      Ok() && k <= |entries| && valueStart + valueLength == layout.offsets[k] && Completes(entries, layout, key, k) &&
      restartIndex < numRestarts && layout.starts[restartIndex] <= k
    }

    ghost predicate AtEntry()
      reads this
    {
      Ok() && at < |entries| && current == layout.offsets[at] && key == entries[at].key &&
      valueStart + valueLength == layout.offsets[at + 1] <= |data| &&
      data[valueStart..valueStart + valueLength] == entries[at].value && NearStart(layout, restartIndex, at)
    }

    ghost predicate AtEnd()
      reads this
    {
      Ok() && at == |entries| && current == restarts && restartIndex == numRestarts
    }

    ghost predicate Valid()
      reads this
    {
      AtEntry() || AtEnd()
    }

    constructor (lt: Order, data: Bytes, restarts: nat, numRestarts: nat, ghost entries: seq<Pair>,
                 ghost layout: Layout)
      requires IsBlock(data, entries, layout) && restarts == Limit(layout) && numRestarts == |layout.starts|
      ensures AtEnd() && this.lt == lt && this.data == data && this.entries == entries
    {
      this.lt, this.data, this.restarts, this.numRestarts := lt, data, restarts, numRestarts;
      this.entries, this.layout := entries, layout;
      current, restartIndex := restarts, numRestarts;
      key, valueStart, valueLength := [], 0, 0;
      at := |entries|;
      new;
      hide IsBlock;
      BlockSizes(data, entries, layout);
      forall r: nat | r < numRestarts ensures RestartsAt(data, layout, r) { RestartAt(data, entries, layout, r); }
    }

    predicate IsValid()
      reads this
    {
      current < restarts
    }

    function Value(): Bytes
      requires valueStart + valueLength <= |data|
      reads this
    {
      data[valueStart..valueStart + valueLength]
    }

    /** The reader keeps 32 bits of it. */
    function NextEntryOffset(): nat
      reads this
    {
      (valueStart + valueLength) % TWO_TO_32
    }

    /** What clients see. */
    lemma ShowsEntry()
      requires Valid()
      ensures IsValid() <==> at < |entries|
      ensures at < |entries| ==> valueStart + valueLength <= |data| && Pair(key, Value()) == entries[at]
    {
      hide IsBlock, NearStart;
      if at < |entries| { EntryDecodes(data, entries, layout, at); }
    }

    function GetRestartPoint(index: nat): nat
      requires restarts + 4 * index + 4 <= |data|
      reads this
    {
      DecodeFixed32(data[restarts + 4 * index..restarts + 4 * index + 4])
    }

    method SeekToRestartPoint(index: nat)
      requires Ok() && index < numRestarts
      modifies this
      ensures Ok() && Before(layout.starts[index]) && restartIndex == index
    {
      hide IsBlock;
      assert RestartsAt(data, layout, index);
      StartCompletes(data, entries, layout, index);
      key := [];
      restartIndex := index;
      valueStart, valueLength := GetRestartPoint(index), 0;
    }

    /** Moves the restart index up to the entry at position k. */
    method FollowRestarts(ghost k: nat)
      requires Ok() && k < |entries| && current == layout.offsets[k]
      requires restartIndex < numRestarts && layout.starts[restartIndex] <= k
      modifies this`restartIndex
      ensures Ok() && NearStart(layout, restartIndex, k)
    {
      hide IsBlock;
      ghost var next := restartIndex + 1;
      if next < numRestarts { FollowsStart(data, entries, layout, next, k); }
      assert next < numRestarts ==> RestartsAt(data, layout, next);
      while restartIndex + 1 < numRestarts && GetRestartPoint(restartIndex + 1) < current
        invariant Ok() && restartIndex < numRestarts && layout.starts[restartIndex] <= k && next == restartIndex + 1
        invariant next < numRestarts ==> RestartsAt(data, layout, next)
        invariant next < numRestarts ==> (layout.offsets[layout.starts[next]] < current <==> layout.starts[next] < k)
        decreases numRestarts - restartIndex
      {
        restartIndex := restartIndex + 1;
        next := next + 1;
        if next < numRestarts { FollowsStart(data, entries, layout, next, k); }
        assert next < numRestarts ==> RestartsAt(data, layout, next);
      }
    }

    method ParseNextKey(ghost k: nat) returns (more: bool)
      requires Before(k)
      modifies this
      ensures Valid() && at == k && more == (k < |entries|)
    {
      hide IsBlock, RestartsAt, Completes;
      OffsetFits(data, entries, layout, k);
      current := NextEntryOffset();
      if current >= restarts {
        EndIsLast(data, entries, layout, k);
        current, restartIndex, at := restarts, numRestarts, |entries|;
        return false;
      }
      NotAtEnd(data, entries, layout, k);
      TakeEntry(k);
      FollowRestarts(k);
      at, more := k, true;
    }

    /** Completes the key and finds the value of the entry at the current position. */
    method TakeEntry(ghost k: nat)
      requires Ok() && k < |entries| && current == layout.offsets[k] < restarts && Completes(entries, layout, key, k)
      modifies this`key, this`valueStart, this`valueLength
      ensures Ok() && key == entries[k].key && valueStart + valueLength == layout.offsets[k + 1] <= |data|
      ensures data[valueStart..valueStart + valueLength] == entries[k].value
    {
      hide IsBlock, DecodeEntry, RestartsAt, Completes;
      var e := DecodeEntry(data[current..restarts]);
      EntryIsParsed(data, entries, layout, k, key, e);
      if e.None? || |key| < e.value.shared {
        assert false;  // a block is read as it was built
      } else {
        key := key[..e.value.shared] + e.value.rest[..e.value.nonShared];
        valueStart, valueLength := restarts - |e.value.rest| + e.value.nonShared, e.value.valueLength;
      }
    }

    // -------------------------------------------------------------- what clients call

    method Next()
      requires Valid() && IsValid()
      modifies this
      ensures Valid() && at == old(at) + 1
    {
      hide IsBlock, Completes, RestartsAt;
      KeyCompletes(data, entries, layout, at + 1);
      var more := ParseNextKey(at + 1);
    }

    /** Goes back to a restart point before the current entry, and forward from there. */
    method Prev()
      requires Valid() && IsValid()
      modifies this
      ensures Valid() && at == if old(at) > 0 then old(at) - 1 else |entries|
    {
      hide IsBlock, Completes;
      var original := current;
      ghost var k := at;
      while GetRestartPoint(restartIndex) >= original
        invariant Ok() && restartIndex < numRestarts && RestartsAt(data, layout, restartIndex)
        invariant original == layout.offsets[k] && k < |entries|
        decreases restartIndex
      {
        FollowsStart(data, entries, layout, restartIndex, k);
        if restartIndex == 0 {
          FirstStart(data, entries, layout);
          current, restartIndex, at := restarts, numRestarts, |entries|;
          return;
        }
        restartIndex := restartIndex - 1;
        assert RestartsAt(data, layout, restartIndex);
      }
      FollowsStart(data, entries, layout, restartIndex, k);
      SeekToRestartPoint(restartIndex);
      ParseUpTo(layout.starts[restartIndex], original, k);
    }

    /** The loop of Prev and SeekToLast: parses from the entry at position k on until an entry ends at offset end, where
        the entry at position last starts, or the block ends. */
    method ParseUpTo(ghost k: nat, end: nat, ghost last: nat)
      requires Before(k) && (k < last || k == |entries|) && last <= |entries| && end == layout.offsets[last]
      modifies this
      ensures Valid() && at == if k < last then last - 1 else |entries|
    {
      hide IsBlock, Completes, RestartsAt;
      var more := ParseNextKey(k);
      if more { OffsetFits(data, entries, layout, at + 1); }
      while more && NextEntryOffset() < end
        invariant Valid() && (if k < last then more && at < last else !more && at == |entries|)
        invariant end == layout.offsets[last] && (more ==> NextEntryOffset() == layout.offsets[at + 1])
        decreases last - at
      {
        OffsetsInOrder(data, entries, layout, at + 1, last);
        KeyCompletes(data, entries, layout, at + 1);
        more := ParseNextKey(at + 1);
        if more { OffsetFits(data, entries, layout, at + 1); }
      }
      if more { OffsetsInOrder(data, entries, layout, at + 1, last); }
    }

    method SeekToFirst()
      requires Ok()
      modifies this
      ensures Valid() && at == 0
    {
      hide IsBlock, Completes, RestartsAt;
      FirstStart(data, entries, layout);
      SeekToRestartPoint(0);
      var more := ParseNextKey(0);
    }

    method SeekToLast()
      requires Ok()
      modifies this
      ensures Valid() && at == if |entries| > 0 then |entries| - 1 else 0
    {
      hide IsBlock, Completes, RestartsAt;
      LastStartIsEntry(data, entries, layout);
      SeekToRestartPoint(numRestarts - 1);
      ParseUpTo(layout.starts[numRestarts - 1], restarts, |entries|);
    }

    /** The key at a restart point, which is there in full. */
    method RestartKey(index: nat) returns (k: Bytes)
      requires Ok() && 0 < index < numRestarts
      ensures layout.starts[index] < |entries| && k == entries[layout.starts[index]].key
    {
      hide IsBlock, DecodeEntry;
      assert RestartsAt(data, layout, index);
      StartShares(data, entries, layout, index);
      EntryDecodes(data, entries, layout, layout.starts[index]);
      var e := DecodeEntry(data[GetRestartPoint(index)..restarts]);
      if e.None? || e.value.shared != 0 {
        assert false;  // a block is read as it was built
      } else {
        k := e.value.rest[..e.value.nonShared];
      }
    }

    /** The last restart point whose key is below the target, or the first one. */
    method FindRestart(target: Bytes) returns (left: nat)
      requires Ok()
      ensures left < numRestarts && layout.starts[left] <= |entries|
      ensures left > 0 ==> layout.starts[left] < |entries| && lt(entries[layout.starts[left]].key, target)
    {
      hide IsBlock, RestartsAt;
      left := 0;
      var right := numRestarts - 1;
      while left < right
        invariant left <= right < numRestarts
        invariant left > 0 ==> layout.starts[left] < |entries| && lt(entries[layout.starts[left]].key, target)
        decreases right - left
      {
        var mid := (left + right + 1) / 2;
        var midKey := RestartKey(mid);
        if lt(midKey, target) { left := mid; } else { right := mid - 1; }
      }
      FirstStart(data, entries, layout);
    }

    /** Binary search over the restart points, then linear search. */
    method Seek(target: Bytes)
      requires Ok() && Transitive(lt) && Ascending(lt, entries)
      modifies this
      ensures Valid() && at == LowerBound(lt, entries, target)
    {
      hide IsBlock, Completes, RestartsAt, Transitive, Ascending, LowerBound;
      var left := FindRestart(target);
      ghost var k := layout.starts[left];
      if left > 0 { EarlierAreBelow(lt, entries, target, k); } else { FirstStart(data, entries, layout); }
      SeekToRestartPoint(left);
      while true
        invariant Before(k) && forall i :: 0 <= i < k ==> lt(entries[i].key, target)
        decreases |entries| - k
      {
        var more := ParseNextKey(k);
        if !more {
          LowerBoundIs(lt, entries, target, k);
          return;
        }
        if !lt(key, target) {
          LowerBoundIs(lt, entries, target, k);
          return;
        }
        k := k + 1;
        KeyCompletes(data, entries, layout, k);
      }
    }
  }

  lemma FirstStart(data: Bytes, entries: seq<Pair>, l: Layout)
    requires IsBlock(data, entries, l)
    ensures |l.starts| > 0 && l.starts[0] == 0 && |l.offsets| > 0 && l.offsets[0] == 0
  {
  }

  lemma LastStartIsEntry(data: Bytes, entries: seq<Pair>, l: Layout)
    requires IsBlock(data, entries, l)
    ensures |l.starts| > 0 && var k := l.starts[|l.starts| - 1]; k < |entries| || k == |entries| == 0
  {
  }

  lemma StartShares(data: Bytes, entries: seq<Pair>, l: Layout, r: nat)
    requires IsBlock(data, entries, l) && 0 < r < |l.starts|
    ensures l.starts[r] < |entries| == |l.shared| && l.shared[l.starts[r]] == 0
  {
  }

  lemma OffsetsInOrder(data: Bytes, entries: seq<Pair>, l: Layout, i: nat, j: nat)
    requires IsBlock(data, entries, l) && i <= |entries| && j <= |entries|
    ensures |l.offsets| == |entries| + 1 && (l.offsets[i] < l.offsets[j] <==> i < j)
  {
    hide EntryAt;
    if i < j {
      OffsetsAscend(data[..Limit(l)], entries, l, i, j);
    } else {
      OffsetsAscend(data[..Limit(l)], entries, l, j, i);
    }
  }

  /** What the decoded lengths make of the bytes, with a key that is enough to complete the entry. */
  lemma EntryIsParsed(data: Bytes, entries: seq<Pair>, l: Layout, k: nat, key: Bytes, r: Option<Lengths>)
    requires IsBlock(data, entries, l) && k < |entries| && Completes(entries, l, key, k)
    requires |l.offsets| == |entries| + 1 && l.offsets[k] <= Limit(l) <= |data|
    requires r == DecodeEntry(data[l.offsets[k]..Limit(l)])
    ensures r.Some? && var e := r.value;
            e.shared <= |key| && e.nonShared <= |e.rest| <= Limit(l) &&
            key[..e.shared] + e.rest[..e.nonShared] == entries[k].key &&
            Limit(l) - |e.rest| + e.nonShared + e.valueLength == l.offsets[k + 1] <= |data| &&
            data[l.offsets[k + 1] - e.valueLength..l.offsets[k + 1]] == entries[k].value
  {
    hide IsBlock, DecodeEntry;
    BlockSizes(data, entries, l);
    EntryDecodes(data, entries, l, k);
    KeySplits(entries[k].key, l.shared[k], key);
    var n := |entries[k].key| - l.shared[k];
    assert r.value.rest[..n] == entries[k].key[l.shared[k]..];
  }

  lemma KeySplits(full: Bytes, n: nat, key: Bytes)
    requires n <= |full| && full[..n] <= key
    ensures n <= |key| && key[..n] + full[n..] == full
  {
  }

  /** Offsets are in the order of their entries. */
  lemma FollowsStart(data: Bytes, entries: seq<Pair>, l: Layout, r: nat, k: nat)
    requires IsBlock(data, entries, l) && r < |l.starts| && k <= |entries|
    ensures |l.offsets| == |entries| + 1 && l.starts[r] <= |entries|
    ensures l.offsets[l.starts[r]] < l.offsets[k] <==> l.starts[r] < k
  {
    hide Laid, Words;
    BlockSizes(data, entries, l);
    OffsetsInOrder(data, entries, l, l.starts[r], k);
  }

  lemma BlockSizes(data: Bytes, entries: seq<Pair>, l: Layout)
    requires IsBlock(data, entries, l)
    ensures |l.offsets| == |entries| + 1 && |l.shared| == |entries| && |l.starts| > 0 && Limit(l) <= |data|
  {
    LaidSizes(data[..Limit(l)], entries, l);
  }

  /** No offset is cut off. */
  lemma OffsetFits(data: Bytes, entries: seq<Pair>, l: Layout, k: nat)
    requires IsBlock(data, entries, l) && k <= |entries|
    ensures |l.offsets| == |entries| + 1 && l.offsets[k] % TWO_TO_32 == l.offsets[k]
  {
    hide EntryAt;
    OffsetsAscend(data[..Limit(l)], entries, l, k, |entries|);
    SmallRemainder(l.offsets[k], TWO_TO_32);
  }

  lemma EndIsLast(data: Bytes, entries: seq<Pair>, l: Layout, k: nat)
    requires IsBlock(data, entries, l) && k <= |entries| && l.offsets[k] >= Limit(l)
    ensures k == |entries|
  {
    OffsetsAscend(data[..Limit(l)], entries, l, k, |entries|);
  }

  lemma NotAtEnd(data: Bytes, entries: seq<Pair>, l: Layout, k: nat)
    requires IsBlock(data, entries, l) && k <= |entries| && l.offsets[k] < Limit(l)
    ensures k < |entries|
  {
    BlockSizes(data, entries, l);
  }

  /** Where the entries end within 32 bits, the first one is found. */
  lemma FirstIsFound(data: Bytes, entries: seq<Pair>, l: Layout)
    requires IsBlock(data, entries, l)
    ensures StartsEmpty(data) <==> |entries| == 0
  {
    hide IsBlock;
    BlockOpens(data, entries, l);
    BlockSizes(data, entries, l);
    RestartAt(data, entries, l, 0);
    FirstStart(data, entries, l);
    OffsetsInOrder(data, entries, l, 0, |entries|);
  }

  /** A cursor over a finished block. */
  method NewIterator(lt: Order, data: Bytes, ghost entries: seq<Pair>, ghost layout: Layout) returns (it: Iter)
    requires IsBlock(data, entries, layout)
    ensures fresh(it) && it.AtEnd() && it.lt == lt && it.data == data && it.entries == entries
  {
    BlockOpens(data, entries, layout);
    it := new Iter(lt, data, RestartOffset(data).value, NumRestarts(data), entries, layout);
  }

  // ---------------------------------------------------------------- the bytes say everything

  /** Where the next entry starts, and what it is, only depends on the bytes and on the entry before. */
  lemma NextIsSame(data: Bytes, e1: seq<Pair>, l1: Layout, e2: seq<Pair>, l2: Layout, k: nat)
    requires IsBlock(data, e1, l1) && IsBlock(data, e2, l2) && Limit(l1) == Limit(l2) && k < |e1| && k < |e2|
    requires l1.offsets[k] == l2.offsets[k] && KeyBefore(e1, k) == KeyBefore(e2, k)
    ensures l1.offsets[k + 1] == l2.offsets[k + 1] && e1[k] == e2[k]
  {
    hide IsBlock, DecodeEntry;
    BlockSizes(data, e1, l1);
    BlockSizes(data, e2, l2);
    EntryDecodes(data, e1, l1, k);
    EntryDecodes(data, e2, l2, k);
    DecodedIsSame(data, e1, l1, e2, l2, k);
  }

  lemma DecodedIsSame(data: Bytes, e1: seq<Pair>, l1: Layout, e2: seq<Pair>, l2: Layout, k: nat)
    requires k < |e1| && k < |e2| && k < |l1.shared| && k < |l2.shared| && k + 1 < |l1.offsets| && k + 1 < |l2.offsets|
    requires Limit(l1) == Limit(l2) <= |data| && l1.offsets[k + 1] <= Limit(l1) && l2.offsets[k + 1] <= Limit(l2)
    requires l1.shared[k] <= |e1[k].key| && e1[k].key[..l1.shared[k]] <= KeyBefore(e1, k) == KeyBefore(e2, k)
    requires l2.shared[k] <= |e2[k].key| && e2[k].key[..l2.shared[k]] <= KeyBefore(e2, k)
    requires l1.shared[k] == l2.shared[k] && |e1[k].key| == |e2[k].key| && |e1[k].value| == |e2[k].value|
    requires e1[k].key[l1.shared[k]..] + e1[k].value + data[l1.offsets[k + 1]..Limit(l1)]
          == e2[k].key[l2.shared[k]..] + e2[k].value + data[l2.offsets[k + 1]..Limit(l2)]
    ensures l1.offsets[k + 1] == l2.offsets[k + 1] && e1[k] == e2[k]
  {
    var n := l1.shared[k];
    var r1 := e1[k].key[n..] + e1[k].value + data[l1.offsets[k + 1]..Limit(l1)];
    var r2 := e2[k].key[n..] + e2[k].value + data[l2.offsets[k + 1]..Limit(l2)];
    var m, v := |e1[k].key| - n, |e1[k].value|;
    assert e1[k].key[n..] == r1[..m] == e2[k].key[n..];
    assert e1[k].value == r1[m..m + v] == e2[k].value;
    assert e1[k].key[..n] == KeyBefore(e1, k)[..n] == e2[k].key[..n];
    assert e1[k].key == e1[k].key[..n] + e1[k].key[n..];
    assert e2[k].key == e2[k].key[..n] + e2[k].key[n..];
  }

  lemma {:induction false} PrefixIsSame(data: Bytes, e1: seq<Pair>, l1: Layout, e2: seq<Pair>, l2: Layout, k: nat)
    requires IsBlock(data, e1, l1) && IsBlock(data, e2, l2) && Limit(l1) == Limit(l2) && k <= |e1| && k <= |e2|
    ensures l1.offsets[k] == l2.offsets[k] && e1[..k] == e2[..k]
  {
    hide Laid, Words;
    if k == 0 {
      FirstStart(data, e1, l1);
      FirstStart(data, e2, l2);
    } else {
      PrefixIsSame(data, e1, l1, e2, l2, k - 1);
      if k > 1 { assert e1[k - 2] == e1[..k - 1][k - 2] == e2[..k - 1][k - 2]; }
      NextIsSame(data, e1, l1, e2, l2, k - 1);
    }
  }

  /** No two lists of entries make the same block. */
  lemma BlockDeterminesEntries(data: Bytes, e1: seq<Pair>, l1: Layout, e2: seq<Pair>, l2: Layout)
    requires IsBlock(data, e1, l1) && IsBlock(data, e2, l2)
    ensures e1 == e2
  {
    hide Laid, Words;
    BlockOpens(data, e1, l1);
    BlockOpens(data, e2, l2);
    var k := if |e1| <= |e2| then |e1| else |e2|;
    PrefixIsSame(data, e1, l1, e2, l2, k);
    OffsetsInOrder(data, e1, l1, k, |e1|);
    OffsetsInOrder(data, e2, l2, k, |e2|);
  }
}
