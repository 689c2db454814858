/** Cursors over sorted runs of internal keys: a run cut into blocks behind an index (table/two_level_iterator.cc),
    and several runs merged into one (table/merger.cc). */
module Iterators {
  import opened InternalKeys

  // ---------------------------------------------------------------- blocks

  function Flatten(blocks: seq<seq<Entry>>): seq<Entry> {
    if |blocks| == 0 then [] else Flatten(blocks[..|blocks| - 1]) + blocks[|blocks| - 1]
  }

  /** Where block i starts in the flattened run. */
  ghost function Start(blocks: seq<seq<Entry>>, i: nat): nat
    requires i <= |blocks|
  {
    if i == 0 then 0 else Start(blocks, i - 1) + |blocks[i - 1]|
  }

  lemma {:induction false} StartIsPrefix(blocks: seq<seq<Entry>>, i: nat, n: nat)
    requires i <= n <= |blocks|
    ensures Start(blocks[..n], i) == Start(blocks, i)
  {
    if i == 0 {
    } else {
      StartIsPrefix(blocks, i - 1, n);
    }
  }

  lemma {:induction false} FlattenAt(blocks: seq<seq<Entry>>, i: nat)
    requires i <= |blocks|
    ensures Start(blocks, i) <= |Flatten(blocks)| && Start(blocks, |blocks|) == |Flatten(blocks)|
    ensures i < |blocks| ==> Start(blocks, i) + |blocks[i]| <= |Flatten(blocks)|
    ensures i < |blocks| ==> Flatten(blocks)[Start(blocks, i)..Start(blocks, i) + |blocks[i]|] == blocks[i]
    decreases |blocks|
  {
    if |blocks| == 0 {
    } else {
      var n := |blocks| - 1;
      FlattenAt(blocks[..n], if i < n then i else n);
      StartIsPrefix(blocks, if i < n then i else n, n);
      StartIsPrefix(blocks, n, n);
    }
  }

  lemma BlockEntry(blocks: seq<seq<Entry>>, i: nat, off: nat)
    requires i < |blocks| && off < |blocks[i]|
    ensures Start(blocks, i) + off < |Flatten(blocks)| && Flatten(blocks)[Start(blocks, i) + off] == blocks[i][off]
  {
    FlattenAt(blocks, i);
    assert Flatten(blocks)[Start(blocks, i)..Start(blocks, i) + |blocks[i]|][off] == blocks[i][off];
  }

  /** Every entry of the run lies in a block. */
  lemma {:induction false} BlockOf(blocks: seq<seq<Entry>>, p: nat) returns (i: nat)
    requires p < |Flatten(blocks)|
    ensures i < |blocks| && Start(blocks, i) <= p < Start(blocks, i) + |blocks[i]|
    ensures Flatten(blocks)[p] == blocks[i][p - Start(blocks, i)]
  {
    var n := |blocks| - 1;
    FlattenAt(blocks, n);
    if p < |Flatten(blocks[..n])| {
      i := BlockOf(blocks[..n], p);
      StartIsPrefix(blocks, i, n);
    } else {
      FlattenAt(blocks[..n], n);
      StartIsPrefix(blocks, n, n);
      i := n;
    }
  }

  /** Index key i is at or after everything in block i and before everything in later blocks. */
  ghost predicate Separates(separators: seq<Entry>, blocks: seq<seq<Entry>>) {
    |separators| == |blocks| &&
    (forall i, e :: 0 <= i < |blocks| && e in blocks[i] ==> !Before(separators[i], e)) &&
    (forall i, j, e :: 0 <= i < j < |blocks| && e in blocks[j] ==> Before(separators[i], e))
  }

  /** p is where the entries at or after (k, s) begin. */
  ghost predicate LowerBound(es: seq<Entry>, k: int, s: nat, p: nat) {
    p <= |es| && (forall j :: 0 <= j < p ==> !AtOrAfter(es[j], k, s)) &&
    (forall j :: p <= j < |es| ==> AtOrAfter(es[j], k, s))
  }

  lemma LookupIsLowerBound(es: seq<Entry>, k: int, s: nat)
    requires Sorted(es)
    ensures LowerBound(es, k, s, Lookup(es, k, s))
  {
    var p := Lookup(es, k, s);
    forall j | p <= j < |es| ensures AtOrAfter(es[j], k, s) {
      if p < j { assert Before(es[p], es[j]); }
    }
  }

  /** One seek in the index and one in the block it names find the lower bound in the whole run. */
  lemma IndexSeek(blocks: seq<seq<Entry>>, separators: seq<Entry>, k: int, s: nat, i: nat, off: nat)
    requires Separates(separators, blocks) && i <= |blocks|
    requires forall j :: 0 <= j < i ==> !AtOrAfter(separators[j], k, s)
    requires i < |blocks| ==> AtOrAfter(separators[i], k, s) && LowerBound(blocks[i], k, s, off)
    requires i == |blocks| ==> off == 0
    ensures LowerBound(Flatten(blocks), k, s, Start(blocks, i) + off)
  {
    var all, p := Flatten(blocks), Start(blocks, i) + off;
    FlattenAt(blocks, i);
    forall j: nat | j < |all| ensures AtOrAfter(all[j], k, s) <==> p <= j {
      var b := BlockOf(blocks, j);
      BlockOrder(blocks, i, b);
      BesideSeparator(blocks, separators, k, s, i, b, all[j]);
    }
  }

  lemma BesideSeparator(blocks: seq<seq<Entry>>, separators: seq<Entry>, k: int, s: nat, i: nat, b: nat, e: Entry)
    requires Separates(separators, blocks) && i <= |blocks| && b < |blocks| && e in blocks[b]
    requires forall j :: 0 <= j < i ==> !AtOrAfter(separators[j], k, s)
    requires i < |blocks| ==> AtOrAfter(separators[i], k, s)
    ensures b < i ==> !AtOrAfter(e, k, s)
    ensures b > i ==> AtOrAfter(e, k, s)
  {
    if b < i { assert !Before(separators[b], e); }
    if b > i { assert Before(separators[i], e); }
  }

  lemma {:induction false} BlockOrder(blocks: seq<seq<Entry>>, i: nat, b: nat)
    requires i <= |blocks| && b <= |blocks|
    ensures b < i ==> Start(blocks, b) + |blocks[b]| <= Start(blocks, i)
    ensures i < b ==> Start(blocks, i) + |blocks[i]| <= Start(blocks, b)
  {
    if i == b || i == b + 1 || b == i + 1 {
    } else if b < i {
      BlockOrder(blocks, i - 1, b);
    } else {
      BlockOrder(blocks, i, b - 1);
    }
  }

  /** A cursor over one run: memtables and tables are runs of their own, a sorted level is a run of one block a
      file. */
  class TwoLevelIterator {
    const blocks: seq<seq<Entry>>
    const separators: seq<Entry>
    ghost const data: seq<Entry>
    var index: int                 // the index iterator
    var block: Option<nat>         // the block the data iterator reads, if there is a data iterator
    var offset: int                // the data iterator
    ghost var pos: int             // the same position in the whole run: -1 before it, |data| behind it

    ghost predicate Ok()
      reads this
    {
      data == Flatten(blocks) && Sorted(data) && Separates(separators, blocks) && -1 <= pos <= |data| &&
      (if 0 <= pos < |data| then At(pos) && 0 <= offset < |blocks[index]| else block.None?)
    }

    /** The data iterator reads the block of the index entry and stands for position p of the run; it may have
        left its block at either end. */
    ghost predicate At(p: int)
      reads this
    {
      0 <= index < |blocks| && block == Some(index) && -1 <= offset <= |blocks[index]| &&
      p == Start(blocks, index) + offset
    }

    constructor (blocks: seq<seq<Entry>>, separators: seq<Entry>)
      requires Sorted(Flatten(blocks)) && Separates(separators, blocks)
      ensures Ok() && this.blocks == blocks && data == Flatten(blocks)
    {
      this.blocks, this.separators, this.data := blocks, separators, Flatten(blocks);
      index, block, offset, pos := -1, None, 0, -1;
    }

    /** Whether the data iterator stands on an entry. */
    predicate DataValid()
      reads this
      requires block.Some? ==> block.value < |blocks|
    {
      block.Some? && 0 <= offset < |blocks[block.value]|
    }

    predicate Valid()
      reads this
      requires Ok()
      ensures Valid() <==> 0 <= pos < |data|
    {
      DataValid()
    }

    function Key(): (e: Entry)
      reads this
      requires Ok() && Valid()
      ensures e == data[pos]
    {
      BlockEntry(blocks, index, offset);
      blocks[block.value][offset]
    }

    /** Makes the data iterator one for the block of the index entry, which keeps its place if it is one already. */
    method InitDataBlock()
      modifies this`block, this`offset
      ensures block == if 0 <= index < |blocks| then Some(index) else None
    {
      if !(0 <= index < |blocks|) {
        block := None;
      } else if block != Some(index) {
        block, offset := Some(index), -1;
      }
    }

    method SkipEmptyDataBlocksForward(ghost p: nat)
      requires data == Flatten(blocks) && Sorted(data) && Separates(separators, blocks)
      requires (At(p) && offset >= 0) || (index == |blocks| && block.None? && p == |data|)
      modifies this
      ensures Ok() && pos == p
    {
      while !DataValid()
        invariant (At(p) && offset >= 0) || (index == |blocks| && block.None? && p == |data|)
        decreases |blocks| - index
      {
        if !(0 <= index < |blocks|) {
          block, pos := None, p;
          return;
        }
        index := index + 1;
        InitDataBlock();
        if block.Some? { offset := 0; }
        FlattenAt(blocks, index);
      }
      pos := p;
      FlattenAt(blocks, index);
    }

    method SkipEmptyDataBlocksBackward(ghost p: int)
      requires data == Flatten(blocks) && Sorted(data) && Separates(separators, blocks)
      requires (At(p) && offset < |blocks[index]|) || (index == -1 && block.None? && p == -1)
      modifies this
      ensures Ok() && pos == p
    {
      while !DataValid()
        invariant (At(p) && offset < |blocks[index]|) || (index == -1 && block.None? && p == -1)
        decreases index
      {
        if !(0 <= index < |blocks|) {
          block, pos := None, p;
          return;
        }
        index := index - 1;
        InitDataBlock();
        if block.Some? { offset := |blocks[index]| - 1; }
      }
      pos := p;
      FlattenAt(blocks, index);
    }

    method SeekToFirst()
      requires Ok()
      modifies this
      ensures Ok() && pos == 0
    {
      index := 0;
      InitDataBlock();
      if block.Some? { offset := 0; }
      FlattenAt(blocks, 0);
      SkipEmptyDataBlocksForward(0);
    }

    method SeekToLast()
      requires Ok()
      modifies this
      ensures Ok() && pos == |data| - 1
    {
      index := |blocks| - 1;
      InitDataBlock();
      if block.Some? { offset := |blocks[index]| - 1; }
      FlattenAt(blocks, |blocks|);
      SkipEmptyDataBlocksBackward(|data| - 1);
    }

    /** The index iterator's Seek. */
    method SeekIndex(k: int, s: nat)
      modifies this`index
      requires |separators| == |blocks|
      ensures 0 <= index <= |blocks| && (forall j :: 0 <= j < index ==> !AtOrAfter(separators[j], k, s))
      ensures index < |blocks| ==> AtOrAfter(separators[index], k, s)
    {
      index := Lookup(separators, k, s);
    }

    method Seek(k: int, s: nat)
      requires Ok()
      modifies this
      ensures Ok() && pos >= 0 && LowerBound(data, k, s, pos)
    {
      SeekIndex(k, s);
      InitDataBlock();
      ghost var p := Start(blocks, index);
      if block.Some? {
        BlockSorted(blocks, index);
        LookupIsLowerBound(blocks[index], k, s);
        offset := Lookup(blocks[index], k, s);
        p := p + offset;
      }
      IndexSeek(blocks, separators, k, s, index, p - Start(blocks, index));
      FlattenAt(blocks, |blocks|);
      SkipEmptyDataBlocksForward(p);
    }

    method Next()
      requires Ok() && Valid()
      modifies this
      ensures Ok() && pos == old(pos) + 1
    {
      offset := offset + 1;
      SkipEmptyDataBlocksForward(pos + 1);
    }

    method Prev()
      requires Ok() && Valid()
      modifies this
      ensures Ok() && pos == old(pos) - 1
    {
      offset := offset - 1;
      SkipEmptyDataBlocksBackward(pos - 1);
    }
  }

  lemma BlockSorted(blocks: seq<seq<Entry>>, i: nat)
    requires i < |blocks| && Sorted(Flatten(blocks))
    ensures Sorted(blocks[i])
  {
    FlattenAt(blocks, i);
    var all, p := Flatten(blocks), Start(blocks, i);
    forall a, b | 0 <= a < b < |blocks[i]| ensures Before(blocks[i][a], blocks[i][b]) {
      assert blocks[i][a] == all[p..p + |blocks[i]|][a] && blocks[i][b] == all[p..p + |blocks[i]|][b];
    }
  }

  // ---------------------------------------------------------------- merging

  /** p is where a run passes from the entries before position c of the merged run to the others. */
  ghost predicate CutAt(data: seq<Entry>, p: int, merged: seq<Entry>, c: int) {
    0 <= p <= |data| && 0 <= c <= |merged| &&
    forall j :: 0 <= j < |data| ==> (j < p <==> IsBelow(data[j], merged, c))
  }

  ghost predicate IsBelow(e: Entry, merged: seq<Entry>, c: nat)
    requires c <= |merged|
  {
    c == |merged| || Before(e, merged[c])
  }

  /** Every entry of a run is in the merged run. */
  ghost predicate Within(data: seq<Entry>, merged: seq<Entry>) { forall e :: e in data ==> e in merged }

  /** Every entry of the merged run is in one run, and in no other. */
  ghost predicate Merges(runs: seq<seq<Entry>>, merged: seq<Entry>) {
    Sorted(merged) && (forall i :: 0 <= i < |runs| ==> Sorted(runs[i]) && Within(runs[i], merged)) &&
    (forall e :: e in merged ==> exists i :: 0 <= i < |runs| && e in runs[i]) &&
    (forall i, j, e :: 0 <= i < |runs| && 0 <= j < |runs| && e in runs[i] && e in runs[j] ==> i == j)
  }

  lemma SameEntry(merged: seq<Entry>, a: Entry, b: Entry)
    requires Sorted(merged) && a in merged && b in merged && !Before(a, b) && !Before(b, a)
    ensures a == b
  {
    var i :| 0 <= i < |merged| && merged[i] == a;
    var j :| 0 <= j < |merged| && merged[j] == b;
    IndexOrder(merged, i, j);
    IndexOrder(merged, j, i);
  }

  /** The run's cursor goes forward with the merged one exactly when the entry between is its own. */
  lemma CutForward(data: seq<Entry>, p: int, merged: seq<Entry>, c: int)
    requires Sorted(data) && Sorted(merged) && Within(data, merged) && CutAt(data, p, merged, c) && c < |merged|
    ensures CutAt(data, if merged[c] in data then p + 1 else p, merged, c + 1)
    ensures merged[c] in data ==> p < |data| && data[p] == merged[c]
  {
    if merged[c] in data { OwnAtCut(data, p, merged, c); }
    forall j | 0 <= j < |data| ensures IsBelow(data[j], merged, c + 1) <==> j < p || data[j] == merged[c] {
      var x := RankOf(data, merged, j, c);
      if c + 1 < |merged| { IndexOrder(merged, x, c + 1); }
    }
    forall j | 0 <= j < |data| && data[j] == merged[c] ensures j == p {
      IndexOrder(data, j, p);
      IndexOrder(data, p, j);
    }
  }

  /** Where an entry of the run stands in the merged run, relative to position c. */
  lemma RankOf(data: seq<Entry>, merged: seq<Entry>, j: nat, c: nat) returns (x: nat)
    requires Sorted(merged) && Within(data, merged) && j < |data| && c < |merged|
    ensures x < |merged| && merged[x] == data[j] && (Before(data[j], merged[c]) <==> x < c)
  {
    assert data[j] in data;
    x :| 0 <= x < |merged| && merged[x] == data[j];
    IndexOrder(merged, x, c);
  }

  lemma IndexOrder(merged: seq<Entry>, x: nat, c: nat)
    requires Sorted(merged) && x < |merged| && c < |merged|
    ensures Before(merged[x], merged[c]) <==> x < c
  {
    if c < x { assert Before(merged[c], merged[x]); }
  }

  lemma OwnAtCut(data: seq<Entry>, p: int, merged: seq<Entry>, c: int)
    requires Sorted(data) && CutAt(data, p, merged, c) && c < |merged| && merged[c] in data
    ensures p < |data| && data[p] == merged[c]
  {
    var q :| 0 <= q < |data| && data[q] == merged[c];
    assert p <= q;
    IndexOrder(data, p, q);
  }

  lemma CutBackward(data: seq<Entry>, p: int, merged: seq<Entry>, c: int)
    requires Sorted(data) && Sorted(merged) && Within(data, merged) && CutAt(data, p, merged, c) && c > 0
    ensures CutAt(data, if merged[c - 1] in data then p - 1 else p, merged, c - 1)
    ensures merged[c - 1] in data ==> p > 0 && data[p - 1] == merged[c - 1]
  {
    forall j | 0 <= j < |data| ensures j < p <==> Before(data[j], merged[c - 1]) || data[j] == merged[c - 1] {
      assert data[j] in data;
      var x :| 0 <= x < |merged| && merged[x] == data[j];
      IndexOrder(merged, x, c - 1);
      if c < |merged| { IndexOrder(merged, x, c); }
    }
    if q :| 0 <= q < |data| && data[q] == merged[c - 1] {
      IndexOrder(data, q, p - 1);
    }
    forall j | 0 <= j < p - 1 ensures Before(data[j], data[p - 1]) {}
  }

  /** Where an entry of the run is the one at position c, it marks the cut. */
  lemma OwnIsCut(data: seq<Entry>, p: nat, merged: seq<Entry>, c: nat)
    requires Sorted(data) && p < |data| && c < |merged| && data[p] == merged[c]
    ensures CutAt(data, p, merged, c)
  {
    forall j | p < j < |data| ensures !Before(data[j], merged[c]) { assert Before(data[p], data[j]); }
  }

  lemma BoundIsCut(data: seq<Entry>, p: nat, merged: seq<Entry>, c: nat)
    requires c < |merged| && LowerBound(data, merged[c].key, merged[c].sn, p)
    ensures CutAt(data, p, merged, c)
  {
  }

  lemma BoundsAreCuts(data: seq<Entry>, p: nat, merged: seq<Entry>, c: nat, k: int, s: nat)
    requires Sorted(data) && Sorted(merged) && Within(data, merged)
    requires LowerBound(data, k, s, p) && LowerBound(merged, k, s, c)
    ensures CutAt(data, p, merged, c)
  {
    forall j | 0 <= j < |data| ensures j < p <==> IsBelow(data[j], merged, c) {
      if c < |merged| {
        var x := RankOf(data, merged, j, c);
      } else {
        assert data[j] in data;
      }
    }
  }

  /** Several runs read as one. */
  class MergingIterator {
    const children: seq<TwoLevelIterator>
    ghost const runs: seq<seq<Entry>>
    ghost const merged: seq<Entry>
    var current: Option<nat>
    var forward: bool
    ghost var at: int                // the position in the merged run

    ghost predicate Shape() {
      Merges(runs, merged) && |runs| == |children| &&
      (forall i :: 0 <= i < |runs| ==> children[i].data == runs[i]) &&
      (forall i, j :: 0 <= i < |children| && 0 <= j < |children| && i != j ==> children[i] != children[j])
    }

    ghost predicate ChildrenOk()
      reads children
    {
      forall i :: 0 <= i < |children| ==> children[i].Ok()
    }

    /** Child i stands on its first entry that is not before position c of the merged run. */
    ghost predicate Behind(i: nat, c: int)
      requires i < |children|
      reads children[i]
    {
      CutAt(children[i].data, children[i].pos, merged, c)
    }

    /** Child i stands on its last entry before position c of the merged run. */
    ghost predicate Ahead(i: nat, c: int)
      requires i < |children|
      reads children[i]
    {
      CutAt(children[i].data, children[i].pos + 1, merged, c)
    }

    ghost predicate IsCurrent(m: nat, c: int)
      reads children
      requires ChildrenOk()
    {
      m < |children| && children[m].Valid() && 0 <= c < |merged| && children[m].Key() == merged[c]
    }

    ghost predicate Ok()
      reads this, children
      ensures Ok() ==> Sorted(merged) && -1 <= at <= |merged| && (current.Some? <==> 0 <= at < |merged|)
    {
      Shape() && ChildrenOk() && -1 <= at <= |merged| && (current.None? <==> !(0 <= at < |merged|)) &&
      (current.Some? ==> IsCurrent(current.value, at) && OthersPlaced(current.value))
    }

    /** All children but the current one stand where the direction wants them. */
    ghost predicate OthersPlaced(m: nat)
      reads this, children
    {
      forall i :: 0 <= i < |children| && i != m ==> if forward then Behind(i, at) else Ahead(i, at)
    }

    predicate Valid()
      reads this
    {
      current.Some?
    }

    function Key(): (e: Entry)
      reads this, children
      requires Ok() && Valid()
      ensures e == merged[at]
    {
      children[current.value].Key()
    }

    lemma SmallestIsAt(m: nat, c: nat)
      requires Shape() && ChildrenOk() && forall i :: 0 <= i < |children| ==> Behind(i, c)
      requires m < |children| && children[m].Valid()
      requires forall j :: 0 <= j < |children| && children[j].Valid() ==> !Before(children[j].Key(), children[m].Key())
      ensures IsCurrent(m, c)
    {
      assert Behind(m, c);
      assert c < |merged|;
      assert merged[c] in merged;
      var h :| 0 <= h < |runs| && merged[c] in runs[h];
      assert Behind(h, c);
      OwnAtCut(children[h].data, children[h].pos, merged, c);
      assert children[m].Key() in children[m].data && Within(runs[m], merged);
      SameEntry(merged, children[m].Key(), merged[c]);
    }

    lemma NoneIsEnd(c: nat)
      requires Shape() && ChildrenOk() && forall i :: 0 <= i < |children| ==> Behind(i, c)
      requires c <= |merged| && forall j :: 0 <= j < |children| ==> !children[j].Valid()
      ensures c == |merged|
    {
      if c < |merged| {
        assert merged[c] in merged;
        var h :| 0 <= h < |runs| && merged[c] in runs[h];
        assert Behind(h, c);
        OwnAtCut(children[h].data, children[h].pos, merged, c);
      }
    }

    method FindSmallest(ghost c: nat)
      requires Shape() && ChildrenOk() && c <= |merged| && forall i :: 0 <= i < |children| ==> Behind(i, c)
      modifies this`current
      ensures if c == |merged| then current.None? else current.Some? && IsCurrent(current.value, c)
    {
      current := None;
      var i := 0;
      while i < |children|
        invariant 0 <= i <= |children|
        invariant current.None? ==> forall j :: 0 <= j < i ==> !children[j].Valid()
        invariant current.Some? ==> current.value < i && children[current.value].Valid()
        invariant current.Some? ==> forall j :: 0 <= j < i && children[j].Valid() ==>
                    !Before(children[j].Key(), children[current.value].Key())
      {
        if children[i].Valid() && (current.None? || Before(children[i].Key(), children[current.value].Key())) {
          current := Some(i);
        }
        i := i + 1;
      }
      if current.None? { NoneIsEnd(c); } else { SmallestIsAt(current.value, c); }
    }

    lemma LargestIsAt(m: nat, c: nat)
      requires Shape() && ChildrenOk() && 0 < c <= |merged| && forall i :: 0 <= i < |children| ==> Ahead(i, c)
      requires m < |children| && children[m].Valid()
      requires forall j :: 0 <= j < |children| && children[j].Valid() ==> !Before(children[m].Key(), children[j].Key())
      ensures IsCurrent(m, c - 1)
    {
      assert merged[c - 1] in merged;
      var h :| 0 <= h < |runs| && merged[c - 1] in runs[h];
      assert Ahead(h, c) && Ahead(m, c);
      CutBackward(children[h].data, children[h].pos + 1, merged, c);
      CutBackward(children[m].data, children[m].pos + 1, merged, c);
      assert children[m].Key() in children[m].data && Within(runs[m], merged);
      var x := RankOf(children[m].data, merged, children[m].pos, c - 1);
      assert IsBelow(children[m].Key(), merged, c);
      if c < |merged| { IndexOrder(merged, x, c); }
      IndexOrder(merged, c - 1, x);
      SameEntry(merged, children[m].Key(), merged[c - 1]);
    }

    lemma NoneIsStart(c: nat)
      requires Shape() && ChildrenOk() && forall i :: 0 <= i < |children| ==> Ahead(i, c)
      requires c <= |merged| && forall j :: 0 <= j < |children| ==> !children[j].Valid()
      ensures c == 0
    {
      if c > 0 {
        assert merged[c - 1] in merged;
        var h :| 0 <= h < |runs| && merged[c - 1] in runs[h];
        assert Ahead(h, c);
        CutBackward(children[h].data, children[h].pos + 1, merged, c);
      }
    }

    lemma NothingAhead(m: nat)
      requires Shape() && ChildrenOk() && m < |children| && Ahead(m, 0)
      ensures !children[m].Valid()
    {
      StartIsCut(children[m].data, children[m].pos + 1, merged);
    }

    method FindLargest(ghost c: nat)
      requires Shape() && ChildrenOk() && c <= |merged| && forall i :: 0 <= i < |children| ==> Ahead(i, c)
      modifies this`current
      ensures if c == 0 then current.None? else current.Some? && IsCurrent(current.value, c - 1)
    {
      hide MergingIterator.Ahead;
      current := None;
      var i := |children| - 1;
      while i >= 0
        invariant -1 <= i < |children|
        invariant current.None? ==> forall j :: i < j < |children| ==> !children[j].Valid()
        invariant current.Some? ==> i < current.value < |children| && children[current.value].Valid()
        invariant current.Some? ==> forall j :: i < j < |children| && children[j].Valid() ==>
                    !Before(children[current.value].Key(), children[j].Key())
      {
        if children[i].Valid() && (current.None? || Before(children[current.value].Key(), children[i].Key())) {
          current := Some(i);
        }
        i := i - 1;
      }
      if current.None? {
        NoneIsStart(c);
      } else {
        if c == 0 { NothingAhead(current.value); }
        LargestIsAt(current.value, c);
      }
    }

    constructor (children: seq<TwoLevelIterator>, ghost merged: seq<Entry>)
      requires forall i :: 0 <= i < |children| ==> children[i].Ok()
      requires Merges(seq(|children|, i requires 0 <= i < |children| => children[i].data), merged)
      requires forall i, j :: 0 <= i < |children| && 0 <= j < |children| && i != j ==> children[i] != children[j]
      ensures Ok() && this.children == children && this.merged == merged && !Valid()
    {
      this.children, this.merged := children, merged;
      this.runs := seq(|children|, i requires 0 <= i < |children| => children[i].data);
      current, forward, at := None, true, -1;
    }

    method SeekToFirst()
      requires Ok()
      modifies this, children
      ensures Ok() && at == 0
    {
      var i := 0;
      while i < |children|
        invariant 0 <= i <= |children| && ChildrenOk()
        invariant forall j :: 0 <= j < i ==> children[j].pos == 0
      {
        children[i].SeekToFirst();
        i := i + 1;
      }
      forall i | 0 <= i < |children| ensures Behind(i, 0) { NothingBefore(children[i].data, merged); }
      SettleForward(0);
    }

    method SeekToLast()
      requires Ok()
      modifies this, children
      ensures Ok() && at == |merged| - 1
    {
      var i := 0;
      while i < |children|
        invariant 0 <= i <= |children| && ChildrenOk()
        invariant forall j :: 0 <= j < i ==> children[j].pos == |children[j].data| - 1
      {
        children[i].SeekToLast();
        i := i + 1;
      }
      SettleBackward(|merged|);
    }

    /** An entry that is another child's: this child's place on either side of it is the same. */
    lemma OtherStaysAhead(m: nat, i: nat, c: nat)
      requires Shape() && ChildrenOk() && 0 < c <= |merged| && i < |children| && i != m
      requires IsCurrent(m, c - 1) && Ahead(i, c)
      ensures Ahead(i, c - 1)
    {
      assert children[m].Key() in runs[m];
      CutBackward(children[i].data, children[i].pos + 1, merged, c);
    }

    lemma OtherStaysBehind(m: nat, i: nat, c: nat)
      requires Shape() && ChildrenOk() && c < |merged| && i < |children| && i != m
      requires IsCurrent(m, c) && Behind(i, c)
      ensures Behind(i, c + 1)
    {
      assert children[m].Key() in runs[m];
      CutForward(children[i].data, children[i].pos, merged, c);
    }

    /** After FindLargest, one step back. */
    method SettleBackward(ghost c: nat)
      requires Shape() && ChildrenOk() && c <= |merged| && forall i :: 0 <= i < |children| ==> Ahead(i, c)
      modifies this
      ensures Ok() && at == c - 1 && !forward
    {
      FindLargest(c);
      forward, at := false, c - 1;
      if current.Some? {
        forall i | 0 <= i < |children| && i != current.value ensures Ahead(i, at) {
          OtherStaysAhead(current.value, i, c);
        }
      }
    }

    method SettleForward(ghost c: nat)
      requires Shape() && ChildrenOk() && c <= |merged| && forall i :: 0 <= i < |children| ==> Behind(i, c)
      modifies this
      ensures Ok() && at == c && forward
    {
      FindSmallest(c);
      forward, at := true, c;
    }

    method Seek(k: int, s: nat)
      requires Ok()
      modifies this, children
      ensures Ok() && at >= 0 && LowerBound(merged, k, s, at)
    {
      var i := 0;
      while i < |children|
        invariant 0 <= i <= |children| && ChildrenOk()
        invariant forall j :: 0 <= j < i ==> children[j].pos >= 0 && LowerBound(children[j].data, k, s, children[j].pos)
      {
        children[i].Seek(k, s);
        i := i + 1;
      }
      ghost var c := Lookup(merged, k, s);
      LookupIsLowerBound(merged, k, s);
      forall i | 0 <= i < |children| ensures Behind(i, c) {
        BoundsAreCuts(children[i].data, children[i].pos, merged, c, k, s);
      }
      SettleForward(c);
    }

    method Next()
      requires Ok() && Valid()
      modifies this, children
      ensures Ok() && at == old(at) + 1
    {
      if !forward { PlaceOthersBehind(); }
      ghost var c, d, m := at, at + 1, current.value;
      OwnIsCut(children[m].data, children[m].pos, merged, c);
      forall i | 0 <= i < |children| && i != m ensures Behind(i, d) { OtherStaysBehind(m, i, c); }
      CutForward(children[m].data, children[m].pos, merged, c);
      assert merged[c] in children[m].data;
      children[current.value].Next();
      SettleForward(d);
    }

    /** Past the key, should the child hold it as well. */
    method PlaceBehind(i: nat, key: Entry)
      requires i < |children| && children[i].Ok() && 0 <= at < |merged| && key == merged[at]
      requires Sorted(merged) && Within(children[i].data, merged)
      modifies children[i]
      ensures children[i].Ok() && Behind(i, if key in children[i].data then at + 1 else at)
    {
      children[i].Seek(key.key, key.sn);
      BoundIsCut(children[i].data, children[i].pos, merged, at);
      CutForward(children[i].data, children[i].pos, merged, at);
      if children[i].Valid() && children[i].Key() == key {
        children[i].Next();
      }
    }

    method PlaceAhead(i: nat, key: Entry)
      requires i < |children| && children[i].Ok() && 0 <= at < |merged| && key == merged[at]
      modifies children[i]
      ensures children[i].Ok() && Ahead(i, at)
    {
      children[i].Seek(key.key, key.sn);
      BoundIsCut(children[i].data, children[i].pos, merged, at);
      if children[i].Valid() {
        children[i].Prev();
      } else {
        children[i].SeekToLast();
      }
    }

    /** The non-current children go to their first entries behind the current key. */
    method PlaceOthersBehind()
      requires Ok() && Valid() && !forward
      modifies this`forward, children
      ensures Ok() && forward
      ensures at == old(at) && current == old(current)
    {
      var m := current.value;
      var i := 0;
      while i < |children|
        invariant 0 <= i <= |children| && ChildrenOk() && children[m].pos == old(children[m].pos)
        invariant forall j :: 0 <= j < i && j != m ==> Behind(j, at)
      {
        if i != m {
          PlaceBehind(i, children[m].Key());
        }
        i := i + 1;
      }
      forward := true;
    }

    method Prev()
      requires Ok() && Valid()
      modifies this, children
      ensures Ok() && at == old(at) - 1
    {
      if forward { PlaceOthersAhead(); }
      ghost var c, m := at, current.value;
      OwnIsCut(children[m].data, children[m].pos, merged, c);
      children[current.value].Prev();
      SettleBackward(c);
    }

    /** The non-current children go to their last entries before the current key. */
    method PlaceOthersAhead()
      requires Ok() && Valid() && forward
      modifies this`forward, children
      ensures Ok() && !forward
      ensures at == old(at) && current == old(current)
    {
      var m := current.value;
      var i := 0;
      while i < |children|
        invariant 0 <= i <= |children| && ChildrenOk() && children[m].pos == old(children[m].pos)
        invariant forall j :: 0 <= j < i && j != m ==> Ahead(j, at)
      {
        if i != m {
          PlaceAhead(i, children[m].Key());
        }
        i := i + 1;
      }
      forward := false;
    }
  }

  lemma StartIsCut(data: seq<Entry>, p: int, merged: seq<Entry>)
    requires Sorted(merged) && Within(data, merged) && CutAt(data, p, merged, 0)
    ensures p == 0
  {
    NothingBefore(data, merged);
    assert |data| > 0 ==> !IsBelow(data[0], merged, 0);
  }

  lemma NothingBefore(data: seq<Entry>, merged: seq<Entry>)
    requires Sorted(merged) && Within(data, merged)
    ensures CutAt(data, 0, merged, 0)
  {
    forall j | 0 <= j < |data| ensures !IsBelow(data[j], merged, 0) {
      assert data[j] in data;
      var x :| 0 <= x < |merged| && merged[x] == data[j];
      IndexOrder(merged, x, 0);
    }
  }
}
