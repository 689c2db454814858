/** One compaction: which entries of its inputs are kept (db/db_impl.cc DoCompactionWork, db/version_set.cc
    Compaction). */
module Compaction {
  import opened InternalKeys
  import opened VersionSet
  import opened Iterators
  import opened OutputCuts

  // ---------------------------------------------------------------- which entries are obsolete

  /** No file of a level from first on has user key k in its range. */
  ghost predicate NoFileCovers(levels: seq<seq<File>>, first: nat, k: int) {
    forall l, f :: first <= l < |levels| && f in levels[l] ==> !f.Covers(k)
  }

  /** Rule (A): a newer entry of the same user key, itself old enough for every live reader, hides e. */
  ghost predicate Hidden(input: seq<Entry>, smallest: nat, e: Entry) {
    exists p :: p in input && p.key == e.key && e.sn < p.sn <= smallest
  }

  /** Rule (B): e is a deletion old enough for every live reader, and no deeper level can hold its key. */
  ghost predicate ObsoleteDeletion(smallest: nat, levels: seq<seq<File>>, first: nat, e: Entry) {
    e.op.Delete? && e.sn <= smallest && NoFileCovers(levels, first, e.key)
  }

  ghost predicate Survives(input: seq<Entry>, smallest: nat, levels: seq<seq<File>>, first: nat, e: Entry) {
    e in input && !Hidden(input, smallest, e) && !ObsoleteDeletion(smallest, levels, first, e)
  }

  /** Some file from level first on may hold user key k. */
  ghost predicate NeededBelow(levels: seq<seq<File>>, first: nat, k: int) {
    exists l, f: File :: first <= l < |levels| && f in levels[l] && f.data[0].key <= k <= f.data[|f.data| - 1].key
  }

  lemma CoveredIsNeeded(levels: seq<seq<File>>, first: nat, k: int)
    ensures NeededBelow(levels, first, k) <==> !NoFileCovers(levels, first, k)
  {
    if l, f: File :| first <= l < |levels| && f in levels[l] && f.Covers(k) {
      assert f.data[0].key <= k <= f.data[|f.data| - 1].key;
    }
    if l, f: File :| first <= l < |levels| && f in levels[l] && f.data[0].key <= k <= f.data[|f.data| - 1].key {
      assert f.Covers(k);
    }
  }

  /** The same without the rules: everything newer than what the oldest reader may ask for; and of each key what that
      reader sees, unless it is a deletion with nothing below it. */
  ghost predicate StillAskedFor(input: seq<Entry>, smallest: nat, levels: seq<seq<File>>, first: nat, e: Entry) {
    e in input &&
    (e.sn > smallest ||
     (NewestIn(input, e.key, smallest, e) && (e.op.Delete? ==> NeededBelow(levels, first, e.key))))
  }

  lemma SurvivorsAreAskedFor(input: seq<Entry>, smallest: nat, levels: seq<seq<File>>, first: nat, e: Entry)
    ensures Survives(input, smallest, levels, first, e) <==> StillAskedFor(input, smallest, levels, first, e)
  {
    hide NoFileCovers, NeededBelow;
    CoveredIsNeeded(levels, first, e.key);
  }

  /** What the outputs of a compaction are, reader by reader. */
  lemma OutputsAreNeeded(input: seq<Entry>, smallest: nat, levels: seq<seq<File>>, first: nat, out: seq<Entry>)
    requires Sorted(input) && forall e :: e in out <==> Survives(input, smallest, levels, first, e)
    ensures forall a, b :: a in out && b in out && a.key == b.key && a.sn <= smallest && b.sn <= smallest ==> a == b
    ensures forall e :: e in input && e.op.Delete? && e.sn <= smallest ==>
              (e in out <==> NewestIn(input, e.key, smallest, e) && NeededBelow(levels, first, e.key))
    ensures forall e: Entry, s: nat ::
      NewestIn(input, e.key, s, e) && s >= smallest && (e.op.Delete? ==> e.sn > smallest) ==> e in out
    ensures forall e :: e in out ==> e in input && exists s :: s >= smallest && NewestIn(input, e.key, s, e)
  {
    hide Survives;
    forall e ensures e in out <==> StillAskedFor(input, smallest, levels, first, e) {
      SurvivorsAreAskedFor(input, smallest, levels, first, e);
    }
    forall e | e in out ensures exists s :: s >= smallest && NewestIn(input, e.key, s, e) {
      assert NewestIn(input, e.key, if e.sn > smallest then e.sn else smallest, e);
    }
    forall a, b | a in out && b in out && a.key == b.key && a.sn <= smallest && b.sn <= smallest ensures a == b {
      SameEntryTwice(input, a, b);
    }
  }

  lemma SameEntryTwice(input: seq<Entry>, a: Entry, b: Entry)
    requires Sorted(input) && a in input && b in input && a.key == b.key
    ensures a.sn == b.sn ==> a == b
  {
    var i :| 0 <= i < |input| && input[i] == a;
    var j :| 0 <= j < |input| && input[j] == b;
    assert i < j ==> Before(a, b);
    assert j < i ==> Before(b, a);
  }

  // ---------------------------------------------------------------- the base-level test

  class BaseLevelCursor {
    const levels: seq<seq<File>>
    const first: nat
    const levelPtrs: array<nat>

    /** Every file already passed over ends before user key k. */
    ghost predicate Passed(k: int)
      reads levelPtrs
    {
      levelPtrs.Length == |levels| &&
      (forall l :: first <= l < |levels| ==> Disjoint(levels[l]) && levelPtrs[l] <= |levels[l]|) &&
      forall l, i :: first <= l < |levels| && 0 <= i < levelPtrs[l] ==> levels[l][i].Largest().key < k
    }

    constructor (levels: seq<seq<File>>, first: nat)
      requires forall l :: first <= l < |levels| ==> Disjoint(levels[l])
      ensures this.levels == levels && this.first == first && fresh(levelPtrs)
      ensures forall k :: Passed(k)
    {
      this.levels, this.first := levels, first;
      levelPtrs := new nat[|levels|](_ => 0);
    }

    /** Keys are asked for in ascending order, so a cursor per level never has to move back. */
    method IsBaseLevelForKey(k: int) returns (r: bool)
      requires Passed(k)
      modifies levelPtrs
      ensures forall k' :: k <= k' ==> Passed(k')
      ensures r <==> NoFileCovers(levels, first, k)
    {
      var l := first;
      while l < |levels|
        invariant first <= l
        invariant Passed(k)
        invariant forall m, f :: first <= m < l && m < |levels| && f in levels[m] ==> !f.Covers(k)
      {
        var fs := levels[l];
        while levelPtrs[l] < |fs|
          invariant Passed(k)
          decreases |fs| - levelPtrs[l]
        {
          var f := fs[levelPtrs[l]];
          if k <= f.Largest().key {
            if k >= f.Smallest().key {
              assert f in levels[l] && f.Covers(k);
              return false;
            }
            break;
          }
          levelPtrs[l] := levelPtrs[l] + 1;
        }
        LevelPassed(fs, levelPtrs[l], k);
        l := l + 1;
      }
      r := true;
    }
  }

  lemma LevelPassed(fs: seq<File>, p: nat, k: int)
    requires Disjoint(fs) && p <= |fs|
    requires forall i :: 0 <= i < p ==> fs[i].Largest().key < k
    requires p < |fs| ==> k < fs[p].Smallest().key
    ensures forall f :: f in fs ==> !f.Covers(k)
  {
    forall i | 0 <= i < |fs| ensures !fs[i].Covers(k) {
      if p < i { SmallestOrdered(fs, p, i); }
    }
  }

  // ---------------------------------------------------------------- the compaction loop

  /** Reads the merged inputs in order, drops what the two rules allow, and cuts what is left into tables. */
  method DoCompactionWork(input: MergingIterator, smallest: SequenceNumber, base: BaseLevelCursor,
                          stops: OverlapCursor)
    returns (outputs: seq<Table>)
    requires input.Ok() && smallest < MAX_SEQUENCE_NUMBER && forall k :: base.Passed(k)
    requires stops.AskedUpTo(input.merged, 0)
    modifies base.levelPtrs, stops, input, input.children
    ensures Sorted(Concat(outputs))
    ensures forall e :: e in Concat(outputs) <==> Survives(input.merged, smallest, base.levels, base.first, e)
    ensures forall a, b ::
              (a in Concat(outputs) && b in Concat(outputs) && a.key == b.key && a.sn <= smallest && b.sn <= smallest)
              ==> a == b
    ensures forall e :: e in input.merged && e.op.Delete? && e.sn <= smallest ==>
              (e in Concat(outputs) <==>
                 NewestIn(input.merged, e.key, smallest, e) && NeededBelow(base.levels, base.first, e.key))
    ensures forall e: Entry, s: nat ::
              (NewestIn(input.merged, e.key, s, e) && s >= smallest && (e.op.Delete? ==> e.sn > smallest))
              ==> e in Concat(outputs)
    ensures forall e :: e in Concat(outputs) ==>
              e in input.merged && exists s :: s >= smallest && NewestIn(input.merged, e.key, s, e)
    ensures RightlyCut(outputs, input.merged, stops.cut)
  {
    outputs := CompactInputs(input, smallest, base, stops);
    OutputsAreNeeded(input.merged, smallest, base.levels, base.first, Concat(outputs));
  }

  /** The loop of DoCompactionWork. */
  method CompactInputs(input: MergingIterator, smallest: SequenceNumber, base: BaseLevelCursor, stops: OverlapCursor)
    returns (outputs: seq<Table>)
    requires input.Ok() && smallest < MAX_SEQUENCE_NUMBER && forall k :: base.Passed(k)
    requires stops.AskedUpTo(input.merged, 0)
    modifies base.levelPtrs, stops, input, input.children
    ensures Sorted(Concat(outputs)) && Sorted(input.merged)
    ensures forall e :: e in Concat(outputs) <==> Survives(input.merged, smallest, base.levels, base.first, e)
    ensures RightlyCut(outputs, input.merged, stops.cut)
  {
    hide MergingIterator.Ok, MergingIterator.Key, Survives, KeptSoFar, Written, CutSoFar, RightlyCut, StopsBefore;
    hide BaseLevelCursor.Passed, OverlapCursor.AskedUpTo, Sorted, Concat;
    ghost var all := input.merged;
    var cut := stops.cut;
    outputs := [];
    var builder: seq<Entry> := [];
    var currentUserKey: Option<int> := None;
    var lastSequenceForKey := MAX_SEQUENCE_NUMBER;
    ghost var kept: seq<Entry> := [];
    NothingWritten(all, smallest, base, cut);
    input.SeekToFirst();
    var i := 0;
    while input.Valid()
      invariant input.Ok() && i == input.at <= |all| && Sorted(all)
      invariant i < |all| ==> base.Passed(all[i].key)
      invariant stops.AskedUpTo(all, i)
      invariant i == 0 ==> currentUserKey == None
      invariant i > 0 ==> currentUserKey == Some(all[i - 1].key) && lastSequenceForKey == all[i - 1].sn
      invariant Written(outputs, builder, kept) && Sorted(kept) && KeptSoFar(all, smallest, base, i, kept)
      invariant CutSoFar(outputs, builder, all, cut, i)
      decreases |all| - i
    {
      var e := input.Key();
      var stop := stops.ShouldStopBefore(e, all, i);
      outputs, builder := StopOutput(outputs, builder, stop, all, cut, i, kept);
      if currentUserKey != Some(e.key) {
        currentUserKey, lastSequenceForKey := Some(e.key), MAX_SEQUENCE_NUMBER;
      }
      outputs, builder, kept :=
        KeepOrDrop(outputs, builder, e, all, smallest, base, cut, i, lastSequenceForKey, kept);
      lastSequenceForKey := e.sn;
      i := i + 1;
      input.Next();
    }
    outputs := FinishLast(outputs, builder, all, cut, i, kept);
    AllKept(all, smallest, base, i, kept);
  }

  /** Finishes the table being built if it must not go on with the entry at position i. */
  method StopOutput(outputs: seq<Table>, builder: seq<Entry>, stop: bool, ghost all: seq<Entry>, cut: Cut,
                    ghost i: nat, ghost kept: seq<Entry>)
    returns (outputs': seq<Table>, builder': seq<Entry>)
    requires Written(outputs, builder, kept) && Sorted(kept) && i < |all| && CutSoFar(outputs, builder, all, cut, i)
    requires stop <==> StopsBefore(all, cut, i)
    ensures Written(outputs', builder', kept) && CutSoFar(outputs', builder', all, cut, i + 1)
  {
    hide Written, CutSoFar, StopsBefore, Sorted;
    if stop && |builder| > 0 {
      FinishTable(outputs, builder, kept);
      StopStep(outputs, builder, all, cut, i);
      return outputs + [builder], [];
    }
    NoStopStep(outputs, builder, all, cut, i);
    outputs', builder' := outputs, builder;
  }

  /** Drops one entry or adds it to the outputs. */
  method KeepOrDrop(outputs: seq<Table>, builder: seq<Entry>, e: Entry, ghost all: seq<Entry>,
                    smallest: SequenceNumber, base: BaseLevelCursor, cut: Cut, ghost i: nat, lastSequenceForKey: nat,
                    ghost kept: seq<Entry>)
    returns (outputs': seq<Table>, builder': seq<Entry>, ghost kept': seq<Entry>)
    requires Sorted(all) && smallest < MAX_SEQUENCE_NUMBER && i < |all| && e == all[i] && base.Passed(e.key)
    requires lastSequenceForKey
          == if i > 0 && all[i - 1].key == all[i].key then all[i - 1].sn else MAX_SEQUENCE_NUMBER
    requires Written(outputs, builder, kept) && Sorted(kept) && KeptSoFar(all, smallest, base, i, kept)
    requires CutSoFar(outputs, builder, all, cut, i + 1)
    modifies base.levelPtrs
    ensures i + 1 < |all| ==> base.Passed(all[i + 1].key)
    ensures Written(outputs', builder', kept') && Sorted(kept') && KeptSoFar(all, smallest, base, i + 1, kept')
    ensures CutSoFar(outputs', builder', all, cut, i + 1)
  {
    hide Written, CutSoFar, Sorted, KeptSoFar, Survives, BaseLevelCursor.Passed;
    var drop := CanDrop(all, i, e, smallest, base, lastSequenceForKey);
    KeptStep(all, smallest, base, i, kept, drop);
    outputs', builder', kept' := outputs, builder, kept;
    if !drop {
      outputs', builder' := AddToOutput(outputs, builder, e, all, cut, i, kept);
      kept' := kept + [e];
    }
  }

  /** Adds an entry to the table being built, and finishes the table if that makes it full. */
  method AddToOutput(outputs: seq<Table>, builder: seq<Entry>, e: Entry, ghost all: seq<Entry>, cut: Cut,
                     ghost i: nat, ghost kept: seq<Entry>)
    returns (outputs': seq<Table>, builder': seq<Entry>)
    requires Written(outputs, builder, kept) && Sorted(kept + [e]) && Sorted(all) && i < |all| && e == all[i]
    requires CutSoFar(outputs, builder, all, cut, i + 1)
    ensures Written(outputs', builder', kept + [e]) && CutSoFar(outputs', builder', all, cut, i + 1)
  {
    hide Written, CutSoFar, RightlyCut, LastIsCut, InGroup, FullAtMostAtEnd, Sorted;
    AppendEntry(outputs, builder, kept, e);
    AddStep(outputs, builder, all, cut, i);
    outputs', builder' := outputs, builder + [e];
    if cut.Full(builder') {
      FinishTable(outputs, builder', kept + [e]);
      FullStep(outputs, builder', all, cut, i + 1);
      outputs', builder' := outputs + [builder'], [];
    }
  }

  /** Finishes the last table. */
  method FinishLast(outputs: seq<Table>, builder: seq<Entry>, ghost all: seq<Entry>, ghost cut: Cut, ghost i: nat,
                    ghost kept: seq<Entry>)
    returns (outputs': seq<Table>)
    requires Written(outputs, builder, kept) && Sorted(kept) && i <= |all| && CutSoFar(outputs, builder, all, cut, i)
    ensures kept == Concat(outputs') && RightlyCut(outputs', all, cut)
  {
    hide Sorted, RightlyCut, CutSoFar, LastIsCut, InGroup, FullAtMostAtEnd, Stops;
    AllCut(outputs, builder, all, cut, i);
    outputs' := outputs;
    if |builder| > 0 {
      FinishTable(outputs, builder, kept);
      OneMoreTable(outputs, builder, all, cut, Stops(all, cut, i));
      outputs' := outputs + [builder];
    }
    AllWritten(outputs', kept);
  }

  lemma NothingWritten(all: seq<Entry>, smallest: nat, base: BaseLevelCursor, cut: Cut)
    ensures Written([], [], []) && Sorted([]) && KeptSoFar(all, smallest, base, 0, [])
    ensures CutSoFar([], [], all, cut, 0)
  {
    NothingCut(all, cut);
  }

  lemma AllWritten(outputs: seq<Table>, kept: seq<Entry>)
    requires Written(outputs, [], kept)
    ensures kept == Concat(outputs)
  {
    assert Concat(outputs) + [] == Concat(outputs);
  }

  lemma AllKept(input: seq<Entry>, smallest: nat, base: BaseLevelCursor, i: nat, kept: seq<Entry>)
    requires i == |input| && KeptSoFar(input, smallest, base, i, kept)
    ensures forall e :: e in kept <==> Survives(input, smallest, base.levels, base.first, e)
  {
    assert input[..i] == input;
  }

  /** The two drop rules, asked of entry i when lastSequenceForKey is the sequence number of the entry of the same
      user key just before it, if there is one. */
  method CanDrop(ghost input: seq<Entry>, ghost i: nat, e: Entry, smallest: SequenceNumber, base: BaseLevelCursor,
                 lastSequenceForKey: nat)
    returns (drop: bool)
    requires Sorted(input) && smallest < MAX_SEQUENCE_NUMBER && i < |input| && e == input[i] && base.Passed(e.key)
    requires lastSequenceForKey
          == if i > 0 && input[i - 1].key == input[i].key then input[i - 1].sn else MAX_SEQUENCE_NUMBER
    modifies base.levelPtrs
    ensures i + 1 < |input| ==> base.Passed(input[i + 1].key)
    ensures drop <==> !Survives(input, smallest, base.levels, base.first, input[i])
  {
    HiddenByPredecessor(input, smallest, i);
    if i + 1 < |input| { assert Before(input[i], input[i + 1]); }
    drop := lastSequenceForKey <= smallest;
    if !drop && e.op.Delete? && e.sn <= smallest {
      drop := base.IsBaseLevelForKey(e.key);
    }
  }

  ghost predicate KeptSoFar(input: seq<Entry>, smallest: nat, base: BaseLevelCursor, i: nat, kept: seq<Entry>)
    requires i <= |input|
  {
    forall e :: e in kept <==> e in input[..i] && Survives(input, smallest, base.levels, base.first, e)
  }

  lemma KeptStep(input: seq<Entry>, smallest: nat, base: BaseLevelCursor, i: nat, kept: seq<Entry>, drop: bool)
    requires Sorted(input) && i < |input| && Sorted(kept) && KeptSoFar(input, smallest, base, i, kept)
    requires drop <==> !Survives(input, smallest, base.levels, base.first, input[i])
    ensures drop ==> KeptSoFar(input, smallest, base, i + 1, kept)
    ensures !drop ==> KeptSoFar(input, smallest, base, i + 1, kept + [input[i]]) && Sorted(kept + [input[i]])
  {
    assert input[..i + 1] == input[..i] + [input[i]];
    AppendSorted(kept, input, i);
  }

  /** kept is what the finished tables and the table being built hold, in order. */
  ghost predicate Written(outputs: seq<Table>, builder: seq<Entry>, kept: seq<Entry>) {
    kept == Concat(outputs) + builder
  }

  lemma AppendEntry(outputs: seq<Table>, builder: seq<Entry>, kept: seq<Entry>, e: Entry)
    requires Written(outputs, builder, kept)
    ensures Written(outputs, builder + [e], kept + [e])
  {
  }

  lemma FinishTable(outputs: seq<Table>, builder: seq<Entry>, kept: seq<Entry>)
    requires |builder| > 0 && Written(outputs, builder, kept) && Sorted(kept)
    ensures Sorted(builder) && Written(outputs + [builder], [], kept)
  {
    forall i, j | 0 <= i < j < |builder| ensures Before(builder[i], builder[j]) {
      assert Before(kept[|Concat(outputs)| + i], kept[|Concat(outputs)| + j]);
    }
    assert (outputs + [builder])[..|outputs|] == outputs;
  }

  lemma AppendSorted(kept: seq<Entry>, input: seq<Entry>, i: nat)
    requires Sorted(kept) && Sorted(input) && i < |input|
    requires forall e :: e in kept ==> e in input[..i]
    ensures Sorted(kept + [input[i]])
  {
    forall e | e in kept ensures Before(e, input[i]) {
      var j :| 0 <= j < i && input[..i][j] == e;
      assert Before(input[j], input[i]);
    }
  }

  /** In sorted order it is enough to look at the entry just before. */
  lemma HiddenByPredecessor(input: seq<Entry>, smallest: nat, i: nat)
    requires Sorted(input) && i < |input|
    ensures Hidden(input, smallest, input[i]) <==>
              i > 0 && input[i - 1].key == input[i].key && input[i - 1].sn <= smallest
  {
    var e := input[i];
    if i > 0 && input[i - 1].key == e.key && input[i - 1].sn <= smallest {
      assert Before(input[i - 1], input[i]);
      assert input[i - 1] in input;
    }
    if Hidden(input, smallest, e) {
      var p :| p in input && p.key == e.key && e.sn < p.sn <= smallest;
      var j :| 0 <= j < |input| && input[j] == p;
      if j > i { assert Before(input[i], input[j]); }
      if j < i - 1 {
        assert Before(input[j], input[i - 1]);
        assert Before(input[i - 1], input[i]);
      }
    }
  }

  /** Tables cut from one sorted run are disjoint, and hold what the run held. */
  lemma {:induction false} ConcatIsDisjoint(tables: seq<Table>)
    requires Sorted(Concat(tables))
    ensures forall i, j, a, b :: 0 <= i < j < |tables| && a in tables[i] && b in tables[j] ==> Before(a, b)
    ensures forall e :: e in Concat(tables) <==> exists i :: 0 <= i < |tables| && e in tables[i]
  {
    if |tables| == 0 {
    } else {
      var n := |tables| - 1;
      var rest := Concat(tables[..n]);
      forall i, j | 0 <= i < j < |rest| ensures Before(rest[i], rest[j]) {
        assert Before(Concat(tables)[i], Concat(tables)[j]);
      }
      ConcatIsDisjoint(tables[..n]);
      forall a, b | a in rest && b in tables[n] ensures Before(a, b) {
        var i :| 0 <= i < |rest| && rest[i] == a;
        var j :| 0 <= j < |tables[n]| && tables[n][j] == b;
        assert Before(Concat(tables)[i], Concat(tables)[|rest| + j]);
      }
      forall i, a | 0 <= i < n && a in tables[i] ensures a in rest { assert a in tables[..n][i]; }
      forall e | e in rest ensures exists i :: 0 <= i < |tables| && e in tables[i] {
        var i :| 0 <= i < n && e in tables[..n][i];
        assert e in tables[i];
      }
      forall i, j, a, b | 0 <= i < j < |tables| && a in tables[i] && b in tables[j] ensures Before(a, b) {
        if j < n { assert a in tables[..n][i] && b in tables[..n][j]; }
      }
    }
  }
}
