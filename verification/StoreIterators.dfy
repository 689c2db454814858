/** The internal iterators of the store: over everything it holds (db/db_impl.cc NewInternalIterator), and over the
    inputs of a compaction (db/version_set.cc MakeInputIterator). */
module StoreIterators {
  import opened InternalKeys
  import opened VersionSet
  import opened Store
  import opened Iterators
  import opened DbIter
  import StoreRuns

  // ---------------------------------------------------------------- one run

  function Blocks(fs: seq<File>): seq<seq<Entry>> { seq(|fs|, i requires 0 <= i < |fs| => fs[i].data) }

  function LargestKeys(fs: seq<File>): seq<Entry> { seq(|fs|, i requires 0 <= i < |fs| => fs[i].Largest()) }

  lemma LargestKeysSeparate(fs: seq<File>)
    requires Disjoint(fs)
    ensures Separates(LargestKeys(fs), Blocks(fs))
  {
    forall i, e | 0 <= i < |fs| && e in fs[i].data ensures !Before(fs[i].Largest(), e) { EntryInRange(fs[i], e); }
    forall i, j, e | 0 <= i < j < |fs| && e in fs[j].data ensures Before(fs[i].Largest(), e) {
      assert Before(fs[i].Largest(), fs[j].Smallest());
      EntryInRange(fs[j], e);
    }
  }

  lemma {:induction false} DisjointIsSorted(fs: seq<File>)
    requires Disjoint(fs)
    ensures Sorted(Flatten(Blocks(fs))) && forall e :: e in Flatten(Blocks(fs)) <==> InFiles(fs, e)
  {
    if |fs| == 0 {
    } else {
      var n := |fs| - 1;
      var rest := Flatten(Blocks(fs[..n]));
      DisjointIsSorted(fs[..n]);
      assert Blocks(fs)[..n] == Blocks(fs[..n]);
      assert Flatten(Blocks(fs)) == rest + fs[n].data;
      forall i, j | 0 <= i < |rest| && 0 <= j < |fs[n].data| ensures Before(rest[i], fs[n].data[j]) {
        assert rest[i] in rest;
        RestIsBefore(fs, rest[i], fs[n].data[j]);
      }
      forall e ensures InFiles(fs, e) <==> InFiles(fs[..n], e) || e in fs[n].data { FilesSplit(fs, n, e); }
    }
  }

  lemma FilesSplit(fs: seq<File>, n: nat, e: Entry)
    requires n + 1 == |fs|
    ensures InFiles(fs, e) <==> InFiles(fs[..n], e) || e in fs[n].data
  {
    if InFiles(fs, e) {
      var f :| f in fs && e in f.data;
      var i :| 0 <= i < |fs| && fs[i] == f;
      if i < n { assert fs[..n][i] == f; }
    }
  }

  lemma RestIsBefore(fs: seq<File>, a: Entry, b: Entry)
    requires |fs| > 0 && Disjoint(fs) && InFiles(fs[..|fs| - 1], a) && b in fs[|fs| - 1].data
    ensures Before(a, b)
  {
    var n := |fs| - 1;
    var f :| f in fs[..n] && a in f.data;
    var i :| 0 <= i < n && fs[..n][i] == f;
    assert Before(fs[i].Largest(), fs[n].Smallest());
    EntryInRange(f, a);
    EntryInRange(fs[n], b);
  }

  /** The concatenating iterator over files that do not overlap. */
  method LevelIterator(fs: seq<File>) returns (r: TwoLevelIterator)
    requires Disjoint(fs)
    ensures fresh(r) && r.Ok() && forall e :: e in r.data <==> InFiles(fs, e)
  {
    LargestKeysSeparate(fs);
    DisjointIsSorted(fs);
    r := new TwoLevelIterator(Blocks(fs), LargestKeys(fs));
  }

  lemma OneBlock(mem: seq<Entry>)
    requires Sorted(mem) && |mem| > 0
    ensures Flatten([mem]) == mem && Separates([mem[|mem| - 1]], [mem])
  {
    hide Sorted, Before;
    assert [mem][..0] == [];
    assert Flatten([mem]) == mem;
    forall e | e in mem ensures !Before(mem[|mem| - 1], e) { LastIsLargest(mem, e); }
  }

  lemma NoBlock()
    ensures Flatten([]) == [] && Separates([], [])
  {
  }

  /** The iterator over a memtable. */
  method MemIterator(mem: seq<Entry>) returns (r: TwoLevelIterator)
    requires Sorted(mem)
    ensures fresh(r) && r.Ok() && r.data == mem
  {
    hide Sorted, Separates, Flatten;
    if |mem| == 0 {
      NoBlock();
      r := new TwoLevelIterator([], []);
    } else {
      OneBlock(mem);
      r := new TwoLevelIterator([mem], [mem[|mem| - 1]]);
    }
  }

  lemma LastIsLargest(es: seq<Entry>, e: Entry)
    requires Sorted(es) && e in es
    ensures !Before(es[|es| - 1], e)
  {
    var i :| 0 <= i < |es| && es[i] == e;
    IndexOrder(es, |es| - 1, i);
  }

  // ---------------------------------------------------------------- merging runs

  /** Different iterators that never hold the same sequence number. */
  ghost predicate Mergeable(children: seq<TwoLevelIterator>)
    reads children
  {
    (forall i :: 0 <= i < |children| ==> children[i].Ok()) &&
    (forall i, j :: 0 <= i < |children| && 0 <= j < |children| && i != j ==>
       children[i] != children[j] && NoCommonNumber(children[i].data, children[j].data))
  }

  ghost predicate NoCommonNumber(es: seq<Entry>, fs: seq<Entry>) { forall a, b :: a in es && b in fs ==> a.sn != b.sn }

  ghost predicate InAny(children: seq<TwoLevelIterator>, e: Entry) {
    exists i :: 0 <= i < |children| && e in children[i].data
  }

  lemma AddChild(children: seq<TwoLevelIterator>, c: TwoLevelIterator)
    requires Mergeable(children) && c.Ok() && c !in children
    requires forall e, x :: InAny(children, e) && x in c.data ==> e.sn != x.sn
    ensures Mergeable(children + [c])
    ensures forall e :: InAny(children + [c], e) <==> InAny(children, e) || e in c.data
  {
    var more := children + [c];
    forall i | 0 <= i < |children| ensures NoCommonNumber(children[i].data, c.data) && children[i] != c {
      forall a, b | a in children[i].data && b in c.data ensures a.sn != b.sn { assert InAny(children, a); }
      assert children[i] in children;
    }
    forall e ensures InAny(more, e) <==> InAny(children, e) || e in c.data {
      if InAny(children, e) { var i :| 0 <= i < |children| && e in children[i].data; assert e in more[i].data; }
      if e in c.data { assert e in more[|children|].data; }
    }
  }

  /** All entries of the runs in one sorted run. */
  ghost function MergeAll(runs: seq<seq<Entry>>): seq<Entry> {
    if |runs| == 0 then [] else InsertAll(MergeAll(runs[..|runs| - 1]), runs[|runs| - 1])
  }

  lemma {:induction false} InsertAllSorted(mem: seq<Entry>, es: seq<Entry>)
    requires Sorted(mem) && Sorted(es) && NoCommonNumber(mem, es)
    ensures Sorted(InsertAll(mem, es))
  {
    if |es| == 0 {
    } else {
      var n := |es| - 1;
      InsertAllSorted(mem, es[..n]);
      forall x | x in InsertAll(mem, es[..n]) ensures x.key != es[n].key || x.sn != es[n].sn {
        if x in es[..n] {
          var i :| 0 <= i < n && es[i] == x;
          assert Before(es[i], es[n]);
        }
      }
      InsertSorted(InsertAll(mem, es[..n]), es[n]);
    }
  }

  lemma {:induction false} MergeAllMerges(runs: seq<seq<Entry>>)
    requires forall i :: 0 <= i < |runs| ==> Sorted(runs[i])
    requires forall i, j :: 0 <= i < |runs| && 0 <= j < |runs| && i != j ==> NoCommonNumber(runs[i], runs[j])
    ensures Sorted(MergeAll(runs)) && forall e :: e in MergeAll(runs) <==> exists i :: 0 <= i < |runs| && e in runs[i]
  {
    if |runs| == 0 {
    } else {
      var n := |runs| - 1;
      var rest := runs[..n];
      forall i, j | 0 <= i < n && 0 <= j < n && i != j ensures NoCommonNumber(rest[i], rest[j]) {
        assert NoCommonNumber(runs[i], runs[j]);
      }
      MergeAllMerges(rest);
      forall a, b | a in MergeAll(rest) && b in runs[n] ensures a.sn != b.sn {
        var i :| 0 <= i < n && a in rest[i];
        assert NoCommonNumber(runs[i], runs[n]);
      }
      InsertAllSorted(MergeAll(rest), runs[n]);
      forall e ensures e in MergeAll(runs) <==> exists i :: 0 <= i < |runs| && e in runs[i] {
        if i :| 0 <= i < |runs| && e in runs[i] { if i < n { assert e in rest[i]; } }
      }
    }
  }

  lemma SharedNumber(es: seq<Entry>, fs: seq<Entry>, e: Entry)
    requires e in es && e in fs
    ensures !NoCommonNumber(es, fs)
  {
  }

  method NewMergingIterator(children: seq<TwoLevelIterator>) returns (r: MergingIterator)
    requires Mergeable(children)
    ensures fresh(r) && r.children == children && r.Ok()
    ensures forall e :: e in r.merged <==> InAny(children, e)
  {
    ghost var runs := seq(|children|, i requires 0 <= i < |children| => children[i].data);
    forall i, j | 0 <= i < |runs| && 0 <= j < |runs| && i != j ensures NoCommonNumber(runs[i], runs[j]) {}
    MergeAllMerges(runs);
    MergesRuns(runs);
    r := new MergingIterator(children, MergeAll(runs));
  }

  lemma MergesRuns(runs: seq<seq<Entry>>)
    requires forall i :: 0 <= i < |runs| ==> Sorted(runs[i])
    requires forall i, j :: 0 <= i < |runs| && 0 <= j < |runs| && i != j ==> NoCommonNumber(runs[i], runs[j])
    requires Sorted(MergeAll(runs)) && forall e :: e in MergeAll(runs) <==> exists i :: 0 <= i < |runs| && e in runs[i]
    ensures Merges(runs, MergeAll(runs))
  {
    forall i, j, e | 0 <= i < |runs| && 0 <= j < |runs| && e in runs[i] && e in runs[j] ensures i == j {
      SharedNumber(runs[i], runs[j], e);
    }
  }

  // ---------------------------------------------------------------- the inputs of a compaction

  /** No sequence number occurs in two of these files, or twice in one. */
  ghost predicate ShareNothing(fs: set<File>) {
    forall f, g, a, b :: f in fs && g in fs && a in f.data && b in g.data && a.sn == b.sn ==> f == g && a == b
  }

  ghost predicate ShareFiles(fs: seq<File>, gs: seq<File>) { exists f :: f in fs && f in gs }

  lemma ShareNothingBetween(all: set<File>, fs: seq<File>, gs: seq<File>, a: Entry, b: Entry)
    requires ShareNothing(all) && (forall f :: f in fs ==> f in all) && (forall g :: g in gs ==> g in all)
    requires !ShareFiles(fs, gs) && InFiles(fs, a) && InFiles(gs, b)
    ensures a.sn != b.sn
  {
    var f :| f in fs && a in f.data;
    var g :| g in gs && b in g.data;
  }

  /** Level-0 files get an iterator each. */
  method AddFiles(fs: seq<File>, ghost all: set<File>) returns (children: seq<TwoLevelIterator>)
    requires ShareNothing(all) && forall f :: f in fs ==> f in all
    ensures Mergeable(children) && (forall i :: 0 <= i < |children| ==> fresh(children[i]))
    ensures forall e :: InAny(children, e) <==> InFiles(fs, e)
  {
    children := [];
    var i := 0;
    while i < |fs|
      invariant 0 <= i <= |fs|
      invariant Mergeable(children) && (forall k :: 0 <= k < |children| ==> fresh(children[k]))
      invariant forall e :: InAny(children, e) <==> InFiles(fs[..i], e)
    {
      assert fs[..i + 1][..i] == fs[..i];
      forall e ensures InFiles(fs[..i + 1], e) <==> InFiles(fs[..i], e) || e in fs[i].data {
        FilesSplit(fs[..i + 1], i, e);
      }
      if fs[i] !in fs[..i] {
        var c := LevelIterator([fs[i]]);
        NewFile(fs, all, i, children, c);
        children := children + [c];
      }
      i := i + 1;
    }
    assert fs[..i] == fs;
  }

  lemma NewFile(fs: seq<File>, all: set<File>, i: nat, children: seq<TwoLevelIterator>, c: TwoLevelIterator)
    requires ShareNothing(all) && (forall f :: f in fs ==> f in all) && i < |fs| && fs[i] !in fs[..i]
    requires Mergeable(children) && c.Ok() && c !in children
    requires forall e :: InAny(children, e) <==> InFiles(fs[..i], e)
    requires forall e :: e in c.data <==> InFiles([fs[i]], e)
    ensures Mergeable(children + [c])
    ensures forall e :: InAny(children + [c], e) <==> InAny(children, e) || e in fs[i].data
  {
    forall e, x | InAny(children, e) && x in c.data ensures e.sn != x.sn {
      ShareNothingBetween(all, fs[..i], [fs[i]], e, x);
    }
    AddChild(children, c);
    forall e ensures InFiles([fs[i]], e) <==> e in fs[i].data { FilesSplit([fs[i]], 0, e); }
  }

  method AddLevel(children: seq<TwoLevelIterator>, fs: seq<File>) returns (r: seq<TwoLevelIterator>)
    requires Mergeable(children) && Disjoint(fs)
    requires forall e, x :: InAny(children, e) && InFiles(fs, x) ==> e.sn != x.sn
    ensures Mergeable(r) && (forall i :: 0 <= i < |r| ==> r[i] in children || fresh(r[i]))
    ensures forall e :: InAny(r, e) <==> InAny(children, e) || InFiles(fs, e)
  {
    r := children;
    if |fs| > 0 {
      var c := LevelIterator(fs);
      AddChild(children, c);
      r := children + [c];
    }
  }

  /** One iterator over all the inputs of a job.  Of a level-0 file listed twice one iterator is enough. */
  method MakeInputIterator(j: Job) returns (r: MergingIterator)
    requires ShareNothing(InputFiles(j)) && !ShareFiles(j.in0, j.in1) && InputsSorted(j)
    ensures fresh(r) && (forall i :: 0 <= i < |r.children| ==> fresh(r.children[i])) && r.Ok()
    ensures forall e :: e in r.merged <==> IsInput(j, e)
  {
    var children: seq<TwoLevelIterator> := [];
    if j.level == 0 {
      children := AddFiles(j.in0, InputFiles(j));
    } else {
      children := AddLevel(children, j.in0);
    }
    forall e, x | InAny(children, e) && InFiles(j.in1, x) ensures e.sn != x.sn {
      ShareNothingBetween(InputFiles(j), j.in0, j.in1, e, x);
    }
    children := AddLevel(children, j.in1);
    r := NewMergingIterator(children);
  }

  function InputFiles(j: Job): set<File> { set f | f in j.in0 + j.in1 }

  lemma InputsDiffer(levels: seq<seq<File>>, next: nat, j: Job)
    requires NumbersUnique(levels, next) && j.level + 1 < |levels|
    requires forall f :: f in j.in0 ==> f in levels[j.level]
    requires forall f :: f in j.in1 ==> f in levels[j.level + 1]
    ensures !ShareFiles(j.in0, j.in1)
  {
    var l, m := j.level, j.level + 1;
    forall f, g | f in levels[l] && g in levels[m] ensures f != g { assert f.number == g.number ==> l == m; }
  }

  lemma InputsShareNothing(st: State, j: Job)
    requires Recorded(st) && Layered(st) && WellFormed(st) && LevelZeroOrdered(st.levels[0]) && JobOk(st.levels, j)
    requires NumbersUnique(st.levels, st.manifestNext)
    ensures ShareNothing(InputFiles(j)) && !ShareFiles(j.in0, j.in1)
  {
    var fs := InputFiles(j);
    InputsDiffer(st.levels, st.manifestNext, j);
    forall f, g, a, b | f in fs && g in fs && a in f.data && b in g.data && a.sn == b.sn ensures f == g && a == b {
      var l := if f in j.in0 then j.level else j.level + 1;
      var m := if g in j.in0 then j.level else j.level + 1;
      assert At(st, l + 2, a) && At(st, m + 2, b);
      SameEntrySameFile(st, l, f, m, g, a);
    }
  }

  lemma SameEntrySameFile(st: State, l: nat, f: File, m: nat, g: File, a: Entry)
    requires Layered(st) && WellFormed(st) && LevelZeroOrdered(st.levels[0]) &&
             NumbersUnique(st.levels, st.manifestNext)
    requires l < NUM_LEVELS && m < NUM_LEVELS && f in st.levels[l] && g in st.levels[m] && a in f.data && a in g.data
    ensures f == g
  {
    assert At(st, l + 2, a) && At(st, m + 2, a);
    if l == m && f != g {
      if l == 0 {
        NotNewerThanItself(f, g, a);
        NotNewerThanItself(g, f, a);
      } else {
        NeighboursApart(st.levels[l], f, g);
        EntryInRange(f, a);
        EntryInRange(g, a);
      }
    }
  }

  lemma NotNewerThanItself(f: File, g: File, a: Entry)
    requires a in f.data && a in g.data
    ensures !NewerOn(f, g)
  {
  }

  // ---------------------------------------------------------------- everything the store holds

  ghost predicate StoredUpTo(st: State, n: nat, e: Entry) { exists d: nat :: d < n && At(st, d, e) }

  lemma PlacesApart(st: State, d: nat, c: nat, a: Entry, b: Entry)
    requires Recorded(st) && Layered(st) && At(st, d, a) && At(st, c, b) && d != c
    ensures a.sn != b.sn
  {
    assert a.sn == b.sn ==> a == b;
  }

  /** The iterator over the memtables, every level-0 file and every other level. */
  method NewInternalIterator(mem: seq<Entry>, imm: Option<seq<Entry>>, levels: seq<seq<File>>, ghost st: State)
    returns (r: MergingIterator)
    requires mem == st.mem && imm == st.imm && levels == st.levels
    requires Recorded(st) && Layered(st) && WellFormed(st) && LevelZeroOrdered(levels[0]) &&
             NumbersUnique(levels, st.manifestNext)
    ensures fresh(r) && (forall i :: 0 <= i < |r.children| ==> fresh(r.children[i])) && r.Ok()
    ensures forall e :: e in r.merged <==> Stored(st, e)
  {
    hide Recorded, Layered, NumbersUnique, LevelZeroOrdered;
    var children := MemoryIterators(mem, imm, st);
    children := AddLevelZero(children, levels[0], st);
    var l := 1;
    while l < NUM_LEVELS
      invariant 1 <= l <= NUM_LEVELS
      invariant Mergeable(children) && (forall i :: 0 <= i < |children| ==> fresh(children[i]))
      invariant forall e :: InAny(children, e) <==> StoredUpTo(st, l + 2, e)
    {
      forall e, x | InAny(children, e) && InFiles(levels[l], x) ensures e.sn != x.sn {
        var d: nat :| d < l + 2 && At(st, d, e);
        PlacesApart(st, d, l + 2, e, x);
      }
      children := AddLevel(children, levels[l]);
      l := l + 1;
      OneMorePlace(st, l + 1, levels[l - 1]);
    }
    r := NewMergingIterator(children);
    forall e ensures StoredUpTo(st, NUM_LEVELS + 2, e) <==> Stored(st, e) {}
  }

  lemma OneMorePlace(st: State, n: nat, fs: seq<File>)
    requires 2 <= n < |st.levels| + 2 && fs == st.levels[n - 2]
    ensures forall e :: StoredUpTo(st, n + 1, e) <==> StoredUpTo(st, n, e) || InFiles(fs, e)
  {
    forall e ensures At(st, n, e) <==> InFiles(fs, e) {}
  }

  method MemoryIterators(mem: seq<Entry>, imm: Option<seq<Entry>>, ghost st: State)
    returns (children: seq<TwoLevelIterator>)
    requires mem == st.mem && imm == st.imm && Recorded(st) && Layered(st) && WellFormed(st)
    ensures Mergeable(children) && (forall i :: 0 <= i < |children| ==> fresh(children[i]))
    ensures forall e :: InAny(children, e) <==> StoredUpTo(st, 2, e)
  {
    hide Recorded, Layered;
    var m := MemIterator(mem);
    children := [m];
    forall e ensures InAny(children, e) <==> At(st, 0, e) { assert children[0] == m; }
    if imm.Some? {
      var i := MemIterator(imm.value);
      forall e, x | InAny(children, e) && x in i.data ensures e.sn != x.sn { PlacesApart(st, 0, 1, e, x); }
      AddChild(children, i);
      children := children + [i];
    }
    forall e ensures StoredUpTo(st, 2, e) <==> At(st, 0, e) || At(st, 1, e) {}
  }

  method AddLevelZero(children: seq<TwoLevelIterator>, fs: seq<File>, ghost st: State)
    returns (r: seq<TwoLevelIterator>)
    requires |st.levels| == NUM_LEVELS && fs == st.levels[0] && Recorded(st) && Layered(st) && WellFormed(st)
    requires LevelZeroOrdered(fs) && NumbersUnique(st.levels, st.manifestNext)
    requires Mergeable(children) && forall e :: InAny(children, e) <==> StoredUpTo(st, 2, e)
    ensures Mergeable(r) && (forall i :: 0 <= i < |r| ==> r[i] in children || fresh(r[i]))
    ensures forall e :: InAny(r, e) <==> StoredUpTo(st, 3, e)
  {
    ghost var all := set f | f in fs;
    LevelZeroSharesNothing(st);
    var more := AddFiles(fs, all);
    forall e, x | InAny(children, e) && InAny(more, x) ensures e.sn != x.sn {
      var d: nat :| d < 2 && At(st, d, e);
      PlacesApart(st, d, 2, e, x);
    }
    AddChildren(children, more);
    r := children + more;
    OneMorePlace(st, 2, fs);
  }

  lemma LevelZeroSharesNothing(st: State)
    requires |st.levels| == NUM_LEVELS && Recorded(st) && Layered(st) && WellFormed(st)
    requires LevelZeroOrdered(st.levels[0]) && NumbersUnique(st.levels, st.manifestNext)
    ensures ShareNothing(set f | f in st.levels[0])
  {
    var fs := st.levels[0];
    forall f, g, a, b | f in fs && g in fs && a in f.data && b in g.data && a.sn == b.sn ensures f == g && a == b {
      assert At(st, 2, a) && At(st, 2, b);
      SameEntrySameFile(st, 0, f, 0, g, a);
    }
  }

  lemma AddChildren(children: seq<TwoLevelIterator>, more: seq<TwoLevelIterator>)
    requires Mergeable(children) && Mergeable(more) && forall c :: c in more ==> c !in children
    requires forall e, x :: InAny(children, e) && InAny(more, x) ==> e.sn != x.sn
    ensures Mergeable(children + more)
    ensures forall e :: InAny(children + more, e) <==> InAny(children, e) || InAny(more, e)
  {
    var all := children + more;
    forall i, j | 0 <= i < |children| && 0 <= j < |more|
      ensures children[i] != more[j] && NoCommonNumber(children[i].data, more[j].data)
      ensures NoCommonNumber(more[j].data, children[i].data)
    {
      assert more[j] in more && children[i] in children;
      forall a, b | a in children[i].data && b in more[j].data ensures a.sn != b.sn {
        assert InAny(children, a) && InAny(more, b);
      }
    }
    forall e ensures InAny(all, e) <==> InAny(children, e) || InAny(more, e) {
      if InAny(children, e) { var i :| 0 <= i < |children| && e in children[i].data; assert e in all[i].data; }
      if InAny(more, e) { var i :| 0 <= i < |more| && e in more[i].data; assert e in all[|children| + i].data; }
    }
  }

  // ---------------------------------------------------------------- what a user-level iterator shows

  /** At position i an iterator at sequence number s shows key k with value v. */
  ghost predicate Shows(es: seq<Entry>, s: nat, i: int, k: int, v: UserValue) {
    Visible(es, s, i) && es[i].key == k && es[i].op == Put(v)
  }

  ghost predicate ShownSomewhere(es: seq<Entry>, s: nat, k: int, v: UserValue) { exists i :: Shows(es, s, i, k, v) }

  lemma VisibleIsNewest(st: State, es: seq<Entry>, s: nat, i: nat)
    requires Sorted(es) && (forall e :: e in es <==> Stored(st, e)) && i < |es|
    ensures Visible(es, s, i) <==> es[i].op.Put? && Newest(st, es[i].key, s, es[i])
  {
    var e := es[i];
    if Visible(es, s, i) {
      forall x | Stored(st, x) && x.key == e.key && x.sn <= s ensures x.sn <= e.sn {
        var j :| 0 <= j < |es| && es[j] == x;
        IndexOrder(es, j, i);
      }
      assert e in es;
    }
    if Newest(st, e.key, s, e) {
      forall j | 0 <= j < i && es[j].key == e.key ensures es[j].sn > s {
        IndexOrder(es, j, i);
        assert es[j] in es;
      }
    }
  }

  /** An iterator over everything stored shows a key exactly when the stored entries answer it with a value. */
  lemma ShownIsAnswered(st: State, es: seq<Entry>, s: nat, k: int, v: UserValue)
    requires Sorted(es) && (forall e :: e in es <==> Stored(st, e)) && Recorded(st)
    ensures ShownSomewhere(es, s, k, v) <==> Answers(st, k, s, Some(v))
  {
    if i :| Shows(es, s, i, k, v) { VisibleIsNewest(st, es, s, i); }
    if Answers(st, k, s, Some(v)) {
      var e :| Newest(st, k, s, e) && Some(v) == ValueOf(e.op);
      var i :| 0 <= i < |es| && es[i] == e;
      VisibleIsNewest(st, es, s, i);
      assert Shows(es, s, i, k, v);
    }
  }

  /** It shows the snapshot: each key with the value the complete history gives it, and no other. */
  lemma ShownIsHistory(st: State, es: seq<Entry>, s: nat, k: int, v: UserValue)
    requires Sorted(es) && (forall e :: e in es <==> Stored(st, e)) && Recorded(st) && Faithful(st)
    requires Bound(st) <= s <= st.lastSeq
    ensures ShownSomewhere(es, s, k, v) <==> ReadAt(st.hist, k, s) == Some(v)
  {
    ShownIsAnswered(st, es, s, k, v);
    assert Answers(st, k, s, ReadAt(st.hist, k, s));
    if Answers(st, k, s, Some(v)) { Store.AnswersAgree(st, k, s, Some(v), ReadAt(st.hist, k, s)); }
  }

  /** No key is shown twice, and keys ascend. */
  lemma ShownInOrder(es: seq<Entry>, s: nat, i: nat, j: nat)
    requires Sorted(es) && i < j && Visible(es, s, i) && Visible(es, s, j)
    ensures es[i].key < es[j].key
  {
    KeysAscend(es, i, j);
    SeenBefore(es, s, i, j);
  }
}
