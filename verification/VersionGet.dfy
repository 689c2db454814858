/** Looking one key up: memtables, level 0 newest file first, then one file per deeper level. */
module VersionGet {
  import opened InternalKeys
  import opened VersionSet
  import opened Store

  /** e is the newest entry of the files that a reader of k at s may see. */
  ghost predicate NewestInFiles(fs: seq<File>, k: int, s: nat, e: Entry) {
    InFiles(fs, e) && e.key == k && e.sn <= s &&
    forall x :: InFiles(fs, x) && x.key == k && x.sn <= s ==> x.sn <= e.sn
  }

  ghost predicate NothingInFiles(fs: seq<File>, k: int, s: nat) {
    forall x :: InFiles(fs, x) && x.key == k ==> x.sn > s
  }

  ghost predicate Finds(fs: seq<File>, k: int, s: nat, r: Option<Entry>) {
    match r
    case Some(e) => NewestInFiles(fs, k, s, e)
    case None => NothingInFiles(fs, k, s)
  }

  /** MemTable::Get, and the lookup inside one table file. */
  method SearchRun(es: seq<Entry>, k: int, s: nat) returns (r: Option<Entry>)
    requires Sorted(es)
    ensures r.Some? ==> NewestIn(es, k, s, r.value)
    ensures r.None? ==> forall x :: x in es && x.key == k ==> x.sn > s
  {
    var i := Lookup(es, k, s);
    LookupIsNewest(es, k, s);
    r := if i < |es| && es[i].key == k then Some(es[i]) else None;
  }

  // ---------------------------------------------------------------- level 0

  ghost predicate NewestFirst(fs: seq<File>) {
    forall i, j :: 0 <= i < j < |fs| ==> fs[i].number >= fs[j].number
  }

  /** Puts f where a list that has the larger numbers first wants it. */
  function InsertNewestFirst(fs: seq<File>, f: File): (r: seq<File>)
    ensures forall g :: g in r <==> g in fs || g == f
  {
    if |fs| == 0 || f.number >= fs[0].number then [f] + fs
    else
      assert fs == [fs[0]] + fs[1..];
      [fs[0]] + InsertNewestFirst(fs[1..], f)
  }

  lemma {:induction false} InsertKeepsOrder(fs: seq<File>, f: File)
    requires NewestFirst(fs)
    ensures NewestFirst(InsertNewestFirst(fs, f))
  {
    if |fs| == 0 || f.number >= fs[0].number {
    } else {
      InsertKeepsOrder(fs[1..], f);
      var rest := InsertNewestFirst(fs[1..], f);
      forall g | g in rest ensures fs[0].number >= g.number {
        if g != f { var j :| 0 <= j < |fs[1..]| && fs[1..][j] == g; assert fs[j + 1] == g; }
      }
    }
  }

  method SearchLevelZero(fs: seq<File>, k: int, s: nat) returns (r: Option<Entry>)
    requires LevelZeroOrdered(fs)
    requires forall f, g :: f in fs && g in fs && f.number == g.number ==> f == g
    ensures Finds(fs, k, s, r)
  {
    var tmp: seq<File> := [];
    var i := 0;
    while i < |fs|
      invariant 0 <= i <= |fs|
      invariant forall f :: f in tmp <==> exists j :: 0 <= j < i && fs[j] == f && f.Covers(k)
      invariant NewestFirst(tmp)
    {
      if fs[i].Covers(k) {
        InsertKeepsOrder(tmp, fs[i]);
        tmp := InsertNewestFirst(tmp, fs[i]);
      }
      i := i + 1;
    }
    assert forall f :: f in tmp <==> f in fs && f.Covers(k);
    i := 0;
    r := None;
    while i < |tmp|
      invariant 0 <= i <= |tmp| && r.None?
      invariant forall j, x :: 0 <= j < i && x in tmp[j].data && x.key == k ==> x.sn > s
    {
      r := SearchRun(tmp[i].data, k, s);
      if r.Some? {
        LevelZeroHit(fs, tmp, i, k, s, r.value);
        return;
      }
      i := i + 1;
    }
    forall x | InFiles(fs, x) && x.key == k ensures x.sn > s {
      var f :| f in fs && x in f.data;
      EntryInRange(f, x);
      var j :| 0 <= j < |tmp| && tmp[j] == f;
    }
  }

  lemma LevelZeroHit(fs: seq<File>, tmp: seq<File>, i: nat, k: int, s: nat, e: Entry)
    requires LevelZeroOrdered(fs) && NewestFirst(tmp) && i < |tmp| && NewestIn(tmp[i].data, k, s, e)
    requires forall f, g :: f in fs && g in fs && f.number == g.number ==> f == g
    requires forall f :: f in tmp <==> f in fs && f.Covers(k)
    requires forall j, x :: 0 <= j < i && x in tmp[j].data && x.key == k ==> x.sn > s
    ensures NewestInFiles(fs, k, s, e)
  {
    assert tmp[i] in tmp;
    forall x | InFiles(fs, x) && x.key == k && x.sn <= s ensures x.sn <= e.sn {
      var f :| f in fs && x in f.data;
      EntryInRange(f, x);
      var j :| 0 <= j < |tmp| && tmp[j] == f;
      if i < j && tmp[i] != f { assert NewerOn(tmp[i], f); }
    }
  }

  // ---------------------------------------------------------------- levels 1 and up

  method SearchSortedLevel(fs: seq<File>, k: int, s: nat) returns (r: Option<Entry>)
    requires Disjoint(fs)
    ensures Finds(fs, k, s, r)
  {
    var index := FindFile(fs, k, s);
    r := None;
    if index < |fs| && k >= fs[index].Smallest().key {
      r := SearchRun(fs[index].data, k, s);
    }
    OneFileIsEnough(fs, k, s, index, r);
  }

  lemma OneFileIsEnough(fs: seq<File>, k: int, s: nat, index: nat, r: Option<Entry>)
    requires Disjoint(fs) && index <= |fs|
    requires forall i :: 0 <= i < index ==> !AtOrAfter(fs[i].Largest(), k, s)
    requires index < |fs| ==> AtOrAfter(fs[index].Largest(), k, s)
    requires r.Some? ==> index < |fs| && NewestIn(fs[index].data, k, s, r.value)
    requires r.None? ==> index == |fs| || k < fs[index].Smallest().key ||
                         forall x :: x in fs[index].data && x.key == k ==> x.sn > s
    ensures Finds(fs, k, s, r)
  {
    forall x | InFiles(fs, x) && x.key == k && x.sn <= s ensures r.Some? && x.sn <= r.value.sn {
      var f :| f in fs && x in f.data;
      var i :| 0 <= i < |fs| && fs[i] == f;
      VisibleIsFound(fs, k, s, index, r, i, x);
    }
    if r.Some? { assert fs[index] in fs; }
  }

  lemma VisibleIsFound(fs: seq<File>, k: int, s: nat, index: nat, r: Option<Entry>, i: nat, x: Entry)
    requires Disjoint(fs) && index <= |fs| && i < |fs| && x in fs[i].data && x.key == k && x.sn <= s
    requires i < index ==> !AtOrAfter(fs[i].Largest(), k, s)
    requires index < |fs| ==> AtOrAfter(fs[index].Largest(), k, s)
    requires r.Some? ==> index < |fs| && NewestIn(fs[index].data, k, s, r.value)
    requires r.None? ==> index == |fs| || k < fs[index].Smallest().key ||
                         forall x :: x in fs[index].data && x.key == k ==> x.sn > s
    ensures r.Some? && x.sn <= r.value.sn
  {
    EntryInRange(fs[i], x);
    assert i >= index;
    if i > index {
      EntryInRange(fs[index], fs[index].Largest());
      assert Before(fs[index].Largest(), fs[i].Smallest());
      assert fs[index].Largest() in fs[index].data;
      if r.Some? { EntryInRange(fs[index], r.value); }
    }
  }

  // ---------------------------------------------------------------- the whole search

  ghost predicate NothingAt(st: State, d: nat, k: int, s: nat) {
    forall x :: At(st, d, x) && x.key == k ==> x.sn > s
  }

  /** The first hit on the way down is the newest version there is. */
  lemma FirstHitIsNewest(st: State, d: nat, k: int, s: nat, e: Entry)
    requires Layered(st) && At(st, d, e) && e.key == k && e.sn <= s
    requires forall x :: At(st, d, x) && x.key == k && x.sn <= s ==> x.sn <= e.sn
    requires forall c :: 0 <= c < d ==> NothingAt(st, c, k, s)
    ensures Answers(st, k, s, ValueOf(e.op))
  {
    assert Newest(st, k, s, e) by {
      forall x | Stored(st, x) && x.key == k && x.sn <= s ensures x.sn <= e.sn {
        var c: nat :| At(st, c, x);
        assert c < d ==> NothingAt(st, c, k, s);
      }
    }
  }

  lemma NoHitAtAll(st: State, k: int, s: nat)
    requires |st.levels| == NUM_LEVELS
    requires forall c :: 0 <= c < NUM_LEVELS + 2 ==> NothingAt(st, c, k, s)
    ensures Answers(st, k, s, None)
  {
    forall x | Stored(st, x) && x.key == k ensures x.sn > s {
      var c: nat :| At(st, c, x);
      assert NothingAt(st, c, k, s);
    }
  }

  /** DBImpl::Get followed by Version::Get, on one consistent view of the store. */
  method Get(mem: seq<Entry>, imm: Option<seq<Entry>>, levels: seq<seq<File>>, k: int, s: nat, ghost st: State)
    returns (r: Option<UserValue>)
    requires mem == st.mem && imm == st.imm && levels == st.levels
    requires WellFormed(st) && NumbersUnique(st.levels, st.manifestNext) && Layered(st) &&
             LevelZeroOrdered(st.levels[0])
    ensures Answers(st, k, s, r)
  {
    var hit := SearchRun(mem, k, s);
    if hit.Some? {
      FirstHitIsNewest(st, 0, k, s, hit.value);
      return ValueOf(hit.value.op);
    }
    assert NothingAt(st, 0, k, s);
    if imm.Some? {
      hit := SearchRun(imm.value, k, s);
      if hit.Some? {
        FirstHitIsNewest(st, 1, k, s, hit.value);
        return ValueOf(hit.value.op);
      }
    }
    assert NothingAt(st, 1, k, s);
    var level := 0;
    while level < NUM_LEVELS
      invariant 0 <= level <= NUM_LEVELS
      invariant forall c :: 0 <= c < level + 2 ==> NothingAt(st, c, k, s)
    {
      if level == 0 {
        hit := SearchLevelZero(levels[0], k, s);
      } else {
        hit := SearchSortedLevel(levels[level], k, s);
      }
      if hit.Some? {
        FirstHitIsNewest(st, level + 2, k, s, hit.value);
        return ValueOf(hit.value.op);
      }
      assert NothingAt(st, level + 2, k, s);
      level := level + 1;
    }
    NoHitAtAll(st, k, s);
    r := None;
  }
}
