/** The files of one version and the choice of what to compact (db/version_set.cc). */
module VersionSet {
  import opened InternalKeys

  datatype File = File(number: nat, size: nat, data: Table) {
    function Smallest(): Entry { data[0] }
    function Largest(): Entry { data[|data| - 1] }

    /** Whether user key x lies in the file's user-key range. */
    predicate Covers(x: int) { Smallest().key <= x <= Largest().key }
  }

  /** How large things are: the memory a memtable takes and may take, and the length of the table file of a run. */
  datatype Sizes = Sizes(memoryUsage: seq<Entry> -> nat, writeBuffer: nat, tableSize: seq<Entry> -> nat)

  lemma EntryInRange(f: File, e: Entry)
    requires e in f.data
    ensures e == f.Smallest() || Before(f.Smallest(), e)
    ensures e == f.Largest() || Before(e, f.Largest())
    ensures f.Covers(e.key)
  {
    var i :| 0 <= i < |f.data| && f.data[i] == e;
    if i > 0 { assert Before(f.data[0], f.data[i]); }
    if i < |f.data| - 1 { assert Before(f.data[i], f.data[|f.data| - 1]); }
  }

  // ---------------------------------------------------------------- user-key ranges

  /** A null pointer is "before all keys" as a start and "after all keys" as a limit. */
  predicate AfterFile(k: Option<int>, f: File) { k.Some? && k.value > f.Largest().key }

  predicate BeforeFile(k: Option<int>, f: File) { k.Some? && k.value < f.Smallest().key }

  predicate Overlaps(f: File, begin: Option<int>, end: Option<int>) {
    !AfterFile(begin, f) && !BeforeFile(end, f)
  }

  predicate InRange(x: int, begin: Option<int>, end: Option<int>) {
    (begin.Some? ==> begin.value <= x) && (end.Some? ==> x <= end.value)
  }

  predicate Within(f: File, begin: Option<int>, end: Option<int>) {
    InRange(f.Smallest().key, begin, end) && InRange(f.Largest().key, begin, end)
  }

  /** No file of fs reaches across an end of the range. */
  ghost predicate ClosedRange(fs: seq<File>, begin: Option<int>, end: Option<int>) {
    forall f :: f in fs && Overlaps(f, begin, end) ==> Within(f, begin, end)
  }

  ghost predicate ClosedUpTo(fs: seq<File>, n: nat, begin: Option<int>, end: Option<int>)
    requires n <= |fs|
  {
    forall i :: 0 <= i < n && Overlaps(fs[i], begin, end) ==> Within(fs[i], begin, end)
  }

  predicate Contains(lo: Option<int>, hi: Option<int>, begin: Option<int>, end: Option<int>) {
    (lo.Some? ==> begin.Some? && lo.value <= begin.value) && (hi.Some? ==> end.Some? && end.value <= hi.value)
  }

  /** The files among the first n of fs that overlap a range, in the order of fs. */
  function OverlappingUpTo(fs: seq<File>, n: nat, begin: Option<int>, end: Option<int>): (r: seq<File>)
    requires n <= |fs|
  {
    if n == 0 then []
    else
      var rest := OverlappingUpTo(fs, n - 1, begin, end);
      if Overlaps(fs[n - 1], begin, end) then rest + [fs[n - 1]] else rest
  }

  /** The files of fs that overlap a range. */
  function Overlapping(fs: seq<File>, begin: Option<int>, end: Option<int>): (r: seq<File>)
    ensures forall f :: f in r <==> f in fs && Overlaps(f, begin, end)
  {
    OverlappingMembers(fs, |fs|, begin, end);
    OverlappingUpTo(fs, |fs|, begin, end)
  }

  lemma {:induction false} OverlappingMembers(fs: seq<File>, n: nat, begin: Option<int>, end: Option<int>)
    requires n <= |fs|
    ensures forall i :: 0 <= i < n && Overlaps(fs[i], begin, end) ==> fs[i] in OverlappingUpTo(fs, n, begin, end)
    ensures forall f :: f in OverlappingUpTo(fs, n, begin, end) ==> f in fs && Overlaps(f, begin, end)
  {
    if n == 0 {
    } else {
      OverlappingMembers(fs, n - 1, begin, end);
    }
  }

  // ---------------------------------------------------------------- sorted levels

  /** Levels 1 and up: sorted, and disjoint as ranges of internal keys.  Neighbours may share a user key. */
  ghost predicate Disjoint(fs: seq<File>) {
    forall i, j :: 0 <= i < j < |fs| ==> Before(fs[i].Largest(), fs[j].Smallest())
  }

  method FindFile(fs: seq<File>, k: int, s: nat) returns (right: nat)
    requires Disjoint(fs)
    ensures right <= |fs|
    ensures forall i :: 0 <= i < right ==> !AtOrAfter(fs[i].Largest(), k, s)
    ensures forall i :: right <= i < |fs| ==> AtOrAfter(fs[i].Largest(), k, s)
  {
    var left := 0;
    right := |fs|;
    while left < right
      invariant 0 <= left <= right <= |fs|
      invariant forall i :: 0 <= i < left ==> !AtOrAfter(fs[i].Largest(), k, s)
      invariant forall i :: right <= i < |fs| ==> AtOrAfter(fs[i].Largest(), k, s)
    {
      var mid := (left + right) / 2;
      forall i | 0 <= i < |fs|
        ensures i < mid && !AtOrAfter(fs[mid].Largest(), k, s) ==> !AtOrAfter(fs[i].Largest(), k, s)
        ensures mid < i && AtOrAfter(fs[mid].Largest(), k, s) ==> AtOrAfter(fs[i].Largest(), k, s)
      {
        LargestOrdered(fs, i, mid);
      }
      if !AtOrAfter(fs[mid].Largest(), k, s) {
        left := mid + 1;
      } else {
        right := mid;
      }
    }
  }

  lemma LargestOrdered(fs: seq<File>, i: nat, j: nat)
    requires Disjoint(fs) && i < |fs| && j < |fs|
    ensures i < j ==> Before(fs[i].Largest(), fs[j].Largest())
    ensures j < i ==> Before(fs[j].Largest(), fs[i].Largest())
  {
    EntryInRange(fs[j], fs[j].Largest());
    EntryInRange(fs[i], fs[i].Largest());
    assert i < j ==> Before(fs[i].Largest(), fs[j].Smallest());
    assert j < i ==> Before(fs[j].Largest(), fs[i].Smallest());
  }

  lemma SmallestOrdered(fs: seq<File>, i: nat, j: nat)
    requires Disjoint(fs) && i <= j < |fs|
    ensures i == j || Before(fs[i].Smallest(), fs[j].Smallest())
  {
    EntryInRange(fs[i], fs[i].Largest());
  }

  method SomeFileOverlapsRange(disjoint: bool, fs: seq<File>, begin: Option<int>, end: Option<int>)
    returns (r: bool)
    requires disjoint ==> Disjoint(fs)
    ensures r <==> exists f :: f in fs && Overlaps(f, begin, end)
  {
    if !disjoint {
      var i := 0;
      while i < |fs|
        invariant 0 <= i <= |fs|
        invariant forall j :: 0 <= j < i ==> !Overlaps(fs[j], begin, end)
      {
        var f := fs[i];
        if AfterFile(begin, f) || BeforeFile(end, f) {
        } else {
          assert f in fs;
          return true;
        }
        i := i + 1;
      }
      return false;
    }
    var index := 0;
    if begin.Some? {
      index := FindFile(fs, begin.value, MAX_SEQUENCE_NUMBER);
    }
    if index >= |fs| {
      return false;
    }
    r := !BeforeFile(end, fs[index]);
    if r {
      assert Overlaps(fs[index], begin, end);
    } else {
      forall f | f in fs ensures !Overlaps(f, begin, end) {
        var j :| 0 <= j < |fs| && fs[j] == f;
        if index < j {
          EntryInRange(fs[index], fs[index].Largest());
          assert Before(fs[index].Largest(), fs[j].Smallest());
        }
      }
    }
  }

  // ---------------------------------------------------------------- overlapping inputs

  /** How many files start below begin; how many end above end.  A widened range lowers one of them. */
  ghost function StartsBelow(fs: seq<File>, begin: Option<int>): nat {
    if |fs| == 0 || begin.None? then 0
    else (if fs[0].Smallest().key < begin.value then 1 else 0) + StartsBelow(fs[1..], begin)
  }

  ghost function EndsAbove(fs: seq<File>, end: Option<int>): nat {
    if |fs| == 0 || end.None? then 0
    else (if fs[0].Largest().key > end.value then 1 else 0) + EndsAbove(fs[1..], end)
  }

  lemma {:induction false} WideningCounts(fs: seq<File>, x: int, y: int, z: int, w: int)
    requires x <= y && z <= w
    ensures StartsBelow(fs, Some(x)) <= StartsBelow(fs, Some(y))
    ensures EndsAbove(fs, Some(w)) <= EndsAbove(fs, Some(z))
    ensures (exists f :: f in fs && x <= f.Smallest().key < y) ==> StartsBelow(fs, Some(x)) < StartsBelow(fs, Some(y))
    ensures (exists f :: f in fs && z < f.Largest().key <= w) ==> EndsAbove(fs, Some(w)) < EndsAbove(fs, Some(z))
  {
    if |fs| == 0 {
    } else {
      WideningCounts(fs[1..], x, y, z, w);
      if f :| f in fs && x <= f.Smallest().key < y { assert f == fs[0] || f in fs[1..]; }
      if f :| f in fs && z < f.Largest().key <= w { assert f == fs[0] || f in fs[1..]; }
    }
  }

  /** The range (b, e) contains (begin, end) and every closed range that does; what it adds is covered by files. */
  ghost predicate GrownFrom(fs: seq<File>, begin: Option<int>, end: Option<int>, b: Option<int>, e: Option<int>) {
    Contains(b, e, begin, end) && b.Some? == begin.Some? && e.Some? == end.Some? &&
    InEveryClosedRange(fs, begin, end, b, e) && AddedIsCovered(fs, begin, end, b, e)
  }

  ghost predicate InEveryClosedRange(fs: seq<File>, begin: Option<int>, end: Option<int>, b: Option<int>,
                                     e: Option<int>) {
    forall lo, hi :: Contains(lo, hi, begin, end) && ClosedRange(fs, lo, hi) ==> Contains(lo, hi, b, e)
  }

  ghost predicate AddedIsCovered(fs: seq<File>, begin: Option<int>, end: Option<int>, b: Option<int>, e: Option<int>) {
    forall x :: InRange(x, b, e) && !InRange(x, begin, end) ==> exists f :: f in fs && Overlaps(f, b, e) && f.Covers(x)
  }

  ghost function CrossedEnds(fs: seq<File>, begin: Option<int>, end: Option<int>): nat {
    StartsBelow(fs, begin) + EndsAbove(fs, end)
  }

  lemma GrowShrinksCount(fs: seq<File>, b: Option<int>, e: Option<int>, f: File, b': Option<int>, e': Option<int>)
    requires f in fs
    requires (b.Some? && b' == Some(f.Smallest().key) && f.Smallest().key < b.value && e' == e) ||
             (e.Some? && e' == Some(f.Largest().key) && f.Largest().key > e.value && b' == b)
    ensures CrossedEnds(fs, b', e') < CrossedEnds(fs, b, e)
  {
    if b' != b { WideningCounts(fs, f.Smallest().key, b.value, 0, 0); }
    if e' != e { WideningCounts(fs, 0, 0, e.value, f.Largest().key); }
  }

  /** Taking in an overlapping file that crosses an end of the range. */
  lemma GrowBy(fs: seq<File>, begin: Option<int>, end: Option<int>, b: Option<int>, e: Option<int>, f: File,
               b': Option<int>, e': Option<int>)
    requires GrownFrom(fs, begin, end, b, e) && f in fs && Overlaps(f, b, e)
    requires (b.Some? && b' == Some(f.Smallest().key) && f.Smallest().key < b.value && e' == e) ||
             (e.Some? && e' == Some(f.Largest().key) && f.Largest().key > e.value && b' == b)
    ensures GrownFrom(fs, begin, end, b', e') && CrossedEnds(fs, b', e') < CrossedEnds(fs, b, e)
  {
    GrowShrinksCount(fs, b, e, f, b', e');
    forall lo, hi | Contains(lo, hi, begin, end) && ClosedRange(fs, lo, hi) ensures Contains(lo, hi, b', e') {
      assert Contains(lo, hi, b, e);
      assert Within(f, lo, hi);
    }
    EntryInRange(f, f.Largest());
    forall x | InRange(x, b', e') && !InRange(x, begin, end)
      ensures exists g :: g in fs && Overlaps(g, b', e') && g.Covers(x)
    {
      if InRange(x, b, e) {
        var g :| g in fs && Overlaps(g, b, e) && g.Covers(x);
        assert Overlaps(g, b', e');
      } else {
        assert Overlaps(f, b', e') && f.Covers(x);
      }
    }
  }

  lemma NotGrown(fs: seq<File>, begin: Option<int>, end: Option<int>)
    ensures GrownFrom(fs, begin, end, begin, end)
  {
  }

  /** All files of a level that overlap a range.  At level 0 files overlap each other, so the range grows to
      the least one that no file crosses; b and e name it. */
  method GetOverlappingInputs(level: nat, fs: seq<File>, begin: Option<int>, end: Option<int>)
    returns (inputs: seq<File>, ghost b: Option<int>, ghost e: Option<int>)
    ensures inputs == Overlapping(fs, b, e)
    ensures level > 0 ==> b == begin && e == end
    ensures level == 0 ==> ClosedRange(fs, b, e)
    ensures GrownFrom(fs, begin, end, b, e)
  {
    hide GrownFrom, CrossedEnds;
    NotGrown(fs, begin, end);
    inputs := [];
    var userBegin, userEnd := begin, end;
    var i := 0;
    while i < |fs|
      invariant 0 <= i <= |fs|
      invariant inputs == OverlappingUpTo(fs, i, userBegin, userEnd)
      invariant level > 0 ==> userBegin == begin && userEnd == end
      invariant level == 0 ==> ClosedUpTo(fs, i, userBegin, userEnd)
      invariant GrownFrom(fs, begin, end, userBegin, userEnd)
      decreases CrossedEnds(fs, userBegin, userEnd), |fs| - i
    {
      var f := fs[i];
      i := i + 1;
      if userBegin.Some? && f.Largest().key < userBegin.value {
      } else if userEnd.Some? && f.Smallest().key > userEnd.value {
      } else {
        inputs := inputs + [f];
        if level == 0 {
          if userBegin.Some? && f.Smallest().key < userBegin.value {
            GrowBy(fs, begin, end, userBegin, userEnd, f, Some(f.Smallest().key), userEnd);
            userBegin := Some(f.Smallest().key);
            inputs, i := [], 0;
          } else if userEnd.Some? && f.Largest().key > userEnd.value {
            GrowBy(fs, begin, end, userBegin, userEnd, f, userBegin, Some(f.Largest().key));
            userEnd := Some(f.Largest().key);
            inputs, i := [], 0;
          } else {
            EntryInRange(f, f.Largest());
          }
        }
      }
    }
    b, e := userBegin, userEnd;
  }

  // ---------------------------------------------------------------- boundary files

  ghost predicate IsLargest(fs: seq<File>, e: Entry) {
    (exists f :: f in fs && f.Largest() == e) && forall f :: f in fs ==> !Before(e, f.Largest())
  }

  ghost predicate IsSmallest(fs: seq<File>, e: Entry) {
    (exists f :: f in fs && f.Smallest() == e) && forall f :: f in fs ==> !Before(f.Smallest(), e)
  }

  lemma LargestStep(fs: seq<File>, i: nat, l: Entry)
    requires 0 < i < |fs| && IsLargest(fs[..i], l)
    ensures IsLargest(fs[..i + 1], if Before(l, fs[i].Largest()) then fs[i].Largest() else l)
  {
    assert fs[..i + 1] == fs[..i] + [fs[i]];
    var w :| w in fs[..i] && w.Largest() == l;
    assert w in fs[..i + 1] && fs[i] in fs[..i + 1];
  }

  lemma SmallestStep(fs: seq<File>, i: nat, s: Entry)
    requires 0 < i < |fs| && IsSmallest(fs[..i], s)
    ensures IsSmallest(fs[..i + 1], if Before(fs[i].Smallest(), s) then fs[i].Smallest() else s)
  {
    assert fs[..i + 1] == fs[..i] + [fs[i]];
    var w :| w in fs[..i] && w.Smallest() == s;
    assert w in fs[..i + 1] && fs[i] in fs[..i + 1];
  }

  method FindLargestKey(fs: seq<File>) returns (largest: Option<Entry>)
    ensures largest.None? <==> |fs| == 0
    ensures largest.Some? ==> IsLargest(fs, largest.value)
  {
    if |fs| == 0 { return None; }
    var l := fs[0].Largest();
    var i := 1;
    assert fs[0] in fs[..1];
    while i < |fs|
      invariant 1 <= i <= |fs|
      invariant IsLargest(fs[..i], l)
    {
      LargestStep(fs, i, l);
      if Before(l, fs[i].Largest()) { l := fs[i].Largest(); }
      i := i + 1;
    }
    assert fs[..i] == fs;
    largest := Some(l);
  }

  method GetRange(fs: seq<File>) returns (smallest: Entry, largest: Entry)
    requires |fs| > 0
    ensures IsSmallest(fs, smallest) && IsLargest(fs, largest)
  {
    smallest, largest := fs[0].Smallest(), fs[0].Largest();
    var i := 1;
    assert fs[0] in fs[..1];
    while i < |fs|
      invariant 1 <= i <= |fs|
      invariant IsSmallest(fs[..i], smallest)
      invariant IsLargest(fs[..i], largest)
    {
      LargestStep(fs, i, largest);
      SmallestStep(fs, i, smallest);
      if Before(fs[i].Smallest(), smallest) { smallest := fs[i].Smallest(); }
      if Before(largest, fs[i].Largest()) { largest := fs[i].Largest(); }
      i := i + 1;
    }
    assert fs[..i] == fs;
  }

  /** f starts with more versions of the user key that ends at l. */
  predicate Continues(f: File, l: Entry) { Before(l, f.Smallest()) && f.Smallest().key == l.key }

  method FindSmallestBoundaryFile(fs: seq<File>, largest: Entry) returns (r: Option<File>)
    ensures r.None? <==> forall f :: f in fs ==> !Continues(f, largest)
    ensures r.Some? ==> r.value in fs && Continues(r.value, largest)
    ensures r.Some? ==> forall f :: f in fs && Continues(f, largest) ==> !Before(f.Smallest(), r.value.Smallest())
  {
    r := None;
    var i := 0;
    while i < |fs|
      invariant 0 <= i <= |fs|
      invariant r.None? <==> forall j :: 0 <= j < i ==> !Continues(fs[j], largest)
      invariant r.Some? ==> r.value in fs && Continues(r.value, largest)
      invariant r.Some? ==> forall j :: 0 <= j < i && Continues(fs[j], largest) ==>
                  !Before(fs[j].Smallest(), r.value.Smallest())
    {
      if Continues(fs[i], largest) {
        if r.None? || Before(fs[i].Smallest(), r.value.Smallest()) {
          r := Some(fs[i]);
        }
      }
      i := i + 1;
    }
  }

  /** How many files start after l. */
  ghost function StartsAfter(fs: seq<File>, l: Entry): nat {
    if |fs| == 0 then 0 else (if Before(l, fs[0].Smallest()) then 1 else 0) + StartsAfter(fs[1..], l)
  }

  lemma {:induction false} RaisingCounts(fs: seq<File>, l: Entry, m: Entry)
    requires Before(l, m)
    ensures StartsAfter(fs, m) <= StartsAfter(fs, l)
    ensures (exists f :: f in fs && Before(l, f.Smallest()) && !Before(m, f.Smallest()))
              ==> StartsAfter(fs, m) < StartsAfter(fs, l)
  {
    if |fs| == 0 {
    } else {
      RaisingCounts(fs[1..], l, m);
      if f :| f in fs && Before(l, f.Smallest()) && !Before(m, f.Smallest()) {
        assert f == fs[0] || f in fs[1..];
      }
    }
  }

  /** A run of neighbours in a sorted level. */
  ghost predicate IsSlice(level: seq<File>, r: seq<File>) {
    exists i, j :: 0 <= i < j <= |level| && r == level[i..j]
  }

  /** No gap: every user key between two keys of the files is covered by one of them. */
  ghost predicate Connected(fs: seq<File>) {
    forall f, g, x :: f in fs && g in fs && f.Smallest().key <= x <= g.Largest().key ==> Covered(fs, x)
  }

  ghost predicate Covered(fs: seq<File>, x: int) { exists h :: h in fs && h.Covers(x) }

  ghost predicate ConnectedWith(others: seq<File>, fs: seq<File>) { Connected(others + fs) }

  lemma ConnectedWithNothing(fs: seq<File>)
    ensures ConnectedWith([], fs) <==> Connected(fs)
  {
    assert [] + fs == fs;
  }

  lemma ConnectAdd(fs: seq<File>, f: File, x: int, all: seq<File>)
    requires Connected(fs) && Covered(fs, x) && f.Covers(x)
    requires forall h :: h in all <==> h in fs || h == f
    ensures Connected(all)
  {
    var m :| m in fs && m.Covers(x);
    forall p, q, y | p in all && q in all && p.Smallest().key <= y <= q.Largest().key ensures Covered(all, y) {
      if !f.Covers(y) {
        var p', q' := if p == f then m else p, if q == f then m else q;
        assert p'.Smallest().key <= y <= q'.Largest().key;
        assert Covered(fs, y);
        var h :| h in fs && h.Covers(y);
        assert h in all;
      } else {
        assert f in all;
      }
    }
  }

  lemma SliceExtends(level: seq<File>, i: nat, j: nat, l: Entry, f: File)
    requires Disjoint(level) && i < j <= |level| && IsLargest(level[i..j], l)
    requires f in level && Continues(f, l)
    requires forall g :: g in level && Continues(g, l) ==> !Before(g.Smallest(), f.Smallest())
    ensures j < |level| && f == level[j]
  {
    SliceLargest(level, i, j, l);
    var m :| 0 <= m < |level| && level[m] == f;
    ContinuationIsLater(level, j, m);
    if j < m { NearerContinues(level, j, m); }
  }

  lemma SliceGrows(level: seq<File>, r: seq<File>, l: Entry, f: File)
    requires Disjoint(level) && IsSlice(level, r) && IsLargest(r, l)
    requires f in level && Continues(f, l)
    requires forall g :: g in level && Continues(g, l) ==> !Before(g.Smallest(), f.Smallest())
    ensures IsSlice(level, r + [f])
  {
    var i, j :| 0 <= i < j <= |level| && r == level[i..j];
    SliceExtends(level, i, j, l, f);
    SlicePlusOne(level, i, j);
  }

  lemma SlicePlusOne(level: seq<File>, i: nat, j: nat)
    requires i < j < |level|
    ensures IsSlice(level, level[i..j] + [level[j]])
  {
    assert level[i..j] + [level[j]] == level[i..j + 1];
  }

  lemma ConnectBoundary(others: seq<File>, r: seq<File>, l: Entry, f: File)
    requires IsLargest(r, l) && Continues(f, l) && ConnectedWith(others, r)
    ensures ConnectedWith(others, r + [f])
  {
    var w :| w in r && w.Largest() == l;
    EntryInRange(w, l);
    EntryInRange(f, f.Smallest());
    assert w in others + r;
    ConnectAdd(others + r, f, l.key, others + (r + [f]));
  }

  lemma BoundaryIsLargest(r: seq<File>, l: Entry, f: File)
    requires IsLargest(r, l) && Before(l, f.Smallest())
    ensures f !in r && Before(l, f.Largest()) && IsLargest(r + [f], f.Largest())
  {
    EntryInRange(f, f.Smallest());
    assert f in r + [f];
    forall g | g in r ensures !Before(f.Largest(), g.Largest()) { assert !Before(l, g.Largest()); }
  }

  /** No file outside sel has a user key in the range of a file in sel. */
  ghost predicate SeparateFromRest(level: seq<File>, sel: seq<File>) {
    forall f, g :: f in sel && g in level && g !in sel ==> !Overlaps(g, Some(f.Smallest().key), Some(f.Largest().key))
  }

  lemma BoundaryTouches(level: seq<File>, sel: seq<File>, l: Entry, f: File)
    requires IsLargest(sel, l) && f in level && f !in sel && Continues(f, l)
    ensures !SeparateFromRest(level, sel)
  {
    var w :| w in sel && w.Largest() == l;
    EntryInRange(f, f.Largest());
    EntryInRange(w, w.Smallest());
    assert Overlaps(f, Some(w.Smallest().key), Some(w.Largest().key));
  }

  lemma ContinuationIsLater(level: seq<File>, j: nat, m: nat)
    requires Disjoint(level) && 0 < j <= |level| && m < |level|
    requires Before(level[j - 1].Largest(), level[m].Smallest())
    ensures j <= m
  {
    EntryInRange(level[m], level[m].Smallest());
    if m < j { LargestOrdered(level, m, j - 1); }
  }

  lemma NearerContinues(level: seq<File>, j: nat, m: nat)
    requires Disjoint(level) && 0 < j < m < |level|
    requires Continues(level[m], level[j - 1].Largest())
    ensures Continues(level[j], level[j - 1].Largest())
    ensures Before(level[j].Smallest(), level[m].Smallest())
  {
    assert Before(level[j - 1].Largest(), level[j].Smallest());
    assert Before(level[j].Largest(), level[m].Smallest());
    EntryInRange(level[j], level[j].Largest());
  }

  lemma SliceLargest(level: seq<File>, i: nat, j: nat, l: Entry)
    requires Disjoint(level) && i < j <= |level| && IsLargest(level[i..j], l)
    ensures l == level[j - 1].Largest()
  {
    var f :| f in level[i..j] && f.Largest() == l;
    var m :| 0 <= m < j - i && level[i..j][m] == f;
    LargestOrdered(level, i + m, j - 1);
    assert level[i..j][j - 1 - i] in level[i..j];
  }

  /** r is chosen followed by files that occur nowhere before them. */
  ghost predicate Extends(chosen: seq<File>, r: seq<File>) {
    chosen <= r && forall i, j :: 0 <= i < j < |r| && |chosen| <= j ==> r[i] != r[j]
  }

  lemma ExtendsOne(chosen: seq<File>, r: seq<File>, f: File)
    requires Extends(chosen, r) && f !in r
    ensures Extends(chosen, r + [f])
  {
    forall i, j | 0 <= i < j < |r + [f]| && |chosen| <= j ensures (r + [f])[i] != (r + [f])[j] {
      if j == |r| { assert r[i] in r; }
    }
  }

  /** Extends the chosen files by every file that continues the user key at their end. */
  method AddBoundaryInputs(level: seq<File>, chosen: seq<File>, ghost others: seq<File>) returns (r: seq<File>)
    ensures forall f :: f in r ==> f in chosen || f in level
    ensures |chosen| == 0 ==> |r| == 0
    ensures |chosen| > 0 ==> exists l :: IsLargest(r, l) && forall f :: f in level ==> !Continues(f, l)
    ensures Extends(chosen, r)
    ensures Disjoint(level) && IsSlice(level, chosen) ==> IsSlice(level, r)
    ensures ConnectedWith(others, chosen) ==> ConnectedWith(others, r)
    ensures SeparateFromRest(level, chosen) ==> r == chosen
  {
    hide IsSlice, ConnectedWith, SeparateFromRest, Disjoint, StartsAfter;
    r := chosen;
    var first := FindLargestKey(chosen);
    if first.None? { return; }
    var largest := first.value;
    var searching := true;
    while searching
      invariant forall f :: f in r ==> f in chosen || f in level
      invariant IsLargest(r, largest)
      invariant !searching ==> forall f :: f in level ==> !Continues(f, largest)
      invariant Extends(chosen, r)
      invariant Disjoint(level) && IsSlice(level, chosen) ==> IsSlice(level, r)
      invariant ConnectedWith(others, chosen) ==> ConnectedWith(others, r)
      invariant SeparateFromRest(level, chosen) ==> r == chosen
      decreases StartsAfter(level, largest), searching
    {
      var found := FindSmallestBoundaryFile(level, largest);
      if found.Some? {
        var f := found.value;
        BoundaryIsLargest(r, largest, f);
        ExtendsOne(chosen, r, f);
        if r == chosen { BoundaryTouches(level, chosen, largest, f); }
        if Disjoint(level) && IsSlice(level, chosen) { SliceGrows(level, r, largest, f); }
        if ConnectedWith(others, chosen) { ConnectBoundary(others, r, largest, f); }
        RaisingCounts(level, largest, f.Largest());
        r := r + [f];
        largest := f.Largest();
      } else {
        searching := false;
      }
    }
  }

  // ---------------------------------------------------------------- the inputs of a compaction

  /** On the user keys the two files share, every version in g is newer than every version in f. */
  ghost predicate NewerOn(g: File, f: File) {
    forall a, b :: a in f.data && b in g.data && a.key == b.key ==> b.sn > a.sn
  }

  /** Every file left out of sel holds only newer versions of the user keys it shares with sel. */
  ghost predicate NoOlderLeft(level: seq<File>, sel: seq<File>) {
    forall f, g :: f in sel && g in level && g !in sel ==> NewerOn(g, f)
  }

  lemma SliceLeavesNoOlder(level: seq<File>, sel: seq<File>, l: Entry)
    requires Disjoint(level) && IsSlice(level, sel) && IsLargest(sel, l)
    requires forall f :: f in level ==> !Continues(f, l)
    ensures NoOlderLeft(level, sel)
  {
    var i, j :| 0 <= i < j <= |level| && sel == level[i..j];
    SliceLargest(level, i, j, l);
    if j < |level| { assert level[j] in level; }
    forall n, m | i <= n < j && 0 <= m < |level| && !(i <= m < j) ensures NewerOn(level[m], level[n]) {
      OutsideSliceIsNewer(level, i, j, n, m);
    }
    NoOlderByIndex(level, i, j);
  }

  lemma NoOlderByIndex(level: seq<File>, i: nat, j: nat)
    requires i < j <= |level|
    requires forall n, m :: i <= n < j && 0 <= m < |level| && !(i <= m < j) ==> NewerOn(level[m], level[n])
    ensures NoOlderLeft(level, level[i..j])
  {
    var sel := level[i..j];
    assert forall m :: i <= m < j ==> level[m] == sel[m - i];
    forall f, g | f in sel && g in level && g !in sel ensures NewerOn(g, f) {
      var n :| 0 <= n < |sel| && sel[n] == f;
      var m :| 0 <= m < |level| && level[m] == g;
      assert NewerOn(level[m], level[i + n]);
    }
  }

  lemma OutsideSliceIsNewer(level: seq<File>, i: nat, j: nat, n: nat, m: nat)
    requires Disjoint(level) && i <= n < j <= |level| && m < |level| && !(i <= m < j)
    requires j < |level| ==> !Continues(level[j], level[j - 1].Largest())
    ensures NewerOn(level[m], level[n])
  {
    forall a, b | a in level[n].data && b in level[m].data && a.key == b.key ensures b.sn > a.sn {
      EntryInRange(level[n], a);
      EntryInRange(level[m], b);
      if m < i {
        assert Before(level[m].Largest(), level[n].Smallest());
      } else {
        LargestOrdered(level, n, j - 1);
        NextDoesNotContinue(level, j, m, b);
      }
    }
  }

  lemma NextDoesNotContinue(level: seq<File>, j: nat, m: nat, b: Entry)
    requires Disjoint(level) && 0 < j <= m < |level| && b in level[m].data
    requires !Continues(level[j], level[j - 1].Largest())
    ensures level[j - 1].Largest().key < b.key
  {
    assert Before(level[j - 1].Largest(), level[j].Smallest());
    EntryInRange(level[m], b);
    if j < m {
      EntryInRange(level[j], level[j].Largest());
      assert Before(level[j].Largest(), level[m].Smallest());
    }
  }

  lemma SeparateLeavesNoOlder(level: seq<File>, sel: seq<File>)
    requires SeparateFromRest(level, sel)
    ensures NoOlderLeft(level, sel)
  {
    forall f, g | f in sel && g in level && g !in sel ensures NewerOn(g, f) {
      ApartShareNoKey(f, g);
    }
  }

  lemma ApartShareNoKey(f: File, g: File)
    requires !Overlaps(g, Some(f.Smallest().key), Some(f.Largest().key))
    ensures forall a, b :: a in f.data && b in g.data ==> a.key != b.key
  {
    forall a, b | a in f.data && b in g.data ensures a.key != b.key {
      EntryInRange(f, a);
      EntryInRange(g, b);
    }
  }

  lemma ClosedIsSeparate(level: seq<File>, b: Option<int>, e: Option<int>)
    requires ClosedRange(level, b, e)
    ensures SeparateFromRest(level, Overlapping(level, b, e))
  {
  }

  /** On a sorted level the overlapping files are neighbours. */
  lemma OverlappingIsSlice(fs: seq<File>, b: Option<int>, e: Option<int>) returns (i: nat, j: nat)
    requires Disjoint(fs)
    ensures i <= j <= |fs| && Overlapping(fs, b, e) == fs[i..j]
  {
    i, j := OverlappingIsSliceUpTo(fs, |fs|, b, e);
  }

  lemma {:induction false} OverlappingIsSliceUpTo(fs: seq<File>, n: nat, b: Option<int>, e: Option<int>)
    returns (i: nat, j: nat)
    requires Disjoint(fs) && n <= |fs|
    ensures i <= j <= n && OverlappingUpTo(fs, n, b, e) == fs[i..j]
  {
    if n == 0 { return 0, 0; }
    i, j := OverlappingIsSliceUpTo(fs, n - 1, b, e);
    if Overlaps(fs[n - 1], b, e) {
      if i < j { OverlapReachesEnd(fs, i, j, n - 1, b, e); }
      i := if i == j then n - 1 else i;
      OverlapGrows(fs, i, j, n - 1, b, e);
      j := n;
    }
  }

  lemma OverlapGrows(fs: seq<File>, i: nat, j: nat, n: nat, b: Option<int>, e: Option<int>)
    requires i <= n < |fs| && Overlaps(fs[n], b, e) && j <= n
    requires if i == n then OverlappingUpTo(fs, n, b, e) == [] else OverlappingUpTo(fs, n, b, e) == fs[i..n]
    ensures OverlappingUpTo(fs, n + 1, b, e) == fs[i..n + 1]
  {
    SlicePlus(fs, i, n);
  }

  lemma SlicePlus(fs: seq<File>, i: nat, n: nat)
    requires i <= n < |fs|
    ensures fs[i..n] + [fs[n]] == fs[i..n + 1]
  {
  }

  lemma OverlapReachesEnd(fs: seq<File>, i: nat, j: nat, n: nat, b: Option<int>, e: Option<int>)
    requires Disjoint(fs) && i < j <= n < |fs| && Overlaps(fs[n], b, e)
    requires OverlappingUpTo(fs, n, b, e) == fs[i..j]
    ensures j == n
  {
    OverlappingMembers(fs, n, b, e);
    if j < n {
      assert fs[j - 1] == fs[i..j][j - 1 - i];
      NotInSlice(fs, i, j);
      BetweenOverlaps(fs, j - 1, j, n, b, e);
    }
  }

  lemma NotInSlice(fs: seq<File>, i: nat, j: nat)
    requires Disjoint(fs) && i < j < |fs|
    ensures fs[j] !in fs[i..j]
  {
    forall m | 0 <= m < j - i ensures fs[i..j][m] != fs[j] { LargestOrdered(fs, i + m, j); }
  }

  lemma BetweenOverlaps(fs: seq<File>, i: nat, j: nat, k: nat, b: Option<int>, e: Option<int>)
    requires Disjoint(fs) && i < j < k < |fs| && Overlaps(fs[i], b, e) && Overlaps(fs[k], b, e)
    ensures Overlaps(fs[j], b, e)
  {
    LargestOrdered(fs, i, j);
    assert Before(fs[j].Largest(), fs[k].Smallest());
    EntryInRange(fs[j], fs[j].Largest());
  }

  function TotalFileSize(fs: seq<File>): nat {
    if |fs| == 0 then 0 else fs[0].size + TotalFileSize(fs[1..])
  }

  ghost predicate UserRange(fs: seq<File>, lo: int, hi: int) {
    (exists s :: IsSmallest(fs, s) && s.key == lo) && exists l :: IsLargest(fs, l) && l.key == hi
  }

  lemma RangeBounds(fs: seq<File>, lo: int, hi: int, f: File)
    requires UserRange(fs, lo, hi) && f in fs
    ensures lo <= f.Smallest().key <= f.Largest().key <= hi
  {
    EntryInRange(f, f.Largest());
  }

  /** What SetupOtherInputs must start from: neighbours on a sorted level, all that touch on level 0. */
  ghost predicate GoodStart(level: nat, fs: seq<File>, sel: seq<File>) {
    |sel| > 0 && (forall f :: f in sel ==> f in fs) &&
    (level == 0 ==> SeparateFromRest(fs, sel)) &&
    (level > 0 ==> Disjoint(fs) && IsSlice(fs, sel))
  }

  /** What a compaction of level into level + 1 may rely on. */
  ghost predicate GoodInputs(fs0: seq<File>, fs1: seq<File>, in0: seq<File>, in1: seq<File>, lo: int, hi: int) {
    |in0| > 0 && (forall f :: f in in0 ==> f in fs0) && NoOlderLeft(fs0, in0) &&
    UserRange(in0, lo, hi) && in1 == Overlapping(fs1, Some(lo), Some(hi))
  }

  lemma GoodStartIsDisjoint(level: nat, fs: seq<File>, sel: seq<File>)
    requires GoodStart(level, fs, sel) && level > 0
    ensures Disjoint(sel)
  {
    var i, j :| 0 <= i < j <= |fs| && sel == fs[i..j];
    forall n, m | 0 <= n < m < |sel| ensures Before(sel[n].Largest(), sel[m].Smallest()) {
      assert Before(fs[i + n].Largest(), fs[i + m].Smallest());
    }
  }

  lemma OverlappingIsDisjoint(fs: seq<File>, begin: Option<int>, end: Option<int>, n: nat)
    requires Disjoint(fs) && n <= |fs|
    ensures Disjoint(OverlappingUpTo(fs, n, begin, end))
    ensures forall f :: f in OverlappingUpTo(fs, n, begin, end) ==> f in fs[..n]
  {
    if n > 0 {
      OverlappingIsDisjoint(fs, begin, end, n - 1);
      var rest := OverlappingUpTo(fs, n - 1, begin, end);
      forall i | 0 <= i < |rest| ensures Before(rest[i].Largest(), fs[n - 1].Smallest()) {
        assert rest[i] in rest;
        var j :| 0 <= j < n - 1 && fs[..n - 1][j] == rest[i];
        assert Before(fs[j].Largest(), fs[n - 1].Smallest());
      }
    }
  }

  method CloseInputs(level: nat, fs: seq<File>, sel: seq<File>, ghost others: seq<File>) returns (r: seq<File>)
    requires GoodStart(level, fs, sel)
    ensures GoodStart(level, fs, r) && NoOlderLeft(fs, r)
    ensures forall f :: f in sel ==> f in r
    ensures ConnectedWith(others, sel) ==> ConnectedWith(others, r)
  {
    hide ConnectedWith, SeparateFromRest, IsSlice, IsLargest, Continues, Disjoint, NoOlderLeft;
    r := AddBoundaryInputs(fs, sel, others);
    if level == 0 {
      SeparateLeavesNoOlder(fs, r);
    } else {
      ghost var l :| IsLargest(r, l) && forall f :: f in fs ==> !Continues(f, l);
      SliceLeavesNoOlder(fs, r, l);
    }
  }

  /** h shares a user key with the range of a member. */
  ghost predicate Touches(fs: seq<File>, h: File) { exists x :: Covered(fs, x) && h.Covers(x) }

  /** Files that each touch a connected set leave it connected. */
  lemma {:induction false} ConnectAll(fs: seq<File>, more: seq<File>, all: seq<File>)
    requires Connected(fs)
    requires forall h :: h in all <==> h in fs || h in more
    requires forall h :: h in more ==> Touches(fs, h)
    ensures Connected(all)
    decreases |more|
  {
    if |more| == 0 {
      forall p, q, y | p in all && q in all && p.Smallest().key <= y <= q.Largest().key ensures Covered(all, y) {
        assert p in fs && q in fs && Covered(fs, y);
        var h :| h in fs && h.Covers(y);
        assert h in all;
      }
    } else {
      assert Touches(fs, more[0]);
      var x :| Covered(fs, x) && more[0].Covers(x);
      ConnectAdd(fs, more[0], x, fs + [more[0]]);
      forall h | h in more[1..] ensures Touches(fs + [more[0]], h) {
        assert Touches(fs, h);
        var y :| Covered(fs, y) && h.Covers(y);
        var w :| w in fs && w.Covers(y);
        assert w in fs + [more[0]];
      }
      ConnectAll(fs + [more[0]], more[1..], all);
    }
  }

  /** Files that overlap the hull of a connected set touch one of its members. */
  lemma OverlapTouches(fs: seq<File>, f: File, g: File, h: File)
    requires Connected(fs) && f in fs && g in fs && f.Smallest().key <= g.Largest().key
    requires Overlaps(h, Some(f.Smallest().key), Some(g.Largest().key))
    ensures Touches(fs, h)
  {
    EntryInRange(h, h.Largest());
    var x := if h.Smallest().key < f.Smallest().key then f.Smallest().key else h.Smallest().key;
    assert f.Smallest().key <= x <= g.Largest().key;
    assert Covered(fs, x);
  }

  /** A connected set stays connected when it takes in files that overlap the hull of some of its members. */
  lemma ConnectOverlapping(fs: seq<File>, part: seq<File>, lo: int, hi: int, more: seq<File>, all: seq<File>)
    requires Connected(fs) && UserRange(part, lo, hi) && forall f :: f in part ==> f in fs
    requires forall h :: h in more ==> Overlaps(h, Some(lo), Some(hi))
    requires forall h :: h in all <==> h in fs || h in more
    ensures Connected(all)
  {
    var s :| IsSmallest(part, s) && s.key == lo;
    var f :| f in part && f.Smallest() == s;
    var l :| IsLargest(part, l) && l.key == hi;
    var g :| g in part && g.Largest() == l;
    RangeBounds(part, lo, hi, f);
    forall h | h in more ensures Touches(fs, h) { OverlapTouches(fs, f, g, h); }
    ConnectAll(fs, more, all);
  }

  /** x0 is a wider choice than in0: also all files of its level that overlap the range of both levels' inputs. */
  ghost predicate IsWider(level: nat, fs0: seq<File>, in0: seq<File>, in1: seq<File>, x0: seq<File>) {
    GoodStart(level, fs0, x0) && NoOlderLeft(fs0, x0) && (forall f :: f in in0 ==> f in x0) &&
    forall f, lo, hi :: f in fs0 && UserRange(in0 + in1, lo, hi) && Overlaps(f, Some(lo), Some(hi)) ==> f in x0
  }

  /** The wider choice x0 is taken exactly when it is really larger, keeps below the size limit, and does not change the
      number of files at the lower level. */
  ghost predicate Expanded(fs1: seq<File>, in0: seq<File>, in1: seq<File>, x0: seq<File>, expandedLimit: nat,
                           r0: seq<File>, r1: seq<File>)
  {
    exists lo, hi :: UserRange(x0, lo, hi) &&
      var x1 := Overlapping(fs1, Some(lo), Some(hi));
      if |x0| > |in0| && TotalFileSize(in1) + TotalFileSize(x0) < expandedLimit && |x1| == |in1|
      then r0 == x0 && r1 == x1
      else r0 == in0 && r1 == in1
  }

  /** What SetupOtherInputs chooses: the closed level-L inputs with what overlaps them below, expanded if there are any
      below. */
  ghost predicate ChosenInputs(level: nat, fs0: seq<File>, fs1: seq<File>, picked: seq<File>, expandedLimit: nat,
                               in0: seq<File>, in1: seq<File>)
  {
    exists c0, lo, hi ::
      GoodStart(level, fs0, c0) && NoOlderLeft(fs0, c0) && (forall f :: f in picked ==> f in c0) &&
      UserRange(c0, lo, hi) && var c1 := Overlapping(fs1, Some(lo), Some(hi));
      if |c1| == 0 then in0 == c0 && in1 == c1
      else exists x0 :: IsWider(level, fs0, c0, c1, x0) && Expanded(fs1, c0, c1, x0, expandedLimit, in0, in1)
  }

  /** The inputs grow only where that takes in no further file of the lower level and all of them together stay below
      the limit; and they do grow where a wider choice of this kind has more files. */
  lemma GrownInBytes(fs1: seq<File>, c0: seq<File>, c1: seq<File>, x0: seq<File>, limit: nat, r0: seq<File>,
                     r1: seq<File>, lo: int, hi: int)
    requires Expanded(fs1, c0, c1, x0, limit, r0, r1) && UserRange(x0, lo, hi)
    ensures r0 != c0 ==> r0 == x0 && |r0| > |c0| && |r1| == |c1| && TotalFileSize(c1) + TotalFileSize(r0) < limit
    ensures r0 == c0 ==>
              r1 == c1 &&
              (|x0| <= |c0| || TotalFileSize(c1) + TotalFileSize(x0) >= limit ||
               |Overlapping(fs1, Some(lo), Some(hi))| != |c1|)
  {
    hide TotalFileSize, Overlapping, UserRange;
    var a, b :| UserRange(x0, a, b) &&
      var x1 := Overlapping(fs1, Some(a), Some(b));
      if |x0| > |c0| && TotalFileSize(c1) + TotalFileSize(x0) < limit && |x1| == |c1|
      then r0 == x0 && r1 == x1
      else r0 == c0 && r1 == c1;
    UserRangeIsUnique(x0, a, b, lo, hi);
  }

  /** Chooses both input levels.  expandedLimit is ExpandedCompactionByteSizeLimit. */
  method SetupOtherInputs(level: nat, fs0: seq<File>, fs1: seq<File>, picked: seq<File>, expandedLimit: nat)
    returns (in0: seq<File>, in1: seq<File>, ghost lo: int, ghost hi: int)
    requires GoodStart(level, fs0, picked)
    ensures GoodInputs(fs0, fs1, in0, in1, lo, hi) && GoodStart(level, fs0, in0)
    ensures forall f :: f in picked ==> f in in0
    ensures Connected(picked) ==> Connected(in0 + in1)
    ensures ChosenInputs(level, fs0, fs1, picked, expandedLimit, in0, in1)
  {
    hide NoOlderLeft, Connected, UserRange, Overlapping, IsWider, Expanded, TotalFileSize;
    in0 := CloseInputs(level, fs0, picked, []);
    ConnectedWithNothing(picked);
    ConnectedWithNothing(in0);
    in1, lo, hi := LowerInputs(level, fs1, in0);
    ghost var c0, lo0, hi0 := in0, lo, hi;
    if |in1| > 0 {
      in0, in1, lo, hi := ExpandInputs(level, fs0, fs1, in0, in1, lo, hi, expandedLimit);
    }
    assert UserRange(c0, lo0, hi0);
  }

  /** The level-(L+1) files that overlap the user-key range of the level-L inputs. */
  method LowerInputs(level: nat, fs1: seq<File>, in0: seq<File>)
    returns (in1: seq<File>, ghost lo: int, ghost hi: int)
    requires |in0| > 0
    ensures UserRange(in0, lo, hi) && in1 == Overlapping(fs1, Some(lo), Some(hi))
    ensures Connected(in0) ==> Connected(in0 + in1)
  {
    var smallest, largest := GetRange(in0);
    ghost var b, e;
    in1, b, e := GetOverlappingInputs(level + 1, fs1, Some(smallest.key), Some(largest.key));
    lo, hi := smallest.key, largest.key;
    if Connected(in0) { ConnectOverlapping(in0, in0, lo, hi, in1, in0 + in1); }
  }

  /** Grows the level-L inputs as far as the number of level-(L+1) inputs and the size limit allow. */
  method ExpandInputs(level: nat, fs0: seq<File>, fs1: seq<File>, in0: seq<File>, in1: seq<File>, ghost lo: int,
                      ghost hi: int, expandedLimit: nat)
    returns (r0: seq<File>, r1: seq<File>, ghost lo': int, ghost hi': int)
    requires GoodStart(level, fs0, in0) && GoodInputs(fs0, fs1, in0, in1, lo, hi)
    ensures GoodInputs(fs0, fs1, r0, r1, lo', hi') && GoodStart(level, fs0, r0)
    ensures forall f :: f in in0 ==> f in r0
    ensures Connected(in0 + in1) ==> Connected(r0 + r1)
    ensures exists x0 :: IsWider(level, fs0, in0, in1, x0) && Expanded(fs1, in0, in1, x0, expandedLimit, r0, r1)
  {
    hide GoodStart, NoOlderLeft, IsWider, Connected, UserRange, Overlapping, Covered;
    r0, r1, lo', hi' := in0, in1, lo, hi;
    var expanded0 := ExpandedFiles(level, fs0, in0, in1);
    WiderIsGood(level, fs0, in0, in1, expanded0);
    ghost var low, high := SomeUserRange(expanded0);
    if |expanded0| > |in0| && TotalFileSize(in1) + TotalFileSize(expanded0) < expandedLimit {
      var newStart, newLimit := GetRange(expanded0);
      var expanded1, b1, e1 := GetOverlappingInputs(level + 1, fs1, Some(newStart.key), Some(newLimit.key));
      RangeIs(expanded0, newStart, newLimit);
      UserRangeIsUnique(expanded0, low, high, newStart.key, newLimit.key);
      if |expanded1| == |in1| {
        r0, r1, lo', hi' := expanded0, expanded1, newStart.key, newLimit.key;
        if Connected(in0 + in1) { GrownConnects(fs1, in0, in1, lo, hi, r0, r1, lo', hi'); }
      }
    }
  }

  lemma WiderIsGood(level: nat, fs0: seq<File>, in0: seq<File>, in1: seq<File>, x0: seq<File>)
    requires IsWider(level, fs0, in0, in1, x0) && |in0| > 0
    ensures |x0| > 0 && GoodStart(level, fs0, x0) && NoOlderLeft(fs0, x0) && forall f :: f in in0 ==> f in x0
  {
    assert in0[0] in x0;
  }

  lemma RangeIs(fs: seq<File>, smallest: Entry, largest: Entry)
    requires IsSmallest(fs, smallest) && IsLargest(fs, largest)
    ensures UserRange(fs, smallest.key, largest.key)
  {
  }

  lemma SomeUserRange(fs: seq<File>) returns (lo: int, hi: int)
    requires |fs| > 0
    ensures UserRange(fs, lo, hi)
  {
    var s, l := SomeRange(fs, |fs|);
    assert fs[..|fs|] == fs;
    lo, hi := s.key, l.key;
  }

  lemma {:induction false} SomeRange(fs: seq<File>, n: nat) returns (s: Entry, l: Entry)
    requires 0 < n <= |fs|
    ensures IsSmallest(fs[..n], s) && IsLargest(fs[..n], l)
  {
    var f := fs[n - 1];
    assert f in fs[..n];
    if n == 1 {
      s, l := f.Smallest(), f.Largest();
    } else {
      s, l := SomeRange(fs, n - 1);
      assert fs[..n] == fs[..n - 1] + [f];
      if Before(f.Smallest(), s) { s := f.Smallest(); }
      if Before(l, f.Largest()) { l := f.Largest(); }
    }
  }

  lemma UserRangeIsUnique(fs: seq<File>, lo: int, hi: int, lo': int, hi': int)
    requires UserRange(fs, lo, hi) && UserRange(fs, lo', hi')
    ensures lo == lo' && hi == hi'
  {
    var s :| IsSmallest(fs, s) && s.key == lo;
    var s' :| IsSmallest(fs, s') && s'.key == lo';
    assert !Before(s, s') && !Before(s', s);
    var l :| IsLargest(fs, l) && l.key == hi;
    var l' :| IsLargest(fs, l') && l'.key == hi';
    assert !Before(l, l') && !Before(l', l);
  }

  method ExpandedFiles(level: nat, fs0: seq<File>, in0: seq<File>, in1: seq<File>) returns (r: seq<File>)
    requires GoodStart(level, fs0, in0)
    ensures IsWider(level, fs0, in0, in1, r)
    ensures Connected(in0 + in1) ==> Connected(in0 + in1 + r)
  {
    var all := in0 + in1;
    var allStart, allLimit := GetRange(all);
    var expanded, b, e := GetOverlappingInputs(level, fs0, Some(allStart.key), Some(allLimit.key));
    ExpandedIsGoodStart(level, fs0, in0, all, allStart.key, allLimit.key, b, e);
    if Connected(all) { ExpandedConnects(level, all, fs0, allStart.key, allLimit.key, b, e); }
    hide GoodStart, NoOlderLeft, Connected, ConnectedWith, UserRange, Overlapping, Covered, ClosedRange, GrownFrom;
    r := CloseInputs(level, fs0, expanded, all);
    RangeIs(all, allStart, allLimit);
    WideEnough(fs0, all, allStart.key, allLimit.key, b, e, r);
  }

  lemma WideEnough(fs0: seq<File>, all: seq<File>, lo: int, hi: int, b: Option<int>, e: Option<int>, r: seq<File>)
    requires UserRange(all, lo, hi) && Contains(b, e, Some(lo), Some(hi))
    requires forall f :: f in Overlapping(fs0, b, e) ==> f in r
    ensures forall f, lo', hi' :: f in fs0 && UserRange(all, lo', hi') && Overlaps(f, Some(lo'), Some(hi')) ==> f in r
  {
    hide UserRange;
    forall f, lo', hi' | f in fs0 && UserRange(all, lo', hi') && Overlaps(f, Some(lo'), Some(hi')) ensures f in r {
      UserRangeIsUnique(all, lo, hi, lo', hi');
    }
  }

  lemma GrownConnects(fs1: seq<File>, in0: seq<File>, in1: seq<File>, lo: int, hi: int,
                      r0: seq<File>, r1: seq<File>, lo': int, hi': int)
    requires Connected(in0 + in1 + r0) && forall f :: f in in0 ==> f in r0
    requires UserRange(in0, lo, hi) && in1 == Overlapping(fs1, Some(lo), Some(hi))
    requires UserRange(r0, lo', hi') && r1 == Overlapping(fs1, Some(lo'), Some(hi'))
    ensures Connected(r0 + r1)
  {
    WiderOverlaps(fs1, in0, lo, hi, r0, lo', hi');
    ConnectOverlapping(in0 + in1 + r0, r0, lo', hi', r1, r0 + r1);
  }

  lemma WiderOverlaps(fs1: seq<File>, in0: seq<File>, lo: int, hi: int, wide: seq<File>, lo': int, hi': int)
    requires UserRange(in0, lo, hi) && UserRange(wide, lo', hi') && forall f :: f in in0 ==> f in wide
    ensures forall f :: f in Overlapping(fs1, Some(lo), Some(hi)) ==> f in Overlapping(fs1, Some(lo'), Some(hi'))
  {
    var s :| IsSmallest(in0, s) && s.key == lo;
    var f :| f in in0 && f.Smallest() == s;
    var l :| IsLargest(in0, l) && l.key == hi;
    var g :| g in in0 && g.Largest() == l;
    RangeBounds(wide, lo', hi', f);
    RangeBounds(wide, lo', hi', g);
  }

  /** The files of level L that overlap the whole range of a connected set do not break it up. */
  lemma ExpandedConnects(level: nat, all: seq<File>, fs0: seq<File>, lo: int, hi: int, b: Option<int>, e: Option<int>)
    requires Connected(all) && UserRange(all, lo, hi)
    requires GrownFrom(fs0, Some(lo), Some(hi), b, e)
    requires level > 0 ==> b == Some(lo) && e == Some(hi)
    requires level == 0 ==> ClosedRange(fs0, b, e)
    ensures Connected(all + Overlapping(fs0, b, e))
  {
    var more := Overlapping(fs0, b, e);
    if level > 0 {
      ConnectOverlapping(all, all, lo, hi, more, all + more);
    } else {
      forall p, q, x | p in all + more && q in all + more && p.Smallest().key <= x <= q.Largest().key
        ensures Covered(all + more, x)
      {
        if p in all { RangeBounds(all, lo, hi, p); }
        if q in all { RangeBounds(all, lo, hi, q); }
        assert InRange(x, b, e);
        HullCovered(all, lo, hi, x);
        if lo <= x <= hi {
          var h :| h in all && h.Covers(x);
          assert h in all + more;
        } else {
          var h :| h in fs0 && Overlaps(h, b, e) && h.Covers(x);
          assert h in all + more;
        }
      }
    }
  }

  lemma HullCovered(all: seq<File>, lo: int, hi: int, x: int)
    requires Connected(all) && UserRange(all, lo, hi)
    ensures lo <= x <= hi ==> Covered(all, x)
  {
    var s :| IsSmallest(all, s) && s.key == lo;
    var f :| f in all && f.Smallest() == s;
    var l :| IsLargest(all, l) && l.key == hi;
    var g :| g in all && g.Largest() == l;
    if lo <= x <= hi { assert f.Smallest().key <= x <= g.Largest().key; }
  }

  lemma ExpandedIsGoodStart(level: nat, fs0: seq<File>, in0: seq<File>, all: seq<File>, lo: int, hi: int,
                            b: Option<int>, e: Option<int>)
    requires GoodStart(level, fs0, in0) && UserRange(all, lo, hi) && in0 <= all
    requires Contains(b, e, Some(lo), Some(hi)) && (level > 0 ==> b == Some(lo) && e == Some(hi))
    requires level == 0 ==> ClosedRange(fs0, b, e)
    ensures GoodStart(level, fs0, Overlapping(fs0, b, e))
    ensures forall f :: f in in0 ==> f in Overlapping(fs0, b, e)
  {
    forall f | f in in0 ensures f in Overlapping(fs0, b, e) {
      RangeBounds(all, lo, hi, f);
    }
    assert in0[0] in Overlapping(fs0, b, e);
    if level == 0 {
      ClosedIsSeparate(fs0, b, e);
    } else {
      var i, j := OverlappingIsSlice(fs0, b, e);
    }
  }

  // ---------------------------------------------------------------- where a compaction or a flush starts

  /** The file alone, and on level 0 all that overlap it, directly or through others. */
  ghost predicate IsPicked(level: nat, fs: seq<File>, seed: File, picked: seq<File>) {
    GoodStart(level, fs, picked) && seed in picked && Connected(picked) && (level > 0 ==> picked == [seed])
  }

  /** The files an automatic compaction of one level starts from (PickCompaction). */
  method PickInputs(level: nat, fs: seq<File>, seed: File) returns (picked: seq<File>)
    requires seed in fs && (level > 0 ==> Disjoint(fs))
    ensures IsPicked(level, fs, seed, picked)
  {
    picked := [seed];
    EntryInRange(seed, seed.Largest());
    if level == 0 {
      var smallest, largest := GetRange(picked);
      ghost var b, e;
      picked, b, e := GetOverlappingInputs(0, fs, Some(smallest.key), Some(largest.key));
      ClosedIsSeparate(fs, b, e);
      assert seed in picked;
      forall p, q, x | p in picked && q in picked && p.Smallest().key <= x <= q.Largest().key
        ensures Covered(picked, x)
      {
        assert InRange(x, b, e);
        if InRange(x, Some(smallest.key), Some(largest.key)) { assert seed.Covers(x); }
      }
    } else {
      var i :| 0 <= i < |fs| && fs[i] == seed;
      assert picked == fs[i..i + 1];
    }
  }

  /** some are the first of all, up to the one with which they reach the limit. */
  ghost predicate LimitedTo(all: seq<File>, some: seq<File>, limit: nat) {
    some <= all && (some == all || TotalFileSize(some) >= limit) && (|all| > 0 ==> |some| > 0) &&
    forall m :: 0 < m < |some| ==> TotalFileSize(some[..m]) < limit
  }

  /** The files that overlap a range: on a sorted level no more than reach the size limit, on level 0 also those that
      touch them. */
  ghost predicate IsRangeOf(level: nat, fs: seq<File>, begin: Option<int>, end: Option<int>, limit: nat,
                            picked: seq<File>)
  {
    if level > 0 then LimitedTo(Overlapping(fs, begin, end), picked, limit)
    else
      exists b, e :: picked == Overlapping(fs, b, e) && ClosedRange(fs, b, e) && GrownFrom(fs, begin, end, b, e)
  }

  /** The files a manual compaction of one level starts from (CompactRange). */
  method ManualInputs(level: nat, fs: seq<File>, begin: Option<int>, end: Option<int>, limit: nat)
    returns (picked: seq<File>)
    requires level > 0 ==> Disjoint(fs)
    ensures |picked| > 0 ==> GoodStart(level, fs, picked)
    ensures |picked| == 0 <==> forall f :: f in fs ==> !Overlaps(f, begin, end)
    ensures IsRangeOf(level, fs, begin, end, limit, picked)
    ensures level > 0 ==> forall m :: 0 < m < |picked| ==> TotalFileSize(picked[..m]) < limit
    ensures forall f :: f in fs && Overlaps(f, begin, end) && f !in picked ==> TotalFileSize(picked) >= limit
  {
    ghost var b, e;
    picked, b, e := GetOverlappingInputs(level, fs, begin, end);
    if ClosedRange(fs, begin, end) { assert Contains(begin, end, b, e); }
    EmptyWhenNothingOverlaps(fs, begin, end, b, e);
    if |picked| == 0 { return; }
    assert picked[0] in picked;
    if level == 0 {
      ClosedIsSeparate(fs, b, e);
    } else {
      ghost var i, j := OverlappingIsSlice(fs, begin, end);
      var n := LimitedCount(picked, limit);
      picked := picked[..n];
      SliceOfSlice(fs, i, j, n);
    }
  }

  lemma SliceOfSlice(fs: seq<File>, i: nat, j: nat, n: nat)
    requires i <= j <= |fs| && 0 < n <= j - i
    ensures IsSlice(fs, fs[i..j][..n])
  {
    assert fs[i..j][..n] == fs[i..i + n];
  }

  /** How many of the inputs one manual step takes: up to the file that reaches the size limit. */
  method LimitedCount(inputs: seq<File>, limit: nat) returns (n: nat)
    requires |inputs| > 0
    ensures 0 < n <= |inputs| && LimitedTo(inputs, inputs[..n], limit)
  {
    var total := 0;
    n := 0;
    while n < |inputs|
      invariant n <= |inputs| && total == TotalFileSize(inputs[..n])
      invariant forall m :: 0 < m <= n ==> TotalFileSize(inputs[..m]) < limit
    {
      total := total + inputs[n].size;
      OneMoreSize(inputs, n);
      n := n + 1;
      if total >= limit {
        assert forall m :: 0 < m < n ==> inputs[..n][..m] == inputs[..m];
        return;
      }
    }
    assert inputs[..n] == inputs && forall m :: 0 < m < n ==> inputs[..n][..m] == inputs[..m];
  }

  lemma OneMoreSize(fs: seq<File>, n: nat)
    requires n < |fs|
    ensures TotalFileSize(fs[..n + 1]) == TotalFileSize(fs[..n]) + fs[n].size
  {
    assert fs[..n + 1] == fs[..n] + [fs[n]];
    SizesAdd(fs[..n], [fs[n]]);
  }

  lemma {:induction false} SizesAdd(a: seq<File>, b: seq<File>)
    ensures TotalFileSize(a + b) == TotalFileSize(a) + TotalFileSize(b)
  {
    if |a| == 0 {
      assert a + b == b;
    } else {
      SizesAdd(a[1..], b);
      assert (a + b)[1..] == a[1..] + b;
    }
  }

  ghost predicate NothingIn(fs: seq<File>, lo: int, hi: int) {
    forall f :: f in fs ==> !Overlaps(f, Some(lo), Some(hi))
  }

  /** A new table may go below this level: nothing overlaps it one level down, and not too much two levels down. */
  ghost predicate MayDescend(levels: seq<seq<File>>, level: nat, lo: int, hi: int, maxGrandparentOverlap: nat) {
    level + 2 < |levels| && NothingIn(levels[level + 1], lo, hi) &&
    TotalFileSize(Overlapping(levels[level + 2], Some(lo), Some(hi))) <= maxGrandparentOverlap
  }

  /** The level where a table with these user keys stops on its way down from level 0. */
  ghost predicate StopsAt(levels: seq<seq<File>>, lo: int, hi: int, maxGrandparentOverlap: nat, level: nat) {
    |levels| == 7 && level <= 2 &&
    if NothingIn(levels[0], lo, hi) then
      (forall l: nat :: l < level ==> MayDescend(levels, l, lo, hi, maxGrandparentOverlap)) &&
      (level < 2 ==> !MayDescend(levels, level, lo, hi, maxGrandparentOverlap))
    else level == 0
  }

  /** There is one such level, so this is the one that the loop finds. */
  lemma StopsOnce(levels: seq<seq<File>>, lo: int, hi: int, maxGrandparentOverlap: nat, a: nat, b: nat)
    requires StopsAt(levels, lo, hi, maxGrandparentOverlap, a) && StopsAt(levels, lo, hi, maxGrandparentOverlap, b)
    ensures a == b
  {
    hide MayDescend;
    assert a < b ==> MayDescend(levels, a, lo, hi, maxGrandparentOverlap);
    assert b < a ==> MayDescend(levels, b, lo, hi, maxGrandparentOverlap);
  }

  method PickLevelForMemTableOutput(levels: seq<seq<File>>, lo: int, hi: int, maxGrandparentOverlap: nat)
    returns (level: nat)
    requires |levels| == 7 && forall l :: 1 <= l < 7 ==> Disjoint(levels[l])
    ensures StopsAt(levels, lo, hi, maxGrandparentOverlap, level)
  {
    level := 0;
    var overlap := SomeFileOverlapsRange(false, levels[0], Some(lo), Some(hi));
    if !overlap {
      while level < 2
        invariant level <= 2 && forall l: nat :: l < level ==> MayDescend(levels, l, lo, hi, maxGrandparentOverlap)
      {
        overlap := SomeFileOverlapsRange(true, levels[level + 1], Some(lo), Some(hi));
        if overlap { break; }
        if level + 2 < 7 {
          var overlaps, b, e := GetOverlappingInputs(level + 2, levels[level + 2], Some(lo), Some(hi));
          if TotalFileSize(overlaps) > maxGrandparentOverlap { break; }
        }
        level := level + 1;
      }
    }
  }

  /** Nothing overlaps the table where it stops, nor above. */
  lemma StopsAmongNothing(levels: seq<seq<File>>, lo: int, hi: int, maxGrandparentOverlap: nat, level: nat)
    requires StopsAt(levels, lo, hi, maxGrandparentOverlap, level) && level > 0
    ensures forall l, f :: 0 <= l <= level && f in levels[l] ==> !Overlaps(f, Some(lo), Some(hi))
  {
    forall l, f | 0 <= l <= level && f in levels[l] ensures !Overlaps(f, Some(lo), Some(hi)) {
      if l > 0 { assert MayDescend(levels, l - 1, lo, hi, maxGrandparentOverlap); }
    }
  }

  /** A file with user keys among those from lo to hi. */
  ghost predicate Meets(f: File, lo: int, hi: int) { f.data[0].key <= hi && lo <= f.data[|f.data| - 1].key }

  ghost predicate MeetsNone(fs: seq<File>, lo: int, hi: int) { forall i :: 0 <= i < |fs| ==> !Meets(fs[i], lo, hi) }

  /** The bytes of these files among the first n. */
  ghost function BytesMet(fs: seq<File>, n: nat, lo: int, hi: int): nat
    requires n <= |fs|
  {
    if n == 0 then 0 else BytesMet(fs, n - 1, lo, hi) + if Meets(fs[n - 1], lo, hi) then fs[n - 1].size else 0
  }

  /** The level of a new table with user keys from lo to hi: 0 unless nothing on the levels 0 and 1 meets it and not too
      many bytes on level 2; then 1 unless nothing on level 2 meets it and not too many bytes on level 3; else 2. */
  ghost predicate GoesTo(levels: seq<seq<File>>, lo: int, hi: int, most: nat, level: nat)
    requires |levels| == 7
  {
    if !MeetsNone(levels[0], lo, hi) || !MeetsNone(levels[1], lo, hi) ||
      BytesMet(levels[2], |levels[2]|, lo, hi) > most then
      level == 0
    else if !MeetsNone(levels[2], lo, hi) || BytesMet(levels[3], |levels[3]|, lo, hi) > most then
      level == 1
    else
      level == 2
  }

  lemma StopsWhereItGoes(levels: seq<seq<File>>, lo: int, hi: int, most: nat, level: nat)
    requires StopsAt(levels, lo, hi, most, level)
    ensures GoesTo(levels, lo, hi, most, level)
  {
    hide TotalFileSize, Overlapping, BytesMet, MeetsNone, NothingIn;
    forall l: nat | l < 7
      ensures MeetsNone(levels[l], lo, hi) <==> NothingIn(levels[l], lo, hi)
      ensures BytesMet(levels[l], |levels[l]|, lo, hi) == TotalFileSize(Overlapping(levels[l], Some(lo), Some(hi)))
    {
      MetOverlap(levels[l], lo, hi);
    }
    assert level > 0 ==> MayDescend(levels, 0, lo, hi, most);
    assert level > 1 ==> MayDescend(levels, 1, lo, hi, most);
  }

  lemma MetOverlap(fs: seq<File>, lo: int, hi: int)
    ensures MeetsNone(fs, lo, hi) <==> NothingIn(fs, lo, hi)
    ensures BytesMet(fs, |fs|, lo, hi) == TotalFileSize(Overlapping(fs, Some(lo), Some(hi)))
  {
    BytesOfOverlapping(fs, |fs|, lo, hi);
    if NothingIn(fs, lo, hi) {
      forall i | 0 <= i < |fs| ensures !Meets(fs[i], lo, hi) { assert !Overlaps(fs[i], Some(lo), Some(hi)); }
    }
  }

  lemma {:induction false} BytesOfOverlapping(fs: seq<File>, n: nat, lo: int, hi: int)
    requires n <= |fs|
    ensures BytesMet(fs, n, lo, hi) == TotalFileSize(OverlappingUpTo(fs, n, Some(lo), Some(hi)))
  {
    if n == 0 {
    } else {
      BytesOfOverlapping(fs, n - 1, lo, hi);
      SizesAdd(OverlappingUpTo(fs, n - 1, Some(lo), Some(hi)), [fs[n - 1]]);
    }
  }

  // ---------------------------------------------------------------- saving an edit into a version

  ghost predicate Apart(f: File, g: File) {
    Before(f.Largest(), g.Smallest()) || Before(g.Largest(), f.Smallest())
  }

  /** out holds the undeleted files of base and added, and nothing else. */
  ghost predicate Saved(base: seq<File>, deleted: set<nat>, added: seq<File>, out: seq<File>) {
    forall f :: f in out <==> (f in base || f in added) && f.number !in deleted
  }

  /** The files that will survive do not overlap as ranges of internal keys. */
  ghost predicate FitTogether(base: seq<File>, deleted: set<nat>, added: seq<File>) {
    (forall f, g :: f in base && f.number !in deleted && g in added ==> Apart(f, g)) &&
    Disjoint(base) && Disjoint(added)
  }

  ghost predicate BySmallest(fs: seq<File>) {
    forall i, j :: 0 <= i < j < |fs| ==> !Before(fs[j].Smallest(), fs[i].Smallest())
  }

  ghost predicate DisjointBut(fs: seq<File>, deleted: set<nat>) {
    forall i, j :: 0 <= i < j < |fs| && fs[i].number !in deleted && fs[j].number !in deleted ==>
      Before(fs[i].Largest(), fs[j].Smallest())
  }

  /** The same when deleted files may lie in between. */
  ghost predicate SurvivorsFit(base: seq<File>, deleted: set<nat>, added: seq<File>) {
    BySmallest(base) && BySmallest(added) && DisjointBut(base, deleted) && DisjointBut(added, deleted) &&
    forall f, g :: f in base && g in added && f.number !in deleted && g.number !in deleted ==> Apart(f, g)
  }

  lemma DisjointIsBySmallest(fs: seq<File>)
    requires Disjoint(fs)
    ensures BySmallest(fs)
  {
    forall i, j | 0 <= i < j < |fs| ensures !Before(fs[j].Smallest(), fs[i].Smallest()) { SmallestOrdered(fs, i, j); }
  }

  lemma FitTogetherFits(base: seq<File>, deleted: set<nat>, added: seq<File>)
    requires FitTogether(base, deleted, added)
    ensures SurvivorsFit(base, deleted, added)
  {
    DisjointIsBySmallest(base);
    DisjointIsBySmallest(added);
  }

  /** One level of Builder::SaveTo: a merge of the base files and the added files by smallest key. */
  method SaveLevel(base: seq<File>, deleted: set<nat>, added: seq<File>) returns (out: seq<File>)
    ensures Saved(base, deleted, added, out)
    ensures FitTogether(base, deleted, added) || SurvivorsFit(base, deleted, added) ==> Disjoint(out)
  {
    hide FitTogether, SurvivorsFit, MergedSoFar, Saved;
    if FitTogether(base, deleted, added) { FitTogetherFits(base, deleted, added); }
    NothingMerged(base, deleted, added);
    out := [];
    var bi, ai := 0, 0;
    while ai < |added|
      invariant 0 <= bi <= |base| && 0 <= ai <= |added|
      invariant Saved(base[..bi], deleted, added[..ai], out)
      invariant SurvivorsFit(base, deleted, added) ==> MergedSoFar(base, deleted, added, bi, ai, out)
    {
      while bi < |base| && !Before(added[ai].Smallest(), base[bi].Smallest())
        invariant 0 <= bi <= |base|
        invariant Saved(base[..bi], deleted, added[..ai], out)
        invariant SurvivorsFit(base, deleted, added) ==> MergedSoFar(base, deleted, added, bi, ai, out)
      {
        if SurvivorsFit(base, deleted, added) { MergeStep(base, deleted, added, bi, ai, out); }
        SavedBase(base, deleted, added, bi, ai, out);
        if base[bi].number !in deleted { out := out + [base[bi]]; }
        bi := bi + 1;
      }
      if SurvivorsFit(base, deleted, added) { MergeAdded(base, deleted, added, bi, ai, out); }
      SavedAdded(base, deleted, added, bi, ai, out);
      if added[ai].number !in deleted { out := out + [added[ai]]; }
      ai := ai + 1;
    }
    while bi < |base|
      invariant 0 <= bi <= |base|
      invariant Saved(base[..bi], deleted, added[..ai], out)
      invariant SurvivorsFit(base, deleted, added) ==> MergedSoFar(base, deleted, added, bi, ai, out)
    {
      if SurvivorsFit(base, deleted, added) { MergeStep(base, deleted, added, bi, ai, out); }
      SavedBase(base, deleted, added, bi, ai, out);
      if base[bi].number !in deleted { out := out + [base[bi]]; }
      bi := bi + 1;
    }
    assert base[..bi] == base && added[..ai] == added;
    MergedIsDisjoint(base, deleted, added, bi, ai, out);
  }

  lemma MergedIsDisjoint(base: seq<File>, deleted: set<nat>, added: seq<File>, bi: nat, ai: nat, out: seq<File>)
    ensures MergedSoFar(base, deleted, added, bi, ai, out) ==> Disjoint(out)
  {
  }

  /** out is sorted and every surviving file still to come lies after it. */
  ghost predicate MergedSoFar(base: seq<File>, deleted: set<nat>, added: seq<File>, bi: nat, ai: nat, out: seq<File>) {
    Disjoint(out) && AllAfter(out, base, deleted, bi) && AllAfter(out, added, deleted, ai)
  }

  ghost predicate AllAfter(out: seq<File>, fs: seq<File>, deleted: set<nat>, from: nat) {
    forall f, j :: f in out && from <= j < |fs| && fs[j].number !in deleted ==> Before(f.Largest(), fs[j].Smallest())
  }

  lemma NothingMerged(base: seq<File>, deleted: set<nat>, added: seq<File>)
    ensures MergedSoFar(base, deleted, added, 0, 0, []) && Saved(base[..0], deleted, added[..0], [])
  {
  }

  lemma AppendDisjoint(out: seq<File>, f: File)
    requires Disjoint(out) && forall g :: g in out ==> Before(g.Largest(), f.Smallest())
    ensures Disjoint(out + [f])
  {
  }

  /** The next file of fs comes before all that are left, here and in the other list. */
  lemma NextIsFirst(fs: seq<File>, others: seq<File>, deleted: set<nat>, i: nat, k: nat, out: seq<File>)
    requires BySmallest(others) && DisjointBut(fs, deleted) && i < |fs| && k <= |others| && fs[i].number !in deleted
    requires forall f, g :: f in fs && g in others && f.number !in deleted && g.number !in deleted ==> Apart(f, g)
    requires k < |others| ==> !Before(others[k].Smallest(), fs[i].Smallest())
    requires AllAfter(out, fs, deleted, i) && AllAfter(out, others, deleted, k)
    ensures AllAfter(out + [fs[i]], fs, deleted, i + 1) && AllAfter(out + [fs[i]], others, deleted, k)
  {
    var f := fs[i];
    forall j | k <= j < |others| && others[j].number !in deleted ensures Before(f.Largest(), others[j].Smallest()) {
      EntryInRange(others[j], others[j].Largest());
      EntryInRange(f, f.Largest());
      assert Apart(f, others[j]);
    }
  }

  lemma MergeStep(base: seq<File>, deleted: set<nat>, added: seq<File>, bi: nat, ai: nat, out: seq<File>)
    requires SurvivorsFit(base, deleted, added) && bi < |base| && ai <= |added|
    requires MergedSoFar(base, deleted, added, bi, ai, out)
    requires ai < |added| ==> !Before(added[ai].Smallest(), base[bi].Smallest())
    ensures base[bi].number !in deleted ==> MergedSoFar(base, deleted, added, bi + 1, ai, out + [base[bi]])
    ensures base[bi].number in deleted ==> MergedSoFar(base, deleted, added, bi + 1, ai, out)
  {
    if base[bi].number !in deleted {
      AppendDisjoint(out, base[bi]);
      NextIsFirst(base, added, deleted, bi, ai, out);
    }
  }

  lemma MergeAdded(base: seq<File>, deleted: set<nat>, added: seq<File>, bi: nat, ai: nat, out: seq<File>)
    requires SurvivorsFit(base, deleted, added) && bi <= |base| && ai < |added|
    requires MergedSoFar(base, deleted, added, bi, ai, out)
    requires bi < |base| ==> Before(added[ai].Smallest(), base[bi].Smallest())
    ensures added[ai].number !in deleted ==> MergedSoFar(base, deleted, added, bi, ai + 1, out + [added[ai]])
    ensures added[ai].number in deleted ==> MergedSoFar(base, deleted, added, bi, ai + 1, out)
  {
    if added[ai].number !in deleted {
      AppendDisjoint(out, added[ai]);
      assert forall f, g :: f in added && g in base && f.number !in deleted && g.number !in deleted ==> Apart(g, f);
      NextIsFirst(added, base, deleted, ai, bi, out);
    }
  }

  lemma SavedBase(base: seq<File>, deleted: set<nat>, added: seq<File>, bi: nat, ai: nat, out: seq<File>)
    requires bi < |base| && ai <= |added| && Saved(base[..bi], deleted, added[..ai], out)
    ensures Saved(base[..bi + 1], deleted, added[..ai], if base[bi].number !in deleted then out + [base[bi]] else out)
  {
    assert base[..bi + 1] == base[..bi] + [base[bi]];
  }

  lemma SavedAdded(base: seq<File>, deleted: set<nat>, added: seq<File>, bi: nat, ai: nat, out: seq<File>)
    requires bi <= |base| && ai < |added| && Saved(base[..bi], deleted, added[..ai], out)
    ensures Saved(base[..bi], deleted, added[..ai + 1], if added[ai].number !in deleted then out + [added[ai]] else out)
  {
    assert added[..ai + 1] == added[..ai] + [added[ai]];
  }

  lemma EmptyWhenNothingOverlaps(fs: seq<File>, begin: Option<int>, end: Option<int>, b: Option<int>, e: Option<int>)
    requires Contains(b, e, begin, end) && (ClosedRange(fs, begin, end) ==> Contains(begin, end, b, e))
    ensures |Overlapping(fs, b, e)| == 0 <==> forall f :: f in fs ==> !Overlaps(f, begin, end)
  {
    forall f | f in fs && Overlaps(f, begin, end) ensures f in Overlapping(fs, b, e) {}
    if |Overlapping(fs, b, e)| > 0 {
      var f := Overlapping(fs, b, e)[0];
      assert f in Overlapping(fs, b, e);
    }
  }
}
