/** Where a compaction cuts what it writes into tables: where a table is full, and where a table would overlap too much
    of the level below the outputs (db/version_set.cc ShouldStopBefore, db/db_impl.cc DoCompactionWork). */
module OutputCuts {
  import opened InternalKeys
  import opened VersionSet

  /** What decides where the outputs are cut: the files two levels below the upper inputs and how much of them one
      table may overlap; how large the table file has become when certain entries have been added to it, and when that
      is enough. */
  datatype Cut = Cut(grandparents: seq<File>, maxOverlap: nat, fileSize: seq<Entry> -> nat, maxOutputFileSize: nat) {
    predicate Full(t: seq<Entry>) { fileSize(t) >= maxOutputFileSize }
  }

  // ---------------------------------------------------------------- stopping for the grandparents

  /** The first of the files from p on that does not end before e. */
  function PassedFrom(gs: seq<File>, p: nat, e: Entry): (r: nat)
    requires p <= |gs|
    ensures p <= r <= |gs|
    ensures forall q :: p <= q < r ==> Before(gs[q].Largest(), e)
    ensures r < |gs| ==> !Before(gs[r].Largest(), e)
    decreases |gs| - p
  {
    if p < |gs| && Before(gs[p].Largest(), e) then PassedFrom(gs, p + 1, e) else p
  }

  /** How large the grandparents are that end before b but not before a. */
  function SizeBetween(gs: seq<File>, a: Entry, b: Entry): nat {
    var p, q := PassedFrom(gs, 0, a), PassedFrom(gs, 0, b);
    if p <= q then TotalFileSize(gs[p..q]) else 0
  }

  /** The position of the last stop before position i, or the start. */
  ghost function LastStop(input: seq<Entry>, cut: Cut, i: nat): (s: nat)
    requires i <= |input|
    ensures s <= i && (i > 0 ==> s < i)
    decreases i, 0
  {
    if i == 0 then 0 else if StopsBefore(input, cut, i - 1) then i - 1 else LastStop(input, cut, i - 1)
  }

  /** Since the last stop, too much of the grandparents has been passed. */
  ghost predicate StopsBefore(input: seq<Entry>, cut: Cut, i: nat)
    requires i < |input|
    decreases i, 1
  {
    SizeBetween(cut.grandparents, input[LastStop(input, cut, i)], input[i]) > cut.maxOverlap
  }

  lemma PassedAscends(gs: seq<File>, a: Entry, b: Entry)
    requires a == b || Before(a, b)
    ensures PassedFrom(gs, 0, a) <= PassedFrom(gs, 0, b)
    ensures PassedFrom(gs, PassedFrom(gs, 0, a), b) == PassedFrom(gs, 0, b)
  {
  }

  /** What ShouldStopBefore remembers of the entries it has been asked about. */
  class OverlapCursor {
    const cut: Cut
    var grandparentIndex: nat
    var seenKey: bool
    var overlappedBytes: nat

    /** It has been asked about the first i entries of input. */
    ghost predicate AskedUpTo(input: seq<Entry>, i: nat)
      reads this
    {
      i <= |input| && (seenKey <==> i > 0) && grandparentIndex <= |cut.grandparents| &&
      if i == 0 then grandparentIndex == 0 && overlappedBytes == 0
      else
        grandparentIndex == PassedFrom(cut.grandparents, 0, input[i - 1]) &&
        overlappedBytes == SizeBetween(cut.grandparents, input[LastStop(input, cut, i)], input[i - 1])
    }

    constructor (cut: Cut)
      ensures this.cut == cut && forall input :: AskedUpTo(input, 0)
    {
      this.cut, grandparentIndex, seenKey, overlappedBytes := cut, 0, false, 0;
    }

    method ShouldStopBefore(key: Entry, ghost input: seq<Entry>, ghost i: nat) returns (stop: bool)
      requires Sorted(input) && i < |input| && key == input[i] && AskedUpTo(input, i)
      modifies this
      ensures AskedUpTo(input, i + 1)
      ensures stop <==> StopsBefore(input, cut, i)
    {
      PassGrandparents(key);
      seenKey := true;
      NextPassed(input, cut, i);
      stop := overlappedBytes > cut.maxOverlap;
      if stop { overlappedBytes := 0; }
    }

    /** Moves on to the earliest grandparent that does not end before key. */
    method PassGrandparents(key: Entry)
      requires grandparentIndex <= |cut.grandparents|
      modifies this`grandparentIndex, this`overlappedBytes
      ensures grandparentIndex == PassedFrom(cut.grandparents, old(grandparentIndex), key)
      ensures overlappedBytes == old(overlappedBytes) +
              if seenKey then TotalFileSize(cut.grandparents[old(grandparentIndex)..grandparentIndex]) else 0
    {
      ghost var from := grandparentIndex;
      while grandparentIndex < |cut.grandparents| && Before(cut.grandparents[grandparentIndex].Largest(), key)
        invariant from <= grandparentIndex <= |cut.grandparents|
        invariant PassedFrom(cut.grandparents, from, key) == PassedFrom(cut.grandparents, grandparentIndex, key)
        invariant overlappedBytes == old(overlappedBytes) +
                  if seenKey then TotalFileSize(cut.grandparents[from..grandparentIndex]) else 0
        decreases |cut.grandparents| - grandparentIndex
      {
        OneMorePassed(cut.grandparents, from, grandparentIndex);
        if seenKey { overlappedBytes := overlappedBytes + cut.grandparents[grandparentIndex].size; }
        grandparentIndex := grandparentIndex + 1;
      }
    }
  }

  lemma OneMorePassed(gs: seq<File>, p: nat, q: nat)
    requires p <= q < |gs|
    ensures TotalFileSize(gs[p..q + 1]) == TotalFileSize(gs[p..q]) + gs[q].size
  {
    assert gs[p..q + 1] == gs[p..q] + [gs[q]];
    SizesAdd(gs[p..q], [gs[q]]);
  }

  lemma NextPassed(input: seq<Entry>, cut: Cut, i: nat)
    requires Sorted(input) && i < |input|
    ensures SizeBetween(cut.grandparents, input[i], input[i]) == 0
    ensures i > 0 ==>
              var p, q := PassedFrom(cut.grandparents, 0, input[i - 1]), PassedFrom(cut.grandparents, 0, input[i]);
              var last := input[LastStop(input, cut, i)];
              p <= q && PassedFrom(cut.grandparents, p, input[i]) == q &&
              SizeBetween(cut.grandparents, last, input[i])
              == SizeBetween(cut.grandparents, last, input[i - 1]) + TotalFileSize(cut.grandparents[p..q])
  {
    hide PassedFrom, TotalFileSize;
    var gs := cut.grandparents;
    var q := PassedFrom(gs, 0, input[i]);
    assert gs[q..q] == [] && TotalFileSize([]) == 0 by { NoSize(); }
    if i > 0 {
      var s := LastStop(input, cut, i);
      assert s < i - 1 ==> Before(input[s], input[i - 1]);
      assert Before(input[i - 1], input[i]);
      PassedAscends(gs, input[s], input[i - 1]);
      PassedAscends(gs, input[i - 1], input[i]);
      var o, p := PassedFrom(gs, 0, input[s]), PassedFrom(gs, 0, input[i - 1]);
      assert gs[o..q] == gs[o..p] + gs[p..q];
      SizesAdd(gs[o..p], gs[p..q]);
    }
  }

  lemma NoSize()
    ensures TotalFileSize([]) == 0
  {
  }

  // ---------------------------------------------------------------- the tables

  /** No table goes on once it is full. */
  ghost predicate FullAtMostAtEnd(t: seq<Entry>, cut: Cut) { forall k :: 0 < k < |t| ==> !cut.Full(t[..k]) }

  /** How many stops there are among the first n positions, as seen from e: a stop counts once e has been reached. */
  ghost function StopsUpTo(input: seq<Entry>, cut: Cut, n: nat, e: Entry): nat
    requires n <= |input|
  {
    if n == 0 then 0
    else StopsUpTo(input, cut, n - 1, e) + if StopsBefore(input, cut, n - 1) && !Before(e, input[n - 1]) then 1 else 0
  }

  ghost function Group(input: seq<Entry>, cut: Cut, e: Entry): nat { StopsUpTo(input, cut, |input|, e) }

  /** Without grandparents there is no stop. */
  lemma {:induction false} NeverStopped(input: seq<Entry>, cut: Cut, n: nat, e: Entry)
    requires n <= |input| && cut.grandparents == []
    ensures StopsUpTo(input, cut, n, e) == 0
  {
    if n == 0 {
    } else {
      NeverStopped(input, cut, n - 1, e);
    }
  }

  /** No stop separates two entries of t. */
  ghost predicate InGroup(t: seq<Entry>, input: seq<Entry>, cut: Cut, g: nat) {
    forall e :: e in t ==> Group(input, cut, e) == g
  }

  /** A table ends where it is full, where a stop separates it from what follows, and nowhere else. */
  ghost predicate RightlyCut(tables: seq<Table>, input: seq<Entry>, cut: Cut) {
    (forall t :: t in tables ==> FullAtMostAtEnd(t, cut) && InGroup(t, input, cut, Group(input, cut, t[0]))) &&
    forall n :: 0 <= n < |tables| - 1 ==>
      cut.Full(tables[n]) || Group(input, cut, tables[n][0]) != Group(input, cut, tables[n + 1][0])
  }

  function Concat(tables: seq<Table>): seq<Entry> {
    if |tables| == 0 then [] else Concat(tables[..|tables| - 1]) + tables[|tables| - 1]
  }

  /** Which entries there are and where they must be cut leaves no choice of the tables. */
  lemma {:induction false} CutsAreDetermined(a: seq<Table>, b: seq<Table>, input: seq<Entry>, cut: Cut)
    requires RightlyCut(a, input, cut) && RightlyCut(b, input, cut) && Concat(a) == Concat(b)
    ensures a == b
    decreases |a|
  {
    hide FullAtMostAtEnd, InGroup, Group;
    if |a| == 0 || |b| == 0 {
      NothingInNoTables(a);
      NothingInNoTables(b);
    } else {
      FirstTable(a);
      FirstTable(b);
      FirstIsNotShorter(a, b, input, cut);
      FirstIsNotShorter(b, a, input, cut);
      assert a[0] == Concat(a)[..|a[0]|] && b[0] == Concat(b)[..|b[0]|];
      RestIsCut(a, input, cut);
      RestIsCut(b, input, cut);
      assert Concat(a[1..]) == Concat(a)[|a[0]|..] && Concat(b[1..]) == Concat(b)[|b[0]|..];
      CutsAreDetermined(a[1..], b[1..], input, cut);
      assert a == [a[0]] + a[1..] && b == [b[0]] + b[1..];
    }
  }

  lemma NothingInNoTables(tables: seq<Table>)
    ensures Concat(tables) == [] <==> tables == []
  {
  }

  lemma {:induction false} FirstTable(tables: seq<Table>)
    requires |tables| > 0
    ensures Concat(tables) == tables[0] + Concat(tables[1..])
  {
    var n := |tables| - 1;
    if n == 0 {
      assert tables[..0] == [] && tables[1..] == [];
    } else {
      FirstTable(tables[..n]);
      assert tables[..n][1..] == tables[1..][..n - 1];
    }
  }

  lemma RestIsCut(tables: seq<Table>, input: seq<Entry>, cut: Cut)
    requires RightlyCut(tables, input, cut) && |tables| > 0
    ensures RightlyCut(tables[1..], input, cut)
  {
    hide FullAtMostAtEnd, InGroup, Group;
    var rest := tables[1..];
    forall n | 0 <= n < |rest| - 1
      ensures cut.Full(rest[n]) || Group(input, cut, rest[n][0]) != Group(input, cut, rest[n + 1][0])
    {
      assert rest[n] == tables[n + 1] && rest[n + 1] == tables[n + 2];
    }
  }

  lemma SecondTable(tables: seq<Table>)
    requires |tables| > 0 && |Concat(tables)| > |tables[0]|
    ensures |tables| > 1 && Concat(tables)[|tables[0]|] == tables[1][0]
  {
    FirstTable(tables);
    NothingInNoTables(tables[1..]);
    FirstTable(tables[1..]);
  }

  lemma FirstIsNotShorter(a: seq<Table>, b: seq<Table>, input: seq<Entry>, cut: Cut)
    requires RightlyCut(a, input, cut) && RightlyCut(b, input, cut) && Concat(a) == Concat(b)
    requires |a| > 0 && |b| > 0
    ensures |a[0]| >= |b[0]|
  {
    hide Group, Concat, FullAtMostAtEnd, InGroup;
    FirstTable(a);
    FirstTable(b);
    assert b[0] in b;
    if |a[0]| < |b[0]| {
      SecondTable(a);
      ShorterIsPrefix(a[0], Concat(a[1..]), b[0], Concat(b[1..]));
      OneGroup(b[0], a[0], a[1][0], input, cut);
    }
  }

  lemma ShorterIsPrefix(x: seq<Entry>, afterX: seq<Entry>, y: seq<Entry>, afterY: seq<Entry>)
    requires x + afterX == y + afterY && |x| < |y|
    ensures y[..|x|] == x && y[|x|] == (x + afterX)[|x|]
  {
    assert x == (x + afterX)[..|x|];
    assert y[|x|] == (y + afterY)[|x|];
  }

  /** A table that goes on after t was not full there, and what follows is of the same group. */
  lemma OneGroup(longer: Table, t: Table, next: Entry, input: seq<Entry>, cut: Cut)
    requires |t| < |longer| && longer[..|t|] == t && longer[|t|] == next
    requires FullAtMostAtEnd(longer, cut) && InGroup(longer, input, cut, Group(input, cut, longer[0]))
    ensures !cut.Full(t) && Group(input, cut, t[0]) == Group(input, cut, next)
  {
    assert longer[..|t|][0] == t[0];
  }

  // ---------------------------------------------------------------- the cuts in bytes

  /** The bytes of those among the first n files that end before b but not before a. */
  ghost function BytesPassed(gs: seq<File>, n: nat, a: Entry, b: Entry): nat
    requires n <= |gs|
  {
    if n == 0 then 0
    else
      var g := gs[n - 1];
      var last := g.data[|g.data| - 1];
      BytesPassed(gs, n - 1, a, b) + if Before(last, b) && !Before(last, a) then g.size else 0
  }

  lemma {:induction false} PassedIsSlice(gs: seq<File>, n: nat, a: Entry, b: Entry, p: nat, q: nat)
    requires n <= |gs| && p <= q <= |gs|
    requires forall i :: 0 <= i < |gs| ==> (i < p <==> Before(gs[i].Largest(), a))
    requires forall i :: 0 <= i < |gs| ==> (i < q <==> Before(gs[i].Largest(), b))
    ensures BytesPassed(gs, n, a, b)
         == if n <= p then 0 else if n <= q then TotalFileSize(gs[p..n]) else TotalFileSize(gs[p..q])
  {
    hide TotalFileSize;
    NoSize();
    if n == 0 {
    } else {
      PassedIsSlice(gs, n - 1, a, b, p, q);
      assert gs[p..p] == [];
      if p < n <= q { OneMorePassed(gs, p, n - 1); }
    }
  }

  lemma {:induction false} EndsAscend(gs: seq<File>, i: nat, j: nat)
    requires Disjoint(gs) && i <= j < |gs|
    ensures i < j ==> Before(gs[i].Largest(), gs[j].Largest())
  {
    if i < j { EntryInRange(gs[j], gs[j].Largest()); }
  }

  lemma PassedExactly(gs: seq<File>, e: Entry)
    requires Disjoint(gs)
    ensures forall i :: 0 <= i < |gs| ==> (i < PassedFrom(gs, 0, e) <==> Before(gs[i].Largest(), e))
  {
    var q := PassedFrom(gs, 0, e);
    forall i | q <= i < |gs| ensures !Before(gs[i].Largest(), e) { EndsAscend(gs, q, i); }
  }

  /** An entry starts a new table exactly when the grandparents that have been passed since the last such entry, or
      since the first of all, are more than a table may overlap. */
  lemma StopsInBytes(input: seq<Entry>, cut: Cut, i: nat) returns (s: nat)
    requires Sorted(input) && i < |input| && Disjoint(cut.grandparents)
    ensures s <= i && (s == 0 || StopsBefore(input, cut, s)) &&
            forall j: nat :: s < j < i ==> !StopsBefore(input, cut, j)
    ensures StopsBefore(input, cut, i) <==>
              BytesPassed(cut.grandparents, |cut.grandparents|, input[s], input[i]) > cut.maxOverlap
  {
    hide TotalFileSize, BytesPassed;
    var gs := cut.grandparents;
    s := LastStop(input, cut, i);
    LastStopIsLast(input, cut, i);
    PassedAscends(gs, input[s], input[i]);
    PassedExactly(gs, input[s]);
    PassedExactly(gs, input[i]);
    PassedIsSlice(gs, |gs|, input[s], input[i], PassedFrom(gs, 0, input[s]), PassedFrom(gs, 0, input[i]));
    NoSize();
    assert gs[|gs|..|gs|] == [];
  }

  lemma {:induction false} LastStopIsLast(input: seq<Entry>, cut: Cut, i: nat)
    requires i <= |input|
    ensures var s := LastStop(input, cut, i);
            (s == 0 || StopsBefore(input, cut, s)) && forall j: nat :: s < j < i ==> !StopsBefore(input, cut, j)
  {
    if i == 0 {
    } else {
      LastStopIsLast(input, cut, i - 1);
    }
  }

  // ---------------------------------------------------------------- cutting step by step

  /** How many of the first n positions are stops. */
  ghost function Stops(input: seq<Entry>, cut: Cut, n: nat): nat
    requires n <= |input|
  {
    if n == 0 then 0 else Stops(input, cut, n - 1) + if StopsBefore(input, cut, n - 1) then 1 else 0
  }

  lemma {:induction false} StopsSeen(input: seq<Entry>, cut: Cut, n: nat, p: nat)
    requires Sorted(input) && n <= |input| && p < |input|
    ensures StopsUpTo(input, cut, n, input[p]) == Stops(input, cut, if n <= p + 1 then n else p + 1)
  {
    hide StopsBefore;
    if n == 0 {
    } else {
      StopsSeen(input, cut, n - 1, p);
      assert p < n - 1 ==> Before(input[p], input[n - 1]);
      assert n - 1 < p ==> Before(input[n - 1], input[p]);
    }
  }

  /** A new group starts at each stop, and nowhere else. */
  lemma GroupsEndAtStops(input: seq<Entry>, cut: Cut, p: nat, r: nat)
    requires Sorted(input) && p < r < |input|
    ensures Group(input, cut, input[p]) == Group(input, cut, input[r]) <==>
              forall i: nat :: p < i <= r ==> !StopsBefore(input, cut, i)
  {
    hide StopsBefore;
    StopsSeen(input, cut, |input|, p);
    StopsSeen(input, cut, |input|, r);
    NoStopBetween(input, cut, p + 1, r + 1);
  }

  lemma {:induction false} NoStopBetween(input: seq<Entry>, cut: Cut, m: nat, n: nat)
    requires m <= n <= |input|
    ensures Stops(input, cut, m) <= Stops(input, cut, n)
    ensures Stops(input, cut, m) == Stops(input, cut, n) <==> forall i: nat :: m <= i < n ==>
              !StopsBefore(input, cut, i)
  {
    hide StopsBefore;
    if m == n {
    } else {
      NoStopBetween(input, cut, m, n - 1);
      var last: nat := n - 1;
      assert !StopsBefore(input, cut, last) <==> Stops(input, cut, n) == Stops(input, cut, last);
    }
  }

  /** No table was full before its last entry, and one that is followed by another was full with it, or a new group
      starts. */
  lemma TablesInBytes(tables: seq<Table>, input: seq<Entry>, cut: Cut)
    requires RightlyCut(tables, input, cut)
    ensures forall t, n :: t in tables && 0 < n < |t| ==> cut.fileSize(t[..n]) < cut.maxOutputFileSize
    ensures forall n :: 0 <= n < |tables| - 1 ==>
      cut.fileSize(tables[n]) >= cut.maxOutputFileSize ||
      Group(input, cut, tables[n][0]) != Group(input, cut, tables[n + 1][0])
  {
    hide Group, InGroup;
  }

  /** Finished tables, the table being built, and how many stops there were before position i. */
  ghost predicate CutSoFar(tables: seq<Table>, builder: seq<Entry>, input: seq<Entry>, cut: Cut, i: nat)
    requires i <= |input|
  {
    RightlyCut(tables, input, cut) && FullAtMostAtEnd(builder, cut) && (|builder| > 0 ==> !cut.Full(builder)) &&
    InGroup(builder, input, cut, Stops(input, cut, i)) && LastIsCut(tables, input, cut, Stops(input, cut, i))
  }

  /** The last finished table cannot go on with an entry of group g. */
  ghost predicate LastIsCut(tables: seq<Table>, input: seq<Entry>, cut: Cut, g: nat) {
    |tables| > 0 ==> var last := tables[|tables| - 1]; cut.Full(last) || Group(input, cut, last[0]) < g
  }

  lemma NothingCut(input: seq<Entry>, cut: Cut)
    ensures CutSoFar([], [], input, cut, 0)
  {
  }

  lemma OneMoreTable(tables: seq<Table>, t: Table, input: seq<Entry>, cut: Cut, g: nat)
    requires RightlyCut(tables, input, cut) && LastIsCut(tables, input, cut, g)
    requires FullAtMostAtEnd(t, cut) && InGroup(t, input, cut, g)
    ensures RightlyCut(tables + [t], input, cut) && Group(input, cut, t[0]) == g
  {
    hide FullAtMostAtEnd, Group;
    var more := tables + [t];
    forall u | u in more ensures FullAtMostAtEnd(u, cut) && InGroup(u, input, cut, Group(input, cut, u[0])) {
      assert u in tables || u == t;
    }
    forall n | 0 <= n < |more| - 1
      ensures cut.Full(more[n]) || Group(input, cut, more[n][0]) != Group(input, cut, more[n + 1][0])
    {
      assert more[n] == tables[n];
      assert n + 1 < |tables| ==> more[n + 1] == tables[n + 1];
    }
  }

  lemma StopStep(tables: seq<Table>, builder: Table, input: seq<Entry>, cut: Cut, i: nat)
    requires i < |input| && CutSoFar(tables, builder, input, cut, i) && StopsBefore(input, cut, i)
    ensures CutSoFar(tables + [builder], [], input, cut, i + 1)
  {
    hide FullAtMostAtEnd, Group, RightlyCut, InGroup, StopsBefore;
    OneMoreTable(tables, builder, input, cut, Stops(input, cut, i));
    NothingInGroup(input, cut, Stops(input, cut, i + 1));
  }

  lemma NothingInGroup(input: seq<Entry>, cut: Cut, g: nat)
    ensures InGroup([], input, cut, g) && FullAtMostAtEnd([], cut)
  {
  }

  /** Where nothing is being built, a stop changes nothing; nor does a position that is no stop. */
  lemma NoStopStep(tables: seq<Table>, builder: seq<Entry>, input: seq<Entry>, cut: Cut, i: nat)
    requires i < |input| && CutSoFar(tables, builder, input, cut, i)
    requires StopsBefore(input, cut, i) ==> builder == []
    ensures CutSoFar(tables, builder, input, cut, i + 1)
  {
    hide FullAtMostAtEnd, Group, RightlyCut, StopsBefore;
  }

  lemma AddStep(tables: seq<Table>, builder: seq<Entry>, input: seq<Entry>, cut: Cut, i: nat)
    requires Sorted(input) && i < |input| && CutSoFar(tables, builder, input, cut, i + 1)
    ensures RightlyCut(tables, input, cut) && LastIsCut(tables, input, cut, Stops(input, cut, i + 1))
    ensures var more := builder + [input[i]];
            FullAtMostAtEnd(more, cut) && InGroup(more, input, cut, Stops(input, cut, i + 1)) &&
            (!cut.Full(more) ==> CutSoFar(tables, more, input, cut, i + 1))
  {
    hide RightlyCut, Stops, StopsUpTo, LastIsCut;
    var more := builder + [input[i]];
    StopsSeen(input, cut, |input|, i);
    forall k | 0 < k < |more| ensures !cut.Full(more[..k]) {
      assert more[..k] == if k == |builder| then builder else builder[..k];
    }
  }

  lemma FullStep(tables: seq<Table>, builder: Table, input: seq<Entry>, cut: Cut, i: nat)
    requires i <= |input| && RightlyCut(tables, input, cut) && LastIsCut(tables, input, cut, Stops(input, cut, i))
    requires FullAtMostAtEnd(builder, cut) && InGroup(builder, input, cut, Stops(input, cut, i)) && cut.Full(builder)
    ensures CutSoFar(tables + [builder], [], input, cut, i)
  {
    hide FullAtMostAtEnd, Group, RightlyCut, InGroup, Stops;
    OneMoreTable(tables, builder, input, cut, Stops(input, cut, i));
    NothingInGroup(input, cut, Stops(input, cut, i));
  }

  lemma AllCut(tables: seq<Table>, builder: seq<Entry>, input: seq<Entry>, cut: Cut, i: nat)
    requires i <= |input| && CutSoFar(tables, builder, input, cut, i)
    ensures RightlyCut(tables, input, cut) && LastIsCut(tables, input, cut, Stops(input, cut, i))
    ensures FullAtMostAtEnd(builder, cut) && InGroup(builder, input, cut, Stops(input, cut, i))
  {
  }
}
