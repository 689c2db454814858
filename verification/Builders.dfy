/** Applying many edits to one version (VersionSet::Builder in db/version_set.cc): the edits are collected, and the new
    version is saved once at the end. */
module Builders {
  import opened InternalKeys
  import opened VersionSet

  const LEVELS: nat := 7

  /** What a record of the manifest says about numbers and files. */
  datatype Edit = Edit(logNumber: Option<nat>, nextFile: Option<nat>, lastSeq: Option<nat>, deleted: seq<(nat, nat)>,
                       added: seq<(nat, File)>)

  predicate LevelsExist(e: Edit) {
    (forall i :: 0 <= i < |e.deleted| ==> e.deleted[i].0 < LEVELS) &&
    forall i :: 0 <= i < |e.added| ==> e.added[i].0 < LEVELS
  }

  // ---------------------------------------------------------------- one version at a time

  function DeletedAt(deleted: seq<(nat, nat)>, l: nat): set<nat> { set p | p in deleted && p.0 == l :: p.1 }

  function AddedAt(added: seq<(nat, File)>, l: nat): set<File> { set p | p in added && p.0 == l :: p.1 }

  function NumbersOf(fs: set<File>): set<nat> { set f | f in fs :: f.number }

  function Members(fs: seq<File>): set<File> { set f | f in fs }

  /** One edit: what it deletes and does not add goes, what it adds comes. */
  function Next(fs: set<File>, e: Edit, l: nat): set<File> {
    set f | f in fs + AddedAt(e.added, l) && f.number !in DeletedAt(e.deleted, l) - NumbersOf(AddedAt(e.added, l))
  }

  function OneByOne(fs: set<File>, edits: seq<Edit>, l: nat): set<File> {
    if |edits| == 0 then fs else Next(OneByOne(fs, edits[..|edits| - 1], l), edits[|edits| - 1], l)
  }

  function EverAdded(edits: seq<Edit>, l: nat): set<File> {
    if |edits| == 0 then {} else EverAdded(edits[..|edits| - 1], l) + AddedAt(edits[|edits| - 1].added, l)
  }

  ghost predicate NumbersDiffer(fs: set<File>) { forall f, g :: f in fs && g in fs && f.number == g.number ==> f == g }

  /** The numbers that e adds to a level are given to one file each, and have not been on that level before. */
  ghost predicate AddsNew(fs: set<File>, edits: seq<Edit>, e: Edit, l: nat) {
    (forall f, g :: f in AddedAt(e.added, l) && g in fs + EverAdded(edits, l) ==> f.number != g.number) &&
    NumbersDiffer(AddedAt(e.added, l))
  }

  lemma OneMoreEdit(fs: set<File>, edits: seq<Edit>, e: Edit, l: nat)
    ensures OneByOne(fs, edits + [e], l) == Next(OneByOne(fs, edits, l), e, l)
    ensures EverAdded(edits + [e], l) == EverAdded(edits, l) + AddedAt(e.added, l)
  {
    assert (edits + [e])[..|edits|] == edits;
  }

  lemma {:induction false} OneByOneIsKnown(fs: set<File>, edits: seq<Edit>, l: nat)
    ensures OneByOne(fs, edits, l) <= fs + EverAdded(edits, l)
  {
    if |edits| == 0 {
    } else {
      OneByOneIsKnown(fs, edits[..|edits| - 1], l);
    }
  }

  // ---------------------------------------------------------------- one level of a builder

  /** The order of the set of added files: by smallest key, then by number. */
  predicate Earlier(f: File, g: File) {
    Before(f.Smallest(), g.Smallest()) || (!Before(g.Smallest(), f.Smallest()) && f.number < g.number)
  }

  ghost predicate InOrder(fs: seq<File>) { forall i, j :: 0 <= i < j < |fs| ==> Earlier(fs[i], fs[j]) }

  function InsertFile(fs: seq<File>, f: File): seq<File> {
    if |fs| == 0 || Earlier(f, fs[0]) then [f] + fs
    else if Earlier(fs[0], f) then [fs[0]] + InsertFile(fs[1..], f)
    else fs
  }

  lemma MembersOf(fs: seq<File>)
    ensures forall f :: f in Members(fs) <==> f in fs
  {
  }

  lemma EarlierIsTransitive(f: File, g: File, h: File)
    requires Earlier(f, g) && Earlier(g, h)
    ensures Earlier(f, h)
  {
  }

  lemma InFront(f: File, fs: seq<File>)
    requires InOrder(fs) && (|fs| > 0 ==> Earlier(f, fs[0]))
    ensures InOrder([f] + fs) && Members([f] + fs) == Members(fs) + {f}
  {
    hide Earlier;
    var r := [f] + fs;
    forall i, j | 0 <= i < j < |r| ensures Earlier(r[i], r[j]) {
      if i == 0 {
        if j > 1 { EarlierIsTransitive(f, fs[0], fs[j - 1]); }
      } else {
        assert Earlier(fs[i - 1], fs[j - 1]);
      }
    }
  }

  lemma TailInOrder(fs: seq<File>)
    requires InOrder(fs) && |fs| > 0
    ensures InOrder(fs[1..]) && Members(fs) == {fs[0]} + Members(fs[1..])
    ensures forall f :: f in Members(fs[1..]) ==> Earlier(fs[0], f)
  {
    hide Earlier;
    var rest := fs[1..];
    assert fs == [fs[0]] + rest;
    forall i, j | 0 <= i < j < |rest| ensures Earlier(rest[i], rest[j]) { assert Earlier(fs[i + 1], fs[j + 1]); }
    forall f | f in Members(rest) ensures Earlier(fs[0], f) {
      var k :| 0 <= k < |rest| && rest[k] == f;
      assert Earlier(fs[0], fs[k + 1]);
    }
  }

  lemma {:induction false} InsertFileIn(fs: seq<File>, f: File)
    requires InOrder(fs)
    ensures InOrder(InsertFile(fs, f)) && Members(InsertFile(fs, f)) <= Members(fs) + {f}
    ensures NumbersDiffer(Members(fs) + {f}) ==> Members(InsertFile(fs, f)) == Members(fs) + {f}
  {
    hide InOrder, Members, Earlier;
    MembersOf(fs);
    if |fs| == 0 || Earlier(f, fs[0]) {
      InFront(f, fs);
    } else if Earlier(fs[0], f) {
      TailInOrder(fs);
      InsertFileIn(fs[1..], f);
      var r := InsertFile(fs[1..], f);
      MembersOf(r);
      if |r| > 0 { assert r[0] in Members(r); }
      InFront(fs[0], r);
    } else {
      SameRank(fs[0], f);
    }
  }

  lemma SameRank(f: File, g: File)
    requires !Earlier(f, g) && !Earlier(g, f)
    ensures f.number == g.number
  {
  }

  /** The first n of the added files that belong to level l, put into fs. */
  function InsertFiles(fs: seq<File>, news: seq<(nat, File)>, l: nat, n: nat): seq<File>
    requires n <= |news|
  {
    if n == 0 then fs
    else
      var rest := InsertFiles(fs, news, l, n - 1);
      if news[n - 1].0 == l then InsertFile(rest, news[n - 1].1) else rest
  }

  /** What a builder has collected for a level after some edits. */
  function AddedAfter(edits: seq<Edit>, l: nat): seq<File> {
    if |edits| == 0 then []
    else
      var e := edits[|edits| - 1];
      InsertFiles(AddedAfter(edits[..|edits| - 1], l), e.added, l, |e.added|)
  }

  function DeletedAfter(edits: seq<Edit>, l: nat): set<nat> {
    if |edits| == 0 then {}
    else
      var e := edits[|edits| - 1];
      DeletedAfter(edits[..|edits| - 1], l) + DeletedAt(e.deleted, l) - NumbersOf(AddedAt(e.added, l))
  }

  lemma OneMoreCollected(edits: seq<Edit>, e: Edit, l: nat)
    ensures AddedAfter(edits + [e], l) == InsertFiles(AddedAfter(edits, l), e.added, l, |e.added|)
    ensures DeletedAfter(edits + [e], l)
         == DeletedAfter(edits, l) + DeletedAt(e.deleted, l) - NumbersOf(AddedAt(e.added, l))
  {
    assert (edits + [e])[..|edits|] == edits;
  }

  lemma {:induction false} InsertFilesIn(fs: seq<File>, news: seq<(nat, File)>, l: nat, n: nat)
    requires n <= |news| && InOrder(fs)
    ensures InOrder(InsertFiles(fs, news, l, n))
    ensures NumbersDiffer(Members(fs) + AddedAt(news, l)) ==>
              Members(InsertFiles(fs, news, l, n)) == Members(fs) + AddedAt(news[..n], l)
  {
    hide InOrder, AddedAt, Members;
    if n == 0 {
      NoneAdded(news, l);
    } else {
      InsertFilesIn(fs, news, l, n - 1);
      AddedGrows(news, n - 1, l);
      AddedPart(news, n, l);
      var (level, f) := news[n - 1];
      var rest := InsertFiles(fs, news, l, n - 1);
      if l == level {
        InsertFileIn(rest, f);
        if NumbersDiffer(Members(fs) + AddedAt(news, l)) { assert NumbersDiffer(Members(rest) + {f}); }
      }
    }
  }

  lemma NoneAdded(news: seq<(nat, File)>, l: nat)
    ensures AddedAt(news[..0], l) == {}
  {
  }

  /** Every edit gives new numbers to the files it adds to the level. */
  ghost predicate AllNew(fs: set<File>, edits: seq<Edit>, l: nat) {
    forall i :: 0 <= i < |edits| ==> AddsNew(fs, edits[..i], edits[i], l)
  }

  /** What has been collected says what going from version to version would say, if numbers are never given again. */
  lemma {:induction false} CollectedWhenNew(base: seq<File>, edits: seq<Edit>, l: nat)
    requires AllNew(Members(base), edits, l)
    ensures Collected(base, DeletedAfter(edits, l), AddedAfter(edits, l), edits, l)
  {
    hide AddsNew;
    if |edits| == 0 {
    } else {
      var n := |edits| - 1;
      var before, e := edits[..n], edits[n];
      forall i | 0 <= i < n ensures AddsNew(Members(base), before[..i], before[i], l) {
        assert before[..i] == edits[..i];
      }
      CollectedWhenNew(base, before, l);
      assert edits == before + [e];
      OneMoreCollected(before, e, l);
      CollectEdit(base, before, e, l);
    }
  }

  lemma CollectEdit(base: seq<File>, edits: seq<Edit>, e: Edit, l: nat)
    requires Collected(base, DeletedAfter(edits, l), AddedAfter(edits, l), edits, l)
    requires AddsNew(Members(base), edits, e, l)
    ensures Collected(base, DeletedAfter(edits + [e], l), AddedAfter(edits + [e], l), edits + [e], l)
  {
    hide OneByOne, EverAdded, DeletedAt, Next, DeletedAfter, AddedAfter;
    var added := AddedAfter(edits, l);
    OneMoreCollected(edits, e, l);
    assert NumbersDiffer(Members(added) + AddedAt(e.added, l));
    InsertFilesIn(added, e.added, l, |e.added|);
    assert e.added[..|e.added|] == e.added;
    CollectMore(base, DeletedAfter(edits, l), added, edits, l, e, DeletedAfter(edits + [e], l),
                AddedAfter(edits + [e], l));
  }

  ghost predicate StaysListed(base: seq<File>, deleted: set<nat>, added: seq<File>, f: File) {
    (f in base || f in added) && f.number !in deleted
  }

  /** Deletions and additions together say what going from version to version would say. */
  ghost predicate Collected(base: seq<File>, deleted: set<nat>, added: seq<File>, edits: seq<Edit>, l: nat) {
    InOrder(added) && Members(added) == EverAdded(edits, l) && NumbersDiffer(Members(added)) &&
    (forall f, g :: f in base && g in added ==> f.number != g.number) &&
    forall f :: f in OneByOne(Members(base), edits, l) <==> StaysListed(base, deleted, added, f)
  }

  lemma CollectMore(base: seq<File>, deleted: set<nat>, added: seq<File>, edits: seq<Edit>, l: nat, e: Edit,
                    deleted': set<nat>, added': seq<File>)
    requires Collected(base, deleted, added, edits, l) && AddsNew(Members(base), edits, e, l)
    requires InOrder(added') && Members(added') == Members(added) + AddedAt(e.added, l)
    requires deleted' == deleted + DeletedAt(e.deleted, l) - NumbersOf(AddedAt(e.added, l))
    ensures Collected(base, deleted', added', edits + [e], l)
  {
    OneMoreEdit(Members(base), edits, e, l);
    OneByOneIsKnown(Members(base), edits, l);
    var before, news := OneByOne(Members(base), edits, l), AddedAt(e.added, l);
    forall f ensures f in Next(before, e, l) <==> StaysListed(base, deleted', added', f) {
      assert f in added' <==> f in added || f in news by {
        assert f in Members(added') <==> f in added';
        assert f in Members(added) <==> f in added;
      }
      if f in news {
        assert f.number in NumbersOf(news);
      } else if f in base || f in added {
        assert f in Members(base) + EverAdded(edits, l) by { assert f in added ==> f in Members(added); }
        assert f.number !in NumbersOf(news);
      }
    }
  }

  lemma DeletedGrows(deleted: seq<(nat, nat)>, i: nat, l: nat)
    requires i < |deleted|
    ensures DeletedAt(deleted[..i + 1], l) ==
            DeletedAt(deleted[..i], l) + if deleted[i].0 == l then {deleted[i].1} else {}
  {
    assert deleted[..i + 1] == deleted[..i] + [deleted[i]];
    forall n ensures n in DeletedAt(deleted[..i + 1], l) <==>
                     n in DeletedAt(deleted[..i], l) || (deleted[i].0 == l && n == deleted[i].1)
    {
      if n in DeletedAt(deleted[..i + 1], l) { assert (l, n) in deleted[..i + 1]; }
      if n in DeletedAt(deleted[..i], l) { assert (l, n) in deleted[..i]; }
      if deleted[i].0 == l && n == deleted[i].1 { assert (l, n) in deleted[..i + 1]; }
    }
  }

  lemma AddedGrows(added: seq<(nat, File)>, i: nat, l: nat)
    requires i < |added|
    ensures AddedAt(added[..i + 1], l) == AddedAt(added[..i], l) + if added[i].0 == l then {added[i].1} else {}
  {
    assert added[..i + 1] == added[..i] + [added[i]];
    forall f ensures f in AddedAt(added[..i + 1], l) <==>
                     f in AddedAt(added[..i], l) || (added[i].0 == l && f == added[i].1)
    {
      if f in AddedAt(added[..i + 1], l) { assert (l, f) in added[..i + 1]; }
      if f in AddedAt(added[..i], l) { assert (l, f) in added[..i]; }
      if added[i].0 == l && f == added[i].1 { assert (l, f) in added[..i + 1]; }
    }
  }

  lemma AddedPart(added: seq<(nat, File)>, i: nat, l: nat)
    requires i <= |added|
    ensures AddedAt(added[..i], l) <= AddedAt(added, l)
  {
    forall f | f in AddedAt(added[..i], l) ensures f in AddedAt(added, l) {
      assert (l, f) in added[..i];
      assert (l, f) in added;
    }
  }

  // ---------------------------------------------------------------- the builder

  class Builder {
    const base: seq<seq<File>>
    var deleted: seq<set<nat>>
    var added: seq<seq<File>>
    ghost var edits: seq<Edit>

    ghost predicate Valid()
      reads this
    {
      |base| == |deleted| == |added| == LEVELS &&
      forall l: nat :: l < LEVELS ==> deleted[l] == DeletedAfter(edits, l) && added[l] == AddedAfter(edits, l)
    }

    constructor (base: seq<seq<File>>)
      requires |base| == LEVELS
      ensures Valid() && this.base == base && edits == []
    {
      this.base, deleted, added, edits := base, seq(LEVELS, _ => {}), seq(LEVELS, _ => []), [];
    }

    method Apply(e: Edit)
      requires Valid() && LevelsExist(e)
      modifies this
      ensures Valid() && edits == old(edits) + [e]
    {
      hide DeletedAfter, AddedAfter, InsertFiles, DeletedAt, AddedAt, NumbersOf;
      Delete(e);
      Add(e);
      forall l: nat | l < LEVELS
        ensures deleted[l] == DeletedAfter(edits + [e], l) && added[l] == AddedAfter(edits + [e], l)
      {
        OneMoreCollected(edits, e, l);
      }
      edits := edits + [e];
    }

    method Delete(e: Edit)
      requires |deleted| == LEVELS && LevelsExist(e)
      modifies this`deleted
      ensures |deleted| == LEVELS &&
              forall l: nat :: l < LEVELS ==> deleted[l] == old(deleted)[l] + DeletedAt(e.deleted, l)
    {
      var i := 0;
      while i < |e.deleted|
        invariant i <= |e.deleted| && |deleted| == LEVELS
        invariant forall l: nat :: l < LEVELS ==> deleted[l] == old(deleted)[l] + DeletedAt(e.deleted[..i], l)
      {
        var (level, number) := e.deleted[i];
        forall l: nat | l < LEVELS
          ensures DeletedAt(e.deleted[..i + 1], l) == DeletedAt(e.deleted[..i], l) + if level == l then {number} else {}
        {
          DeletedGrows(e.deleted, i, l);
        }
        deleted := deleted[level := deleted[level] + {number}];
        i := i + 1;
      }
      assert e.deleted[..i] == e.deleted;
    }

    method Add(e: Edit)
      requires |deleted| == |added| == LEVELS && LevelsExist(e)
      modifies this`deleted, this`added
      ensures |deleted| == |added| == LEVELS
      ensures forall l: nat :: l < LEVELS ==>
                added[l] == InsertFiles(old(added)[l], e.added, l, |e.added|) &&
                deleted[l] == old(deleted)[l] - NumbersOf(AddedAt(e.added, l))
    {
      hide AddedAt, NumbersOf, InsertFile;
      var i := 0;
      forall l: nat | l < LEVELS ensures NumbersOf(AddedAt(e.added[..0], l)) == {} { NoNumbers(e.added, l); }
      while i < |e.added|
        invariant i <= |e.added| && |deleted| == |added| == LEVELS
        invariant forall l: nat :: l < LEVELS ==>
          added[l] == InsertFiles(old(added)[l], e.added, l, i) &&
          deleted[l] == old(deleted)[l] - NumbersOf(AddedAt(e.added[..i], l))
      {
        var (level, f) := e.added[i];
        forall l: nat | l < LEVELS
          ensures NumbersOf(AddedAt(e.added[..i + 1], l))
               == NumbersOf(AddedAt(e.added[..i], l)) + if l == level then {f.number} else {}
        {
          NumbersGrow(e.added, i, l);
        }
        deleted := deleted[level := deleted[level] - {f.number}];
        added := added[level := InsertFile(added[level], f)];
        i := i + 1;
      }
      assert e.added[..i] == e.added;
    }

    /** A level keeps its own and the added files but for the deleted numbers.  If no number was added twice, these are
        the files that applying the edits to one version after the other would leave; and if they do not overlap, the
        level comes out sorted. */
    method SaveTo() returns (v: seq<seq<File>>)
      requires Valid()
      ensures |v| == LEVELS
      ensures forall l: nat :: l < LEVELS ==> Saved(base[l], DeletedAfter(edits, l), AddedAfter(edits, l), v[l])
      ensures forall l: nat :: l < LEVELS && AllNew(Members(base[l]), edits, l) ==>
                Members(v[l]) == OneByOne(Members(base[l]), edits, l) &&
                (Disjoint(base[l]) && AllApart(OneByOne(Members(base[l]), edits, l)) ==> Disjoint(v[l]))
    {
      hide AllNew, OneByOne, Members, Disjoint, AllApart, Saved, DeletedAfter, AddedAfter;
      v := [];
      while |v| < LEVELS
        invariant |v| <= LEVELS
        invariant forall l: nat :: l < |v| ==> Saved(base[l], DeletedAfter(edits, l), AddedAfter(edits, l), v[l])
        invariant forall l: nat :: l < |v| && AllNew(Members(base[l]), edits, l) ==>
                    Members(v[l]) == OneByOne(Members(base[l]), edits, l) &&
                    (Disjoint(base[l]) && AllApart(OneByOne(Members(base[l]), edits, l)) ==> Disjoint(v[l]))
      {
        var l: nat := |v|;
        var out := SaveLevel(base[l], deleted[l], added[l]);
        if AllNew(Members(base[l]), edits, l) {
          CollectedWhenNew(base[l], edits, l);
          SavedIsOneByOne(base[l], deleted[l], added[l], edits, l, out);
        }
        v := v + [out];
      }
    }
  }

  ghost predicate AllApart(fs: set<File>) { forall f, g :: f in fs && g in fs && f != g ==> Apart(f, g) }

  lemma NoNumbers(news: seq<(nat, File)>, l: nat)
    ensures NumbersOf(AddedAt(news[..0], l)) == {}
  {
    NoneAdded(news, l);
  }

  lemma NumbersGrow(news: seq<(nat, File)>, i: nat, l: nat)
    requires i < |news|
    ensures NumbersOf(AddedAt(news[..i + 1], l))
         == NumbersOf(AddedAt(news[..i], l)) + if news[i].0 == l then {news[i].1.number} else {}
  {
    hide AddedAt;
    AddedGrows(news, i, l);
  }

  /** Where a number is given again after its file has been deleted, the builder brings the old file back: the added
      number is taken out of the deleted ones, which the old file also goes by. */
  lemma OldFileComesBack(f: File, g: File, l: nat)
    requires f.number == g.number && f != g
    ensures var edits := [Edit(None, None, None, [(l, f.number)], []), Edit(None, None, None, [], [(l, g)])];
            OneByOne({f}, edits, l) == {g} && DeletedAfter(edits, l) == {} && AddedAfter(edits, l) == [g] &&
            StaysListed([f], DeletedAfter(edits, l), AddedAfter(edits, l), f)
  {
    var d, a := Edit(None, None, None, [(l, f.number)], []), Edit(None, None, None, [], [(l, g)]);
    assert [] + [d] == [d] && [d] + [a] == [d, a];
    assert DeletedAt([(l, f.number)], l) == {f.number} by { assert (l, f.number) in [(l, f.number)]; }
    assert AddedAt([(l, g)], l) == {g} by { assert (l, g) in [(l, g)]; }
    OneMoreEdit({f}, [], d, l);
    OneMoreEdit({f}, [d], a, l);
    OneMoreCollected([], d, l);
    OneMoreCollected([d], a, l);
    assert Next({f}, d, l) == {} && Next({}, a, l) == {g};
    assert InsertFiles([], [(l, g)], l, 1) == [g];
  }

  lemma SavedIsOneByOne(base: seq<File>, deleted: set<nat>, added: seq<File>, edits: seq<Edit>, l: nat, out: seq<File>)
    requires Collected(base, deleted, added, edits, l) && Saved(base, deleted, added, out)
    requires SurvivorsFit(base, deleted, added) ==> Disjoint(out)
    ensures Members(out) == OneByOne(Members(base), edits, l)
    ensures Disjoint(base) && AllApart(OneByOne(Members(base), edits, l)) ==> Disjoint(out)
  {
    MembersOf(out);
    assert forall f :: f in Members(out) <==> f in OneByOne(Members(base), edits, l);
    if Disjoint(base) && AllApart(OneByOne(Members(base), edits, l)) {
      ApartSurvivorsFit(base, deleted, added);
    }
  }

  lemma ApartSurvivorsFit(base: seq<File>, deleted: set<nat>, added: seq<File>)
    requires Disjoint(base) && InOrder(added) && (forall f, g :: f in base && g in added ==> f.number != g.number)
    requires forall f, g :: StaysListed(base, deleted, added, f) && StaysListed(base, deleted, added, g) && f != g ==>
               Apart(f, g)
    ensures SurvivorsFit(base, deleted, added)
  {
    DisjointIsBySmallest(base);
    forall i, j | 0 <= i < j < |added|
      ensures !Before(added[j].Smallest(), added[i].Smallest())
      ensures added[i].number !in deleted && added[j].number !in deleted ==>
                Before(added[i].Largest(), added[j].Smallest())
    {
      assert Earlier(added[i], added[j]);
      if added[i].number !in deleted && added[j].number !in deleted {
        assert StaysListed(base, deleted, added, added[i]) && StaysListed(base, deleted, added, added[j]);
        EntryInRange(added[j], added[j].Largest());
      }
    }
  }
}
