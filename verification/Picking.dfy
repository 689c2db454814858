/** Which level is compacted next, and from which of its files on (db/version_set.cc Finalize, PickCompaction). */
module Picking {
  import opened InternalKeys
  import opened VersionSet

  const L0_COMPACTION_TRIGGER: nat := 4

  /** Ten megabytes on level 1, and ten times as much on each level below. */
  function MaxBytes(level: nat): (r: real)
    ensures r > 0.0
  {
    if level <= 1 then 10.0 * 1048576.0 else MaxBytes(level - 1) * 10.0
  }

  method MaxBytesForLevel(level: nat) returns (result: real)
    ensures result == MaxBytes(level)
  {
    result := 10.0 * 1048576.0;
    var l := level;
    ghost var m: nat := 1;
    while l > 1
      invariant if level <= 1 then l == level && m == 1 else l >= 1 && m == level - l + 1
      invariant result == MaxBytes(m)
    {
      result := result * 10.0;
      l := l - 1;
      m := m + 1;
    }
  }

  /** How urgently a level should be compacted: by the number of its files on level 0, by its size below. */
  function Score(levels: seq<seq<File>>, l: nat): real
    requires l < |levels|
  {
    if l == 0 then |levels[0]| as real / L0_COMPACTION_TRIGGER as real
    else TotalFileSize(levels[l]) as real / MaxBytes(l)
  }

  /** The first of the levels with the highest score; the last level is never compacted. */
  ghost predicate IsMostUrgent(levels: seq<seq<File>>, level: nat)
    requires |levels| == 7
  {
    level < 6 && (forall l: nat :: l < 6 ==> Score(levels, l) <= Score(levels, level)) &&
    forall l: nat :: l < level ==> Score(levels, l) < Score(levels, level)
  }

  method Finalize(levels: seq<seq<File>>) returns (level: nat, score: real)
    requires |levels| == 7
    ensures IsMostUrgent(levels, level) && score == Score(levels, level)
  {
    level, score := 0, -1.0;
    var l := 0;
    while l < 6
      invariant l <= 6 && level <= l && (l == 0 ==> score == -1.0)
      invariant l > 0 ==> level < l && score == Score(levels, level)
      invariant forall k: nat :: k < l ==> Score(levels, k) <= score
      invariant forall k: nat :: k < l && k < level ==> Score(levels, k) < score
    {
      var s: real;
      if l == 0 {
        s := |levels[0]| as real / L0_COMPACTION_TRIGGER as real;
      } else {
        var most := MaxBytesForLevel(l);
        NoNegativeRatio(TotalFileSize(levels[l]), most);
        s := TotalFileSize(levels[l]) as real / most;
      }
      if s > score { level, score := l, s; }
      l := l + 1;
    }
  }

  lemma NoNegativeRatio(n: nat, d: real)
    requires d > 0.0
    ensures n as real / d >= 0.0 && (n == 0 ==> n as real / d == 0.0)
  {
  }

  /** A level that has to be compacted is not empty. */
  lemma UrgentIsNotEmpty(levels: seq<seq<File>>, level: nat)
    requires level < |levels| && Score(levels, level) >= 1.0
    ensures |levels[level]| > 0
  {
    if |levels[level]| == 0 { NoNegativeRatio(0, MaxBytes(level)); }
  }

  lemma LimitsInBytes()
    ensures MaxBytes(1) == 10_485_760.0 && MaxBytes(2) == 104_857_600.0 && MaxBytes(3) == 1_048_576_000.0
    ensures MaxBytes(4) == 10_485_760_000.0 && MaxBytes(5) == 104_857_600_000.0
  {
    assert MaxBytes(2) == MaxBytes(1) * 10.0;
    assert MaxBytes(3) == MaxBytes(2) * 10.0;
    assert MaxBytes(4) == MaxBytes(3) * 10.0;
  }

  lemma AtLeastOne(n: nat, d: nat)
    requires d > 0
    ensures n as real / d as real >= 1.0 <==> n >= d
  {
  }

  /** Four files on level 0, or ten megabytes on level 1, a hundred on level 2 and so on, call for a compaction. */
  lemma FullExactlyWhen(levels: seq<seq<File>>)
    requires |levels| == 7
    ensures SomeLevelIsFull(levels) <==>
              |levels[0]| >= 4 || TotalFileSize(levels[1]) >= 10_485_760 || TotalFileSize(levels[2]) >= 104_857_600 ||
              TotalFileSize(levels[3]) >= 1_048_576_000 || TotalFileSize(levels[4]) >= 10_485_760_000 ||
              TotalFileSize(levels[5]) >= 104_857_600_000
  {
    hide MaxBytes, TotalFileSize;
    LimitsInBytes();
    AtLeastOne(|levels[0]|, 4);
    AtLeastOne(TotalFileSize(levels[1]), 10_485_760);
    AtLeastOne(TotalFileSize(levels[2]), 104_857_600);
    AtLeastOne(TotalFileSize(levels[3]), 1_048_576_000);
    AtLeastOne(TotalFileSize(levels[4]), 10_485_760_000);
    AtLeastOne(TotalFileSize(levels[5]), 104_857_600_000);
    EachScore(levels);
  }

  lemma EachScore(levels: seq<seq<File>>)
    requires |levels| == 7
    ensures SomeLevelIsFull(levels) <==>
              Score(levels, 0) >= 1.0 || Score(levels, 1) >= 1.0 || Score(levels, 2) >= 1.0 ||
              Score(levels, 3) >= 1.0 || Score(levels, 4) >= 1.0 || Score(levels, 5) >= 1.0
  {
    hide Score;
  }

  predicate After(f: File, pointer: Option<Entry>) { pointer.None? || Before(pointer.value, f.Largest()) }

  /** seed is the first file that ends after the pointer, and the first of all if none does. */
  ghost predicate IsNextAfter(fs: seq<File>, pointer: Option<Entry>, seed: File) {
    exists i :: 0 <= i < |fs| && fs[i] == seed && (forall k :: 0 <= k < i ==> !After(fs[k], pointer)) &&
      (After(fs[i], pointer) || (i == 0 && forall k :: 0 <= k < |fs| ==> !After(fs[k], pointer)))
  }

  method PickSeed(fs: seq<File>, pointer: Option<Entry>) returns (seed: File)
    requires |fs| > 0
    ensures IsNextAfter(fs, pointer, seed)
  {
    var i := 0;
    while i < |fs|
      invariant i <= |fs| && forall k :: 0 <= k < i ==> !After(fs[k], pointer)
    {
      if After(fs[i], pointer) { return fs[i]; }
      i := i + 1;
    }
    seed := fs[0];
  }

  /** Where the next compaction starts: on the most urgent level after its pointer, or at the file that has
      cost too many
      seeks. */
  ghost predicate IsSeed(levels: seq<seq<File>>, pointers: map<nat, Entry>, seek: Option<(nat, File)>, level: nat,
                         seed: File)
    requires |levels| == 7
  {
    level < 6 && seed in levels[level] &&
    if SomeLevelIsFull(levels) then
      IsMostUrgent(levels, level) && IsNextAfter(levels[level], Pointer(pointers, level), seed)
    else seek == Some((level, seed))
  }

  ghost predicate SomeLevelIsFull(levels: seq<seq<File>>)
    requires |levels| == 7
  {
    exists l: nat :: l < 6 && Score(levels, l) >= 1.0
  }

  function Pointer(pointers: map<nat, Entry>, level: nat): Option<Entry> {
    if level in pointers then Some(pointers[level]) else None
  }

  method ChooseSeed(levels: seq<seq<File>>, pointers: map<nat, Entry>, seek: Option<(nat, File)>)
    returns (choice: Option<(nat, File)>)
    requires |levels| == 7 && (seek.Some? ==> seek.value.0 < 6 && seek.value.1 in levels[seek.value.0])
    ensures choice.Some? ==> IsSeed(levels, pointers, seek, choice.value.0, choice.value.1)
    ensures choice.None? <==> !SomeLevelIsFull(levels) && seek.None?
  {
    var level, score := Finalize(levels);
    if score >= 1.0 {
      UrgentIsNotEmpty(levels, level);
      var seed := PickSeed(levels[level], Pointer(pointers, level));
      choice := Some((level, seed));
    } else {
      choice := seek;
    }
  }

  // ---------------------------------------------------------------- from one pick to the next

  /** The pointer of the level stands at the largest entry of these inputs, and the others stay where they were. */
  ghost predicate PointsAtEnd(pointers: map<nat, Entry>, pointers': map<nat, Entry>, level: nat, in0: seq<File>) {
    level in pointers' && IsLargest(in0, pointers'[level]) &&
    forall l :: l != level ==> (l in pointers <==> l in pointers') && (l in pointers ==> pointers'[l] == pointers[l])
  }

  /** f ends behind all of these files. */
  ghost predicate EndsBehind(f: File, fs: seq<File>) {
    forall g: File :: g in fs ==> Before(g.data[|g.data| - 1], f.data[|f.data| - 1])
  }

  /** The next time a level is compacted because it is full, the compaction starts from the first of its files that ends
      behind the upper inputs of the time before, and from its first file if there is none; however its files have
      changed meanwhile. */
  lemma NextPickGoesOn(pointers: map<nat, Entry>, pointers': map<nat, Entry>, level: nat, in0: seq<File>,
                       levels: seq<seq<File>>, seek: Option<(nat, File)>, seed: File)
    requires PointsAtEnd(pointers, pointers', level, in0)
    requires |levels| == 7 && SomeLevelIsFull(levels) && IsSeed(levels, pointers', seek, level, seed)
    ensures exists i :: 0 <= i < |levels[level]| && levels[level][i] == seed &&
              (forall k :: 0 <= k < i ==> !EndsBehind(levels[level][k], in0)) &&
              (EndsBehind(seed, in0) || (i == 0 && forall f :: f in levels[level] ==> !EndsBehind(f, in0)))
  {
    var fs, last := levels[level], pointers'[level];
    forall f ensures EndsBehind(f, in0) <==> After(f, Some(last)) { BehindTheLast(f, in0, last); }
    var i :| 0 <= i < |fs| && fs[i] == seed && (forall k :: 0 <= k < i ==> !After(fs[k], Some(last))) &&
      (After(fs[i], Some(last)) || (i == 0 && forall k :: 0 <= k < |fs| ==> !After(fs[k], Some(last))));
    assert 0 <= i < |fs| && levels[level][i] == seed;
  }

  lemma BehindTheLast(f: File, in0: seq<File>, last: Entry)
    requires IsLargest(in0, last)
    ensures EndsBehind(f, in0) <==> After(f, Some(last))
  {
    var g :| g in in0 && g.Largest() == last;
    assert g.data[|g.data| - 1] == last;
  }

  /** So a sorted level that nothing changes is gone through file by file, round and round. */
  lemma PicksGoRound(fs: seq<File>, i: nat, seed: File)
    requires Disjoint(fs) && i < |fs| && IsNextAfter(fs, Some(fs[i].Largest()), seed)
    ensures seed == fs[if i + 1 < |fs| then i + 1 else 0]
  {
    forall k | 0 <= k < |fs| ensures After(fs[k], Some(fs[i].Largest())) <==> k > i { LargestOrdered(fs, i, k); }
  }
}
