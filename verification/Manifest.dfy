/** The manifest: a snapshot of the levels and every edit since, from which the current version can be rebuilt
    (LogAndApply, WriteSnapshot and Recover in db/version_set.cc). */
module Manifest {
  import opened InternalKeys
  import opened VersionSet
  import opened Compaction
  import opened Store
  import opened StoreRuns
  import opened Builders
  import VersionEdits

  // ---------------------------------------------------------------- what the manifest says

  /** The last value that a field was given. */
  function LastLog(edits: seq<Edit>): Option<nat> {
    if |edits| == 0 then None
    else if edits[|edits| - 1].logNumber.Some? then edits[|edits| - 1].logNumber
    else LastLog(edits[..|edits| - 1])
  }

  function LastNext(edits: seq<Edit>): Option<nat> {
    if |edits| == 0 then None
    else if edits[|edits| - 1].nextFile.Some? then edits[|edits| - 1].nextFile
    else LastNext(edits[..|edits| - 1])
  }

  function LastSeq(edits: seq<Edit>): Option<nat> {
    if |edits| == 0 then None
    else if edits[|edits| - 1].lastSeq.Some? then edits[|edits| - 1].lastSeq
    else LastSeq(edits[..|edits| - 1])
  }

  /** Whatever was ever put on a level is numbered below next, and if it is still there, it is there or deeper. */
  ghost predicate OnlyDown(edits: seq<Edit>, levels: seq<seq<File>>, next: nat) {
    forall l: nat, f :: l < NUM_LEVELS && f in EverAdded(edits, l) ==> f.number < next && NotAbove(levels, f.number, l)
  }

  ghost predicate NotAbove(levels: seq<seq<File>>, number: nat, l: nat) {
    forall k, g :: 0 <= k < |levels| && g in levels[k] && g.number == number ==> l <= k
  }

  ghost predicate EditOk(edits: seq<Edit>, i: nat) {
    i < |edits| && LevelsExist(edits[i]) && forall l: nat :: l < NUM_LEVELS ==> AddsNew({}, edits[..i], edits[i], l)
  }

  ghost predicate LevelsDescribed(edits: seq<Edit>, levels: seq<seq<File>>, next: nat) {
    |levels| == NUM_LEVELS && (forall l: nat :: l < NUM_LEVELS ==> OneByOne({}, edits, l) == Members(levels[l])) &&
    OnlyDown(edits, levels, next) && forall i: nat :: i < |edits| ==> EditOk(edits, i)
  }

  /** The edits lead to the levels and the numbers that the store thinks are in its manifest. */
  ghost predicate Described(edits: seq<Edit>, st: State) {
    LevelsDescribed(edits, st.levels, st.manifestNext) && LastLog(edits) == Some(st.logNumber) &&
    LastNext(edits) == Some(st.manifestNext) && LastSeq(edits) == Some(st.manifestSeq)
  }

  // ---------------------------------------------------------------- one more edit

  /** No edit has named this number. */
  ghost predicate NeverNamed(edits: seq<Edit>, number: nat) {
    forall k: nat, g :: k < NUM_LEVELS && g in EverAdded(edits, k) ==> g.number != number
  }

  /** A file comes with a new number, or from the level above. */
  ghost predicate ComesNew(edits: seq<Edit>, levels: seq<seq<File>>, l: nat, f: File) {
    NeverNamed(edits, f.number) || (1 <= l <= |levels| && f in levels[l - 1])
  }

  ghost predicate LeadsTo(edits: seq<Edit>, levels: seq<seq<File>>, e: Edit, levels': seq<seq<File>>) {
    |levels| == |levels'| == NUM_LEVELS && LevelsExist(e) &&
    (forall l: nat :: l < NUM_LEVELS ==> Members(levels'[l]) == Next(Members(levels[l]), e, l)) &&
    forall l: nat, f :: l < NUM_LEVELS && f in AddedAt(e.added, l) ==> ComesNew(edits, levels, l, f)
  }

  lemma AddedIsThere(fs: set<File>, e: Edit, l: nat, f: File)
    requires f in AddedAt(e.added, l)
    ensures f in Next(fs, e, l)
  {
  }

  lemma NewIsNew(edits: seq<Edit>, levels: seq<seq<File>>, next: nat, e: Edit, levels': seq<seq<File>>, next': nat,
                 l: nat)
    requires LevelsDescribed(edits, levels, next) && LeadsTo(edits, levels, e, levels') && next <= next' &&
             NumbersUnique(levels', next') && l < NUM_LEVELS
    ensures AddsNew({}, edits, e, l)
  {
    hide Next, AddedAt, EverAdded, OneByOne;
    forall f, g | f in AddedAt(e.added, l) && g in {} + EverAdded(edits, l) ensures f.number != g.number {
      assert ComesNew(edits, levels, l, f);
      assert NotAbove(levels, g.number, l);
    }
    forall f, g | f in AddedAt(e.added, l) && g in AddedAt(e.added, l) && f.number == g.number ensures f == g {
      AddedIsThere(Members(levels[l]), e, l, f);
      AddedIsThere(Members(levels[l]), e, l, g);
      assert f in levels'[l] && g in levels'[l];
    }
  }

  lemma StillOnlyDown(edits: seq<Edit>, levels: seq<seq<File>>, next: nat, e: Edit, levels': seq<seq<File>>, next': nat,
                      l: nat, f: File)
    requires LevelsDescribed(edits, levels, next) && LeadsTo(edits, levels, e, levels') && next <= next' &&
             NumbersUnique(levels', next') && l < NUM_LEVELS
    requires f in EverAdded(edits, l) + AddedAt(e.added, l)
    ensures f.number < next' && NotAbove(levels', f.number, l)
  {
    hide EverAdded, OneByOne, Next, EditOk;
    if f in AddedAt(e.added, l) {
      AddedIsThere(Members(levels[l]), e, l, f);
      assert f in levels'[l];
    } else {
      assert NotAbove(levels, f.number, l);
      forall k, g | 0 <= k < |levels'| && g in levels'[k] && g.number == f.number ensures l <= k {
        assert g in Members(levels'[k]);
        NextIsKnown(Members(levels[k]), e, k, g);
        if g in AddedAt(e.added, k) { assert ComesNew(edits, levels, k, g); } else { assert g in levels[k]; }
      }
    }
  }

  lemma NextIsKnown(fs: set<File>, e: Edit, l: nat, f: File)
    requires f in Next(fs, e, l)
    ensures f in fs || f in AddedAt(e.added, l)
  {
  }

  lemma EditStays(edits: seq<Edit>, e: Edit, i: nat)
    requires EditOk(edits, i)
    ensures EditOk(edits + [e], i)
  {
    hide AddsNew;
    assert (edits + [e])[..i] == edits[..i];
  }

  lemma EditLeads(edits: seq<Edit>, levels: seq<seq<File>>, next: nat, e: Edit, levels': seq<seq<File>>, next': nat)
    requires LevelsDescribed(edits, levels, next) && LeadsTo(edits, levels, e, levels') && next <= next' &&
             NumbersUnique(levels', next')
    ensures LevelsDescribed(edits + [e], levels', next')
  {
    hide AddsNew, NotAbove, EverAdded, OneByOne, Next;
    forall l: nat | l < NUM_LEVELS
      ensures AddsNew({}, edits, e, l) && OneByOne({}, edits + [e], l) == Members(levels'[l])
      ensures EverAdded(edits + [e], l) == EverAdded(edits, l) + AddedAt(e.added, l)
    {
      NewIsNew(edits, levels, next, e, levels', next', l);
      OneMoreEdit({}, edits, e, l);
    }
    forall l: nat, f | l < NUM_LEVELS && f in EverAdded(edits + [e], l)
      ensures f.number < next' && NotAbove(levels', f.number, l)
    {
      StillOnlyDown(edits, levels, next, e, levels', next', l, f);
    }
    forall i: nat | i < |edits| + 1 ensures EditOk(edits + [e], i) {
      if i < |edits| { EditStays(edits, e, i); } else { assert (edits + [e])[..i] == edits; }
    }
  }

  // ---------------------------------------------------------------- the edits of the store's steps

  function Deletions(level: nat, fs: seq<File>, before: seq<(nat, nat)>): seq<(nat, nat)> {
    if |fs| == 0 then before
    else VersionEdits.InsertDeleted(Deletions(level, fs[..|fs| - 1], before), (level, fs[|fs| - 1].number))
  }

  function Additions(level: nat, fs: seq<File>): (r: seq<(nat, File)>)
    ensures |r| == |fs| && forall i :: 0 <= i < |fs| ==> r[i] == (level, fs[i])
  {
    seq(|fs|, i requires 0 <= i < |fs| => (level, fs[i]))
  }

  function FlushEdit(st: State, level: nat, f: File): Edit
    requires st.imm.Some?
  {
    Edit(Some(st.curLog), Some(st.nextFile + 1), Some(st.lastSeq), [], if |st.imm.value| == 0 then [] else [(level, f)])
  }

  function CompactionEdit(st: State, j: Job, outputs: seq<File>, next: nat): Edit {
    Edit(Some(st.logNumber), Some(next), Some(st.lastSeq), Deletions(j.level + 1, j.in1, Deletions(j.level, j.in0, [])),
         Additions(j.level + 1, outputs))
  }

  function MoveEdit(st: State, level: nat, f: File): Edit {
    Edit(Some(st.logNumber), Some(st.nextFile), Some(st.lastSeq), [(level, f.number)], [(level + 1, f)])
  }

  function RecoveryEdit(newLog: nat, next: nat, last: SequenceNumber, files: seq<File>): Edit {
    Edit(Some(newLog), Some(next), Some(last), [], Additions(0, files))
  }

  /** WriteSnapshot: all files of all levels, and no numbers. */
  function AllFiles(levels: seq<seq<File>>): seq<(nat, File)> {
    if |levels| == 0 then [] else AllFiles(levels[..|levels| - 1]) + Additions(|levels| - 1, levels[|levels| - 1])
  }

  function Snapshot(levels: seq<seq<File>>): Edit { Edit(None, None, None, [], AllFiles(levels)) }

  /** What the manifest file holds after a step.  Reopening starts a new one. */
  ghost function EditsAfter(edits: seq<Edit>, st: State, st': State, step: Step): seq<Edit>
    requires Allowed(st, st', step)
  {
    match step
    case Flush(level, out, f) => edits + [FlushEdit(st, level, f)]
    case FinishCompaction(input, outputs, out0, out1) =>
      edits + [CompactionEdit(st, st.job.value, outputs, st'.nextFile)]
    case TrivialMove(from, moved, lo, hi, out0, out1) => edits + [MoveEdit(st, from, moved)]
    case Crash(m, cut, files, out) => [Snapshot(st.levels), RecoveryEdit(st'.curLog, st'.nextFile, st'.lastSeq, files)]
    case _ => edits
  }

  function FirstEdits(log: nat): seq<Edit> {
    [Snapshot(seq(NUM_LEVELS, _ => [])), RecoveryEdit(log, log + 1, 0, [])]
  }

  // ---------------------------------------------------------------- which files they name

  lemma {:induction false} InsertedDeletion(s: seq<(nat, nat)>, p: (nat, nat))
    ensures forall q :: q in VersionEdits.InsertDeleted(s, p) <==> q in s || q == p
  {
    if |s| == 0 || VersionEdits.Less(p, s[0]) || s[0] == p {
    } else {
      assert s == [s[0]] + s[1..];
      InsertedDeletion(s[1..], p);
    }
  }

  lemma {:induction false} DeletionsAre(level: nat, fs: seq<File>, before: seq<(nat, nat)>)
    ensures forall q :: q in Deletions(level, fs, before) <==>
              q in before || (q.0 == level && exists f :: f in fs && f.number == q.1)
  {
    if |fs| == 0 {
    } else {
      var rest, last := fs[..|fs| - 1], fs[|fs| - 1];
      assert fs == rest + [last];
      DeletionsAre(level, rest, before);
      InsertedDeletion(Deletions(level, rest, before), (level, last.number));
      forall q
        ensures q in Deletions(level, fs, before) <==>
                  q in before || (q.0 == level && exists f :: f in fs && f.number == q.1)
      {
        if q == (level, last.number) { assert last in fs && last.number == q.1; }
        if f :| f in rest && f.number == q.1 { assert f in fs; }
      }
    }
  }

  lemma DeletedByCompaction(j: Job, l: nat)
    ensures DeletedAt(Deletions(j.level + 1, j.in1, Deletions(j.level, j.in0, [])), l)
         == if l == j.level then Numbers(j.in0) else if l == j.level + 1 then Numbers(j.in1) else {}
  {
    var d0 := Deletions(j.level, j.in0, []);
    var d := Deletions(j.level + 1, j.in1, d0);
    DeletionsAre(j.level, j.in0, []);
    DeletionsAre(j.level + 1, j.in1, d0);
    forall n: nat ensures n in DeletedAt(d, l) <==>
      (l == j.level && n in Numbers(j.in0)) || (l == j.level + 1 && n in Numbers(j.in1))
    {
      if n in DeletedAt(d, l) { assert (l, n) in d; }
      if l == j.level && n in Numbers(j.in0) { assert (l, n) in d; }
      if l == j.level + 1 && n in Numbers(j.in1) { assert (l, n) in d; }
    }
  }

  lemma AddedByAdditions(level: nat, fs: seq<File>, l: nat)
    ensures AddedAt(Additions(level, fs), l) == if l == level then Members(fs) else {}
  {
    var a := Additions(level, fs);
    forall f ensures f in AddedAt(a, l) <==> l == level && f in fs {
      if f in AddedAt(a, l) { assert (l, f) in a; }
      if l == level && f in fs { var i :| 0 <= i < |fs| && fs[i] == f; assert a[i] == (l, f); }
    }
  }

  lemma {:induction false} AddedBySnapshot(levels: seq<seq<File>>, l: nat)
    ensures AddedAt(AllFiles(levels), l) == if l < |levels| then Members(levels[l]) else {}
  {
    if |levels| == 0 {
    } else {
      var n := |levels| - 1;
      AddedBySnapshot(levels[..n], l);
      AddedByAdditions(n, levels[n], l);
      AddedJoin(AllFiles(levels[..n]), Additions(n, levels[n]), l);
    }
  }

  lemma AddedJoin(a: seq<(nat, File)>, b: seq<(nat, File)>, l: nat)
    ensures AddedAt(a + b, l) == AddedAt(a, l) + AddedAt(b, l)
  {
    forall f ensures f in AddedAt(a + b, l) <==> f in AddedAt(a, l) || f in AddedAt(b, l) {
      if f in AddedAt(a + b, l) { assert (l, f) in a + b; }
      if f in AddedAt(a, l) { assert (l, f) in a; assert (l, f) in a + b; }
      if f in AddedAt(b, l) { assert (l, f) in b; assert (l, f) in a + b; }
    }
  }

  lemma NothingNamed(l: nat)
    ensures AddedAt([], l) == {} && DeletedAt([], l) == {}
  {
  }

  // ---------------------------------------------------------------- every step keeps the manifest right

  /** A level is saved as the edit says. */
  lemma SavedIsNext(base: seq<File>, deleted: set<nat>, added: seq<File>, out: seq<File>, e: Edit, l: nat)
    requires Saved(base, deleted, added, out) && AddedAt(e.added, l) == Members(added)
    requires DeletedAt(e.deleted, l) == deleted && forall f :: f in added ==> f.number !in deleted
    requires forall f, g :: f in base && g in added ==> f.number != g.number
    ensures Members(out) == Next(Members(base), e, l)
  {
    hide AddedAt, DeletedAt;
    forall f ensures f in out <==> f in Next(Members(base), e, l) {
      if f in Next(Members(base), e, l) { assert f in base || f in added; }
    }
    MembersOf(out);
  }

  lemma NothingNext(fs: seq<File>, e: Edit, l: nat)
    requires AddedAt(e.added, l) == {} && DeletedAt(e.deleted, l) == {}
    ensures Members(fs) == Next(Members(fs), e, l)
  {
  }

  lemma LastsOf(edits: seq<Edit>, e: Edit)
    requires e.logNumber.Some? && e.nextFile.Some? && e.lastSeq.Some?
    ensures LastLog(edits + [e]) == e.logNumber && LastNext(edits + [e]) == e.nextFile &&
            LastSeq(edits + [e]) == e.lastSeq
  {
  }

  lemma InvParts(st: State)
    requires Inv(st)
    ensures |st.levels| == NUM_LEVELS && NumbersUnique(st.levels, st.manifestNext) && st.manifestNext <= st.nextFile
    ensures JobInv(st)
  {
  }

  lemma LaterIsNew(edits: seq<Edit>, levels: seq<seq<File>>, next: nat, number: nat)
    requires OnlyDown(edits, levels, next) && next <= number
    ensures NeverNamed(edits, number)
  {
  }

  lemma FlushLevel(st: State, level: nat, out: seq<File>, f: File, l: nat)
    requires Inv(st) && FlushChoice(st, level, out, f) && l < NUM_LEVELS
    ensures var e := FlushEdit(st, level, f);
            AddedAt(e.added, l) == (if |st.imm.value| > 0 && l == level then {f} else {}) &&
            Members(st.levels[level := out][l]) == Next(Members(st.levels[l]), e, l)
  {
    hide Next, AddedAt, DeletedAt, Inv;
    InvParts(st);
    var e := FlushEdit(st, level, f);
    NothingNamed(l);
    if |st.imm.value| > 0 {
      assert e.added == Additions(level, [f]);
      AddedByAdditions(level, [f], l);
    }
    if |st.imm.value| > 0 && l == level {
      SavedIsNext(st.levels[level], {}, [f], out, e, l);
    } else {
      NothingNext(st.levels[l], e, l);
    }
  }

  lemma FlushLeads(edits: seq<Edit>, st: State, st': State, level: nat, out: seq<File>, f: File)
    requires Inv(st) && FlushStep(st, st', level, out, f) && OnlyDown(edits, st.levels, st.manifestNext)
    ensures LeadsTo(edits, st.levels, FlushEdit(st, level, f), st'.levels)
  {
    hide Next, AddedAt, DeletedAt, Inv, OnlyDown, NeverNamed, Saved;
    InvParts(st);
    forall l: nat | l < NUM_LEVELS
      ensures AddedAt(FlushEdit(st, level, f).added, l) == (if |st.imm.value| > 0 && l == level then {f} else {})
      ensures Members(st'.levels[l]) == Next(Members(st.levels[l]), FlushEdit(st, level, f), l)
    {
      FlushLevel(st, level, out, f, l);
    }
    if |st.imm.value| > 0 { LaterIsNew(edits, st.levels, st.manifestNext, f.number); }
  }

  lemma MovedNames(level: nat, f: File, l: nat)
    ensures AddedAt([(level + 1, f)], l) == (if l == level + 1 then {f} else {})
    ensures DeletedAt([(level, f.number)], l) == if l == level then {f.number} else {}
  {
    assert Additions(level + 1, [f]) == [(level + 1, f)];
    AddedByAdditions(level + 1, [f], l);
    if l == level { assert (l, f.number) in [(level, f.number)]; }
  }

  lemma MoveLevel(st: State, level: nat, f: File, out0: seq<File>, out1: seq<File>, l: nat)
    requires |st.levels| == NUM_LEVELS && NumbersUnique(st.levels, st.manifestNext) && level + 1 < NUM_LEVELS
    requires f in st.levels[level] && l < NUM_LEVELS
    requires Saved(st.levels[level], {f.number}, [], out0) && Saved(st.levels[level + 1], {}, [f], out1)
    ensures Members(st.levels[level := out0][level + 1 := out1][l]) ==
            Next(Members(st.levels[l]), MoveEdit(st, level, f), l)
  {
    hide Next, AddedAt, DeletedAt;
    var e := MoveEdit(st, level, f);
    MovedNames(level, f, l);
    if l == level {
      SavedIsNext(st.levels[l], {f.number}, [], out0, e, l);
    } else if l == level + 1 {
      SavedIsNext(st.levels[l], {}, [f], out1, e, l);
    } else {
      NothingNext(st.levels[l], e, l);
    }
  }

  lemma MoveLeads(edits: seq<Edit>, st: State, st': State, level: nat, f: File, lo: int, hi: int, out0: seq<File>,
                  out1: seq<File>)
    requires Inv(st) && MoveStep(st, st', level, f, lo, hi, out0, out1)
    ensures LeadsTo(edits, st.levels, MoveEdit(st, level, f), st'.levels)
  {
    hide Next, AddedAt, DeletedAt, Inv, Saved, NumbersUnique;
    InvParts(st);
    assert f in [f];
    forall l: nat | l < NUM_LEVELS
      ensures AddedAt(MoveEdit(st, level, f).added, l) == if l == level + 1 then {f} else {}
      ensures Members(st'.levels[l]) == Next(Members(st.levels[l]), MoveEdit(st, level, f), l)
    {
      MovedNames(level, f, l);
      MoveLevel(st, level, f, out0, out1, l);
    }
  }

  lemma CompactionLevel(st: State, j: Job, outputs: seq<File>, next: nat, out0: seq<File>, out1: seq<File>, l: nat)
    requires |st.levels| == NUM_LEVELS && JobOk(st.levels, j) && OutputsNumbered(st, outputs, next) && l < NUM_LEVELS
    requires Saved(st.levels[j.level], Numbers(j.in0), [], out0)
    requires Saved(st.levels[j.level + 1], Numbers(j.in1), outputs, out1)
    ensures Members(st.levels[j.level := out0][j.level + 1 := out1][l])
         == Next(Members(st.levels[l]), CompactionEdit(st, j, outputs, next), l)
  {
    hide Next, AddedAt, DeletedAt, OutputsNumbered, Saved;
    var e := CompactionEdit(st, j, outputs, next);
    AddedByAdditions(j.level + 1, outputs, l);
    DeletedByCompaction(j, l);
    if l == j.level {
      SavedIsNext(st.levels[l], Numbers(j.in0), [], out0, e, l);
    } else if l == j.level + 1 {
      OutputsAreNew(st, j, outputs, next);
      SavedIsNext(st.levels[l], Numbers(j.in1), outputs, out1, e, l);
    } else {
      NothingNext(st.levels[l], e, l);
    }
  }

  lemma CompactionLeads(edits: seq<Edit>, st: State, st': State, input: seq<Entry>, outputs: seq<File>, out0: seq<File>,
                        out1: seq<File>)
    requires Inv(st) && FinishStep(st, st', input, outputs, out0, out1)
    requires forall f :: f in outputs ==> NeverNamed(edits, f.number)
    ensures LeadsTo(edits, st.levels, CompactionEdit(st, st.job.value, outputs, st'.nextFile), st'.levels)
  {
    hide Next, AddedAt, DeletedAt, Inv, OutputsHold, OutputsNumbered, Saved, JobOk, NeverNamed;
    InvParts(st);
    var j := st.job.value;
    forall l: nat | l < NUM_LEVELS
      ensures AddedAt(CompactionEdit(st, j, outputs, st'.nextFile).added, l) ==
              if l == j.level + 1 then Members(outputs) else {}
      ensures Members(st'.levels[l]) == Next(Members(st.levels[l]), CompactionEdit(st, j, outputs, st'.nextFile), l)
    {
      AddedByAdditions(j.level + 1, outputs, l);
      CompactionLevel(st, j, outputs, st'.nextFile, out0, out1, l);
    }
    CompactionLevelsExist(st, j, outputs, st'.nextFile);
  }

  lemma CompactionLevelsExist(st: State, j: Job, outputs: seq<File>, next: nat)
    requires j.level + 1 < NUM_LEVELS
    ensures LevelsExist(CompactionEdit(st, j, outputs, next))
  {
    var d0 := Deletions(j.level, j.in0, []);
    DeletionsAre(j.level, j.in0, []);
    DeletionsAre(j.level + 1, j.in1, d0);
    var d := Deletions(j.level + 1, j.in1, d0);
    forall i | 0 <= i < |d| ensures d[i].0 < NUM_LEVELS { assert d[i] in d; }
  }

  lemma OutputsAreNew(st: State, j: Job, outputs: seq<File>, next: nat)
    requires OutputsNumbered(st, outputs, next) && j.level + 1 < |st.levels| && JobOk(st.levels, j)
    ensures forall f :: f in outputs ==> f.number !in Numbers(j.in1)
    ensures forall g, f :: g in st.levels[j.level + 1] && f in outputs ==> g.number != f.number
  {
  }

  lemma SnapshotDescribes(levels: seq<seq<File>>, next: nat)
    requires |levels| == NUM_LEVELS && NumbersUnique(levels, next)
    ensures LevelsDescribed([Snapshot(levels)], levels, next)
  {
    hide Next, AddedAt, DeletedAt, AllFiles;
    var e := Snapshot(levels);
    var edits := [e];
    assert edits[..0] == [] && edits[0] == e;
    SnapshotLevelsExist(levels);
    forall l: nat | l < NUM_LEVELS
      ensures OneByOne({}, edits, l) == Members(levels[l]) == EverAdded(edits, l) && AddsNew({}, [], e, l)
    {
      AddedBySnapshot(levels, l);
      NothingNamed(l);
      AddedToNothing(e, l);
      assert NumbersDiffer(Members(levels[l]));
    }
  }

  lemma AddedToNothing(e: Edit, l: nat)
    requires DeletedAt(e.deleted, l) == {}
    ensures OneByOne({}, [e], l) == AddedAt(e.added, l) == EverAdded([e], l)
  {
    assert [e][..0] == [];
    assert Next({}, e, l) == AddedAt(e.added, l);
  }

  lemma {:induction false} SnapshotLevelsExist(levels: seq<seq<File>>)
    requires |levels| <= NUM_LEVELS
    ensures LevelsExist(Snapshot(levels))
  {
    if |levels| == 0 {
    } else {
      SnapshotLevelsExist(levels[..|levels| - 1]);
    }
  }

  lemma RecoveryLeads(levels: seq<seq<File>>, next: nat, files: seq<File>, out: seq<File>, e: Edit)
    requires |levels| == NUM_LEVELS && NumbersUnique(levels, next) && Saved(levels[0], {}, files, out)
    requires e.added == Additions(0, files) && e.deleted == [] && forall f :: f in files ==> next <= f.number
    ensures LeadsTo([Snapshot(levels)], levels, e, levels[0 := out])
  {
    hide Next, AddedAt, DeletedAt, NeverNamed;
    SnapshotDescribes(levels, next);
    forall l: nat | l < NUM_LEVELS
      ensures AddedAt(e.added, l) == if l == 0 then Members(files) else {}
      ensures Members(levels[0 := out][l]) == Next(Members(levels[l]), e, l)
    {
      NothingNamed(l);
      AddedByAdditions(0, files, l);
      if l == 0 {
        SavedIsNext(levels[0], {}, files, out, e, 0);
      } else {
        NothingNext(levels[l], e, l);
      }
    }
    forall f | f in files ensures NeverNamed([Snapshot(levels)], f.number) {
      LaterIsNew([Snapshot(levels)], levels, next, f.number);
    }
  }

  /** The outputs of a compaction are named for the first time; see CounterNamesNew. */
  ghost predicate NamesNew(edits: seq<Edit>, step: Step) {
    step.FinishCompaction? ==> forall f :: f in step.outputs ==> NeverNamed(edits, f.number)
  }

  // ---------------------------------------------------------------- numbers from the counter

  /** The numbers that have been taken from the counter for outputs of a compaction and are not installed yet. */
  ghost function TakenAfter(taken: set<nat>, st: State, step: Step): set<nat> {
    match step
    case NewFileNumber => taken + {st.nextFile}
    case FinishCompaction(_, outputs, _, _) => taken - Numbers(outputs)
    case Crash(_, _, _, _) => {}
    case _ => taken
  }

  /** OpenCompactionOutputFile takes the number of every output from the counter. */
  ghost predicate FromCounter(taken: set<nat>, step: Step) {
    step.FinishCompaction? ==> Numbers(step.outputs) <= taken
  }

  ghost predicate CounterOk(edits: seq<Edit>, st: State, taken: set<nat>) {
    forall n :: n in taken ==> n < st.nextFile && NeverNamed(edits, n)
  }

  lemma CounterNamesNew(edits: seq<Edit>, st: State, taken: set<nat>, step: Step)
    requires CounterOk(edits, st, taken) && FromCounter(taken, step)
    ensures NamesNew(edits, step)
  {
    hide NeverNamed;
    if step.FinishCompaction? {
      forall f | f in step.outputs ensures NeverNamed(edits, f.number) { assert f.number in Numbers(step.outputs); }
    }
  }

  lemma StillNeverNamed(edits: seq<Edit>, e: Edit, n: nat)
    requires NeverNamed(edits, n) && forall k, g :: (k, g) in e.added ==> g.number != n
    ensures NeverNamed(edits + [e], n)
  {
    assert (edits + [e])[..|edits|] == edits;
    forall k: nat, g | k < NUM_LEVELS && g in EverAdded(edits + [e], k) ensures g.number != n {
      if g !in EverAdded(edits, k) { assert g in AddedAt(e.added, k); }
    }
  }

  lemma AboveIsNeverNamed(edits: seq<Edit>, st: State, n: nat)
    requires Described(edits, st) && st.manifestNext <= n
    ensures NeverNamed(edits, n)
  {
  }

  lemma ListedIsNamed(edits: seq<Edit>, st: State, l: nat, f: File, n: nat)
    requires Described(edits, st) && l < |st.levels| && f in st.levels[l] && NeverNamed(edits, n)
    ensures f.number != n
  {
    OneByOneIsKnown({}, edits, l);
    assert f in Members(st.levels[l]);
  }

  lemma StepKeepsCounter(edits: seq<Edit>, st: State, st': State, taken: set<nat>, step: Step)
    requires Inv(st) && Allowed(st, st', step) && Described(edits, st) && CounterOk(edits, st, taken)
    ensures CounterOk(EditsAfter(edits, st, st', step), st', TakenAfter(taken, st, step))
  {
    hide Inv, CrashStep, DropSafe, Described, NeverNamed, OutputsHold, FlushChoice, GoodInputs;
    if step.Crash? { return; }
    CounterGrows(st, st', step);
    var edits' := EditsAfter(edits, st, st', step);
    forall n | n in TakenAfter(taken, st, step) ensures n < st'.nextFile && NeverNamed(edits', n) {
      match step
      case NewFileNumber =>
        if n !in taken {
          NextIsNew(st);
          AboveIsNeverNamed(edits, st, n);
        }
      case Flush(level, out, f) =>
        FlushNames(st, st', level, out, f);
        StillNeverNamed(edits, FlushEdit(st, level, f), n);
      case FinishCompaction(input, outputs, out0, out1) =>
        assert forall g :: g in outputs ==> g.number in Numbers(outputs);
        StillNeverNamed(edits, CompactionEdit(st, st.job.value, outputs, st'.nextFile), n);
      case TrivialMove(from, moved, lo, hi, out0, out1) =>
        MovedIsListed(st, st', from, moved, lo, hi, out0, out1);
        ListedIsNamed(edits, st, from, moved, n);
        StillNeverNamed(edits, MoveEdit(st, from, moved), n);
      case _ =>
    }
  }

  lemma NextIsNew(st: State)
    requires Inv(st)
    ensures st.manifestNext <= st.nextFile
  {
  }

  lemma CounterGrows(st: State, st': State, step: Step)
    requires Allowed(st, st', step) && !step.Crash?
    ensures st.nextFile <= st'.nextFile
  {
    hide DropSafe, FlushChoice, GoodInputs, OutputsHold;
  }

  lemma FlushNames(st: State, st': State, level: nat, out: seq<File>, f: File)
    requires FlushStep(st, st', level, out, f)
    ensures st.imm.Some? && (|st.imm.value| > 0 ==> f.number == st.nextFile)
  {
  }

  lemma MovedIsListed(st: State, st': State, from: nat, f: File, lo: int, hi: int, out0: seq<File>, out1: seq<File>)
    requires MoveStep(st, st', from, f, lo, hi, out0, out1)
    ensures from < |st.levels| && f in st.levels[from]
  {
    assert f in [f];
  }

  lemma EditDescribes(edits: seq<Edit>, st: State, e: Edit, st': State)
    requires LevelsDescribed(edits, st.levels, st.manifestNext) && LeadsTo(edits, st.levels, e, st'.levels)
    requires NumbersUnique(st'.levels, st'.manifestNext) && st.manifestNext <= st'.manifestNext
    requires e.logNumber == Some(st'.logNumber) && e.nextFile == Some(st'.manifestNext) &&
             e.lastSeq == Some(st'.manifestSeq)
    ensures Described(edits + [e], st')
  {
    EditLeads(edits, st.levels, st.manifestNext, e, st'.levels, st'.manifestNext);
    LastsOf(edits, e);
  }

  lemma FlushDescribes(edits: seq<Edit>, st: State, st': State, level: nat, out: seq<File>, f: File)
    requires Inv(st) && Inv(st') && FlushStep(st, st', level, out, f) && Described(edits, st)
    ensures Described(edits + [FlushEdit(st, level, f)], st')
  {
    hide Inv, LevelsDescribed, LeadsTo, NumbersUnique;
    InvParts(st);
    InvParts(st');
    DescribedParts(edits, st);
    FlushLeads(edits, st, st', level, out, f);
    EditDescribes(edits, st, FlushEdit(st, level, f), st');
  }

  lemma CompactionDescribes(edits: seq<Edit>, st: State, st': State, input: seq<Entry>, outputs: seq<File>,
                            out0: seq<File>, out1: seq<File>)
    requires Inv(st) && Inv(st') && FinishStep(st, st', input, outputs, out0, out1) && Described(edits, st)
    requires forall f :: f in outputs ==> NeverNamed(edits, f.number)
    ensures Described(edits + [CompactionEdit(st, st.job.value, outputs, st'.nextFile)], st')
  {
    hide Inv, LevelsDescribed, LeadsTo, NumbersUnique, NeverNamed, OutputsHold, Saved;
    InvParts(st);
    InvParts(st');
    CompactionLeads(edits, st, st', input, outputs, out0, out1);
    assert st.manifestNext <= st'.manifestNext;
    EditDescribes(edits, st, CompactionEdit(st, st.job.value, outputs, st'.nextFile), st');
  }

  lemma MoveDescribes(edits: seq<Edit>, st: State, st': State, level: nat, f: File, lo: int, hi: int, out0: seq<File>,
                      out1: seq<File>)
    requires Inv(st) && Inv(st') && MoveStep(st, st', level, f, lo, hi, out0, out1) && Described(edits, st)
    ensures Described(edits + [MoveEdit(st, level, f)], st')
  {
    hide Inv, LevelsDescribed, LeadsTo, NumbersUnique, GoodInputs, Saved;
    InvParts(st);
    InvParts(st');
    MoveLeads(edits, st, st', level, f, lo, hi, out0, out1);
    EditDescribes(edits, st, MoveEdit(st, level, f), st');
  }

  lemma CrashDescribes(st: State, st': State, m: nat, cut: SequenceNumber, files: seq<File>, out: seq<File>)
    requires Inv(st) && Inv(st') && CrashStep(st, st', m, cut, files, out)
    ensures Described([Snapshot(st.levels), RecoveryEdit(st'.curLog, st'.nextFile, st'.lastSeq, files)], st')
  {
    hide Inv, IsCut, Saved, NumbersUnique, LevelsDescribed, LeadsTo, Snapshot, UpTo, OnDisk, Described, RecoveryEdit;
    InvParts(st);
    InvParts(st');
    var e := RecoveryEdit(st'.curLog, st'.nextFile, st'.lastSeq, files);
    RecoveryFields(st'.curLog, st'.nextFile, st'.lastSeq, files);
    SnapshotDescribes(st.levels, st.manifestNext);
    DiskLevels(st, m);
    RecoveryLeads(st.levels, st.manifestNext, files, out, e);
    EditDescribes([Snapshot(st.levels)], st, e, st');
    assert [Snapshot(st.levels)] + [e] == [Snapshot(st.levels), e];
  }

  lemma RecoveryFields(newLog: nat, next: nat, last: SequenceNumber, files: seq<File>)
    ensures var e := RecoveryEdit(newLog, next, last, files);
            e.logNumber == Some(newLog) && e.nextFile == Some(next) && e.lastSeq == Some(last) && e.deleted == [] &&
            e.added == Additions(0, files)
  {
  }

  lemma DiskLevels(st: State, m: nat)
    requires st.curLog in st.logs && m <= |st.logs[st.curLog]|
    ensures OnDisk(st, m).levels == st.levels
  {
  }

  /** Every step of the store keeps the manifest file describing the levels and numbers. */
  lemma StepKeepsManifest(edits: seq<Edit>, st: State, st': State, step: Step)
    requires Inv(st) && Allowed(st, st', step) && Described(edits, st) && NamesNew(edits, step)
    ensures Described(EditsAfter(edits, st, st', step), st')
  {
    StepKeepsInv(st, st', step);
    hide Inv, CrashStep, FlushStep, FinishStep, MoveStep, DropSafe, Described, NeverNamed;
    match step
    case Flush(level, out, f) => FlushDescribes(edits, st, st', level, out, f);
    case FinishCompaction(input, outputs, out0, out1) =>
      CompactionDescribes(edits, st, st', input, outputs, out0, out1);
    case TrivialMove(from, moved, lo, hi, out0, out1) => MoveDescribes(edits, st, st', from, moved, lo, hi, out0, out1);
    case Crash(m, cut, files, out) => CrashDescribes(st, st', m, cut, files, out);
    case _ => SameIsDescribed(edits, st, st');
  }

  lemma SameIsDescribed(edits: seq<Edit>, st: State, st': State)
    requires Described(edits, st) && st'.levels == st.levels && st'.manifestNext == st.manifestNext
    requires st'.logNumber == st.logNumber && st'.manifestSeq == st.manifestSeq
    ensures Described(edits, st')
  {
  }

  lemma DescribedParts(edits: seq<Edit>, st: State)
    requires Described(edits, st)
    ensures OnlyDown(edits, st.levels, st.manifestNext)
  {
  }

  lemma FirstManifest(log: nat)
    ensures Described(FirstEdits(log), Init(log))
  {
    hide LevelsDescribed, LeadsTo, Snapshot, Described, RecoveryEdit, Inv;
    var st := Init(log);
    InitInv(log);
    InvParts(st);
    var e := RecoveryEdit(log, log + 1, 0, []);
    RecoveryFields(log, log + 1, 0, []);
    SnapshotDescribes(st.levels, log + 1);
    RecoveryLeads(st.levels, log + 1, [], [], e);
    assert st.levels[0 := []] == st.levels;
    EditDescribes([Snapshot(st.levels)], st, e, st);
    assert [Snapshot(st.levels)] + [e] == FirstEdits(log);
  }

  lemma NothingTaken(edits: seq<Edit>, st: State)
    ensures CounterOk(edits, st, {})
  {
  }

  /** A run of the store together with what its manifest file holds and which numbers are taken. */
  ghost predicate ManifestRun(states: seq<State>, steps: seq<Step>, manifests: seq<seq<Edit>>, taken: seq<set<nat>>) {
    Run(states, steps) && |manifests| == |states| == |taken| && taken[0] == {} &&
    (exists log :: states[0] == Init(log) && manifests[0] == FirstEdits(log)) &&
    forall i :: 0 <= i < |steps| ==>
      FromCounter(taken[i], steps[i]) && taken[i + 1] == TakenAfter(taken[i], states[i], steps[i]) &&
      manifests[i + 1] == EditsAfter(manifests[i], states[i], states[i + 1], steps[i])
  }

  lemma {:induction false} RunKeepsManifest(states: seq<State>, steps: seq<Step>, manifests: seq<seq<Edit>>,
                                            taken: seq<set<nat>>, i: nat)
    requires ManifestRun(states, steps, manifests, taken) && i < |states|
    ensures Described(manifests[i], states[i]) && CounterOk(manifests[i], states[i], taken[i])
  {
    hide Described, Inv, CounterOk, FromCounter, TakenAfter, NamesNew;
    if i == 0 {
      var log :| states[0] == Init(log) && manifests[0] == FirstEdits(log);
      FirstManifest(log);
      NothingTaken(manifests[0], states[0]);
    } else {
      RunKeepsManifest(states, steps, manifests, taken, i - 1);
      RunKeepsInv(states, steps, i - 1);
      CounterNamesNew(manifests[i - 1], states[i - 1], taken[i - 1], steps[i - 1]);
      StepKeepsCounter(manifests[i - 1], states[i - 1], states[i], taken[i - 1], steps[i - 1]);
      StepKeepsManifest(manifests[i - 1], states[i - 1], states[i], steps[i - 1]);
    }
  }

  // ---------------------------------------------------------------- rebuilding the version

  /** Two sorted lists of the same files are the same list. */
  lemma {:induction false} SortedIsUnique(a: seq<File>, b: seq<File>)
    requires Disjoint(a) && Disjoint(b) && Members(a) == Members(b)
    ensures a == b
    decreases |a|
  {
    MembersOf(a);
    MembersOf(b);
    assert |b| > 0 ==> b[0] in a;
    assert |a| > 0 ==> a[0] in b;
    if |a| == 0 {
    } else {
      var n, m := |a| - 1, |b| - 1;
      LastIsSame(a, b);
      LessLast(a);
      LessLast(b);
      SortedIsUnique(a[..n], b[..m]);
      assert a == a[..n] + [a[n]] && b == b[..m] + [b[m]];
    }
  }

  lemma LastIsLast(fs: seq<File>, f: File)
    requires Disjoint(fs) && f in fs
    ensures f == fs[|fs| - 1] || Before(f.Smallest(), fs[|fs| - 1].Smallest())
  {
    var i :| 0 <= i < |fs| && fs[i] == f;
    SmallestOrdered(fs, i, |fs| - 1);
  }

  lemma LastIsSame(a: seq<File>, b: seq<File>)
    requires Disjoint(a) && Disjoint(b) && |a| > 0 && |b| > 0 && (forall f :: f in a <==> f in b)
    ensures a[|a| - 1] == b[|b| - 1]
  {
    assert a[|a| - 1] in a && b[|b| - 1] in b;
    LastIsLast(b, a[|a| - 1]);
    LastIsLast(a, b[|b| - 1]);
  }

  lemma LessLast(a: seq<File>)
    requires Disjoint(a) && |a| > 0
    ensures Disjoint(a[..|a| - 1]) && Members(a[..|a| - 1]) == Members(a) - {a[|a| - 1]}
  {
    var rest, last := a[..|a| - 1], a[|a| - 1];
    assert a == rest + [last];
    forall f | f in rest ensures f != last {
      EntryInRange(last, last.Largest());
      var i :| 0 <= i < |rest| && rest[i] == f;
      assert Before(a[i].Largest(), last.Smallest());
    }
  }

  lemma DisjointIsApart(fs: seq<File>)
    requires Disjoint(fs)
    ensures AllApart(Members(fs))
  {
    MembersOf(fs);
    forall f, g | f in Members(fs) && g in Members(fs) && f != g ensures Apart(f, g) {
      assert f in fs && g in fs;
      var i :| 0 <= i < |fs| && fs[i] == f;
      var j :| 0 <= j < |fs| && fs[j] == g;
      if i < j {
        assert Before(fs[i].Largest(), fs[j].Smallest());
      } else {
        assert Before(fs[j].Largest(), fs[i].Smallest());
      }
    }
  }

  /** The same files on every level, and from level 1 on in the same order. */
  ghost predicate SameLevels(a: seq<seq<File>>, b: seq<seq<File>>) {
    |a| == |b| == NUM_LEVELS && Members(a[0]) == Members(b[0]) && forall l: nat :: 1 <= l < NUM_LEVELS ==> a[l] == b[l]
  }

  /** VersionSet::Recover, once the records of the manifest have been read and decoded: one builder takes all edits,
      and the fields must all have been seen. */
  method Rebuild(edits: seq<Edit>, ghost st: State)
    returns (r: Option<(seq<seq<File>>, nat, nat, nat)>)
    requires Described(edits, st) && LevelsSorted(st.levels)
    ensures r.Some? && r.value.1 == st.logNumber && r.value.2 == st.manifestNext && r.value.3 == st.manifestSeq
    ensures SameLevels(r.value.0, st.levels)
  {
    hide Described, LevelsDescribed, EditOk, SameLevels;
    var builder := new Builder(seq(NUM_LEVELS, _ => []));
    var log: Option<nat>, next: Option<nat>, seqn: Option<nat> := None, None, None;
    var i := 0;
    while i < |edits|
      invariant i <= |edits| && builder.Valid() && fresh(builder) && builder.edits == edits[..i]
      invariant builder.base == seq(NUM_LEVELS, _ => [])
      invariant log == LastLog(edits[..i]) && next == LastNext(edits[..i]) && seqn == LastSeq(edits[..i])
    {
      var e := edits[i];
      EditIsOk(edits, st, i);
      assert edits[..i + 1] == edits[..i] + [e] && edits[..i + 1][..i] == edits[..i];
      builder.Apply(e);
      if e.logNumber.Some? { log := e.logNumber; }
      if e.nextFile.Some? { next := e.nextFile; }
      if e.lastSeq.Some? { seqn := e.lastSeq; }
      i := i + 1;
    }
    assert edits[..i] == edits;
    FieldsSeen(edits, st);
    var levels := builder.SaveTo();
    if next.None? || log.None? || seqn.None? {
      r := None;
    } else {
      r := Some((levels, log.value, next.value, seqn.value));
    }
    RebuiltIsSame(edits, st, builder.base, levels);
  }

  lemma EditIsOk(edits: seq<Edit>, st: State, i: nat)
    requires Described(edits, st) && i < |edits|
    ensures LevelsExist(edits[i])
  {
    assert EditOk(edits, i);
  }

  lemma EditsAreNew(edits: seq<Edit>, st: State, l: nat)
    requires Described(edits, st) && l < NUM_LEVELS
    ensures AllNew({}, edits, l)
  {
    hide AddsNew, OneByOne, OnlyDown;
    forall i | 0 <= i < |edits| ensures AddsNew({}, edits[..i], edits[i], l) { assert EditOk(edits, i); }
  }

  lemma FieldsSeen(edits: seq<Edit>, st: State)
    requires Described(edits, st)
    ensures LastLog(edits) == Some(st.logNumber) && LastNext(edits) == Some(st.manifestNext)
    ensures LastSeq(edits) == Some(st.manifestSeq)
  {
  }

  lemma RebuiltIsSame(edits: seq<Edit>, st: State, base: seq<seq<File>>, levels: seq<seq<File>>)
    requires Described(edits, st) && LevelsSorted(st.levels) && base == seq(NUM_LEVELS, _ => []) &&
             |levels| == NUM_LEVELS
    requires forall l: nat :: l < NUM_LEVELS && AllNew(Members(base[l]), edits, l) ==>
               Members(levels[l]) == OneByOne(Members(base[l]), edits, l) &&
               (Disjoint(base[l]) && AllApart(OneByOne(Members(base[l]), edits, l)) ==> Disjoint(levels[l]))
    ensures SameLevels(levels, st.levels)
  {
    hide OneByOne, AllApart, AllNew;
    forall l: nat | l < NUM_LEVELS
      ensures Members(levels[l]) == Members(st.levels[l]) && (l > 0 ==> levels[l] == st.levels[l])
    {
      assert base[l] == [] && Members(base[l]) == {};
      EditsAreNew(edits, st, l);
      if l > 0 {
        DisjointIsApart(st.levels[l]);
        SortedIsUnique(levels[l], st.levels[l]);
      }
    }
  }
}
