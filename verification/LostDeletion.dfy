/** A run of the store at whose end one compaction brings a deleted value back.

    SetupOtherInputs closes only the inputs of the upper level under AddBoundaryInputs (db/version_set.cc:1407 and
    :1422).  Here level 2 ends up with two neighbours that share user key 2: first holds its deletion, second the
    value that the deletion hides, because an output file was full in between while a snapshot still read the value.
    Once the snapshot is gone, a compaction of level 1 picks first and not second.  Every table goes to the level that
    PickLevelForMemTableOutput sends it to, and both compactions are automatic. */
module LostDeletion {
  import opened InternalKeys
  import opened VersionSet
  import opened Compaction
  import opened OutputCuts
  import opened Store
  import opened StoreRuns

  function A(): Entry { Entry(1, 1, Put([97])) }
  function C(): Entry { Entry(1, 2, Put([99])) }
  function V(): Entry { Entry(2, 3, Put([118])) }
  function D(): Entry { Entry(2, 4, Delete) }
  function B(): Entry { Entry(1, 5, Put([98])) }

  lemma InOrder()
    ensures Sorted([C(), D(), V()]) && Sorted([C(), D()]) && Sorted([C(), A(), D(), V()])
  {
  }

  function Older(): File { File(5, 2_000_000, [A()]) }
  function Whole(): File { InOrder(); File(7, 2_100_010, [C(), D(), V()]) }
  function First(): File { InOrder(); File(8, 2_100_000, [C(), D()]) }
  function Second(): File { File(9, 10, [V()]) }
  function Upper(): File { File(11, 2_000_000, [B()]) }
  function Output(): File { File(12, 2_000_000, [B()]) }

  function Levels(one: seq<File>, two: seq<File>): seq<seq<File>> { [[], one, two, [], [], [], []] }

  function Batch3(): seq<(int, Op)> { [(1, Put([99])), (2, Put([118]))] }
  function Job1(): Job { Job(1, [Whole()], [Older()], 3, Levels([Whole()], [Older()]), true) }
  function Job2(): Job { Job(1, [Upper()], [First()], 5, Levels([Upper()], [First(), Second()]), true) }

  function H1(): map<nat, Entry> { map[1 := A()] }
  function H3(): map<nat, Entry> { map[1 := A(), 2 := C(), 3 := V()] }
  function H4(): map<nat, Entry> { map[1 := A(), 2 := C(), 3 := V(), 4 := D()] }
  function H5(): map<nat, Entry> { map[1 := A(), 2 := C(), 3 := V(), 4 := D(), 5 := B()] }

  function Log4(log: seq<seq<Entry>>): map<nat, seq<seq<Entry>>> { map[3 := [[A()]], 4 := log] }
  function Log6(log: seq<seq<Entry>>): map<nat, seq<seq<Entry>>> {
    map[3 := [[A()]], 4 := [[C(), V()], [D()]], 6 := log]
  }
  function Log10(): map<nat, seq<seq<Entry>>> { map[3 := [[A()]], 4 := [[C(), V()], [D()]], 6 := [[B()]], 10 := []] }

  /** The state after the first i steps. */
  function After(i: nat): State {
    match i
    case 0 => Init(3)
    case 1 => State([A()], None, Levels([], []), [], 1, 4, None, map[3 := [[A()]]], 3, 3, 0, 4, H1(), 0)
    case 2 => State([], Some([A()]), Levels([], []), [], 1, 5, None, Log4([]), 3, 4, 0, 4, H1(), 0)
    case 3 => State([], None, Levels([], [Older()]), [], 1, 6, None, Log4([]), 4, 4, 1, 6, H1(), 1)
    case 4 => State([C(), V()], None, Levels([], [Older()]), [], 3, 6, None, Log4([[C(), V()]]), 4, 4, 1, 6, H3(), 1)
    case 5 => State([C(), V()], None, Levels([], [Older()]), [3], 3, 6, None, Log4([[C(), V()]]), 4, 4, 1, 6, H3(), 1)
    case 6 =>
      State([C(), D(), V()], None, Levels([], [Older()]), [3], 4, 6, None, Log4([[C(), V()], [D()]]), 4, 4, 1, 6, H4(),
            1)
    case 7 => State([], Some([C(), D(), V()]), Levels([], [Older()]), [3], 4, 7, None, Log6([]), 4, 6, 1, 6, H4(), 1)
    case 8 => State([], None, Levels([Whole()], [Older()]), [3], 4, 8, None, Log6([]), 6, 6, 4, 8, H4(), 4)
    case 9 => State([], None, Levels([Whole()], [Older()]), [3], 4, 8, Some(Job1()), Log6([]), 6, 6, 4, 8, H4(), 4)
    case 10 => State([], None, Levels([], [First(), Second()]), [3], 4, 10, None, Log6([]), 6, 6, 4, 10, H4(), 4)
    case 11 => State([], None, Levels([], [First(), Second()]), [], 4, 10, None, Log6([]), 6, 6, 4, 10, H4(), 4)
    case 12 => State([B()], None, Levels([], [First(), Second()]), [], 5, 10, None, Log6([[B()]]), 6, 6, 4, 10, H5(), 4)
    case 13 => State([], Some([B()]), Levels([], [First(), Second()]), [], 5, 11, None, Log10(), 6, 10, 4, 10, H5(), 4)
    case 14 => State([], None, Levels([Upper()], [First(), Second()]), [], 5, 12, None, Log10(), 10, 10, 5, 12, H5(), 5)
    case 15 =>
      State([], None, Levels([Upper()], [First(), Second()]), [], 5, 12, Some(Job2()), Log10(), 10, 10, 5, 12, H5(), 5)
    case _ => State([], None, Levels([], [Output(), Second()]), [], 5, 13, None, Log10(), 10, 10, 5, 13, H5(), 5)
  }

  function StepAt(i: nat): Step {
    match i
    case 0 => Write([(1, Put([97]))])
    case 1 => SwitchMemtable
    case 2 => Flush(2, [Older()], Older())
    case 3 => Write(Batch3())
    case 4 => GetSnapshot
    case 5 => Write([(2, Delete)])
    case 6 => SwitchMemtable
    case 7 => Flush(1, [Whole()], Whole())
    case 8 => StartCompaction(Job1(), 1, 2)
    case 9 => FinishCompaction([C(), A(), D(), V()], [First(), Second()], [], [First(), Second()])
    case 10 => ReleaseSnapshot(0)
    case 11 => Write([(1, Put([98]))])
    case 12 => SwitchMemtable
    case 13 => Flush(1, [Upper()], Upper())
    case 14 => StartCompaction(Job2(), 1, 1)
    case _ => FinishCompaction([B(), C(), D()], [Output()], [], [Output(), Second()])
  }

  // ---------------------------------------------------------------- writes

  lemma WriteOne(mem: seq<Entry>, hist: map<nat, Entry>, x: Entry)
    ensures InsertAll(mem, [x]) == Insert(mem, x) && Record(hist, [x]) == hist[x.sn := x]
  {
    assert [x][..0] == [];
  }

  lemma WriteTwo(mem: seq<Entry>, hist: map<nat, Entry>, x: Entry, y: Entry)
    ensures InsertAll(mem, [x, y]) == Insert(Insert(mem, x), y) && Record(hist, [x, y]) == hist[x.sn := x][y.sn := y]
  {
    assert [x, y][..1] == [x];
    WriteOne(mem, hist, x);
  }

  lemma Write0()
    ensures Allowed(After(0), After(1), StepAt(0))
  {
    assert BatchEntries([(1, Put([97]))], 1) == [A()];
    WriteOne([], map[], A());
    assert After(0).levels == Levels([], []);
    assert After(0).logs[3] + [[A()]] == [[A()]];
    assert After(0).logs[3 := [[A()]]] == After(1).logs;
    assert map[][1 := A()] == H1();
  }

  lemma Write3()
    ensures Allowed(After(3), After(4), StepAt(3))
  {
    assert BatchEntries(Batch3(), 2) == [C(), V()];
    WriteTwo([], H1(), C(), V());
    assert Insert(Insert([], C()), V()) == [C(), V()];
    assert After(3).logs[4] + [[C(), V()]] == [[C(), V()]];
    assert After(3).logs[4 := [[C(), V()]]] == After(4).logs;
    assert H1()[2 := C()][3 := V()] == H3();
  }

  lemma Write5()
    ensures Allowed(After(5), After(6), StepAt(5))
  {
    assert BatchEntries([(2, Delete)], 4) == [D()];
    WriteOne([C(), V()], H3(), D());
    assert [C(), V()][1..] == [V()];
    assert Insert([V()], D()) == [D()] + [V()];
    assert Insert([C(), V()], D()) == [C(), D(), V()];
    assert H3()[4 := D()] == H4();
    assert After(5).logs[4] + [[D()]] == [[C(), V()], [D()]];
    assert After(5).logs[4 := [[C(), V()], [D()]]] == After(6).logs;
  }

  lemma Write11()
    ensures Allowed(After(11), After(12), StepAt(11))
  {
    assert BatchEntries([(1, Put([98]))], 5) == [B()];
    WriteOne([], H4(), B());
    assert H4()[5 := B()] == H5();
    assert After(11).logs[6] + [[B()]] == [[B()]];
    assert After(11).logs[6 := [[B()]]] == After(12).logs;
  }

  lemma Switches()
    ensures Allowed(After(1), After(2), StepAt(1)) && Allowed(After(6), After(7), StepAt(6))
    ensures Allowed(After(12), After(13), StepAt(12))
  {
  }

  lemma Snapshots()
    ensures Allowed(After(4), After(5), StepAt(4)) && Allowed(After(10), After(11), StepAt(10))
  {
  }

  // ---------------------------------------------------------------- flushes

  /** With a bound of ten files of 2 MB, which is the default. */
  const BOUND: nat := 20_971_520

  lemma NoFiles(lo: int, hi: int)
    ensures NothingIn([], lo, hi) && Overlapping([], Some(lo), Some(hi)) == [] && TotalFileSize([]) == 0
  {
  }

  /** Nothing is in the way of the first table. */
  lemma OlderGoesToLevelTwo()
    ensures StopsAt(Levels([], []), 1, 1, BOUND, 2)
  {
    NoFiles(1, 1);
  }

  lemma OneOverlaps(f: File, lo: int, hi: int)
    requires Overlaps(f, Some(lo), Some(hi))
    ensures Overlapping([f], Some(lo), Some(hi)) == [f] && TotalFileSize([f]) == f.size && !NothingIn([f], lo, hi)
  {
    assert OverlappingUpTo([f], 1, Some(lo), Some(hi)) == [f];
    assert f in [f];
  }

  /** The older table is in the way of the second one. */
  lemma WholeStopsAtLevelOne()
    ensures StopsAt(Levels([], [Older()]), 1, 2, BOUND, 1)
  {
    NoFiles(1, 2);
    OneOverlaps(Older(), 1, 2);
  }

  lemma UpperStopsAtLevelOne()
    ensures StopsAt(Levels([], [First(), Second()]), 1, 1, BOUND, 1)
  {
    NoFiles(1, 1);
    SecondIsNotPicked();
    OneOverlaps(First(), 1, 1);
    assert First() in [First(), Second()];
  }

  lemma Flush2()
    ensures Allowed(After(2), After(3), StepAt(2))
  {
    var es := [A()];
    assert es[..0] == [];
    assert MaxSn(es, 0) == 1;
    assert After(2).levels[2 := [Older()]] == Levels([], [Older()]);
    OlderGoesToLevelTwo();
    assert StopsAt(After(2).levels, Older().Smallest().key, Older().Largest().key, BOUND, 2);
  }

  lemma ThreeAreNewest()
    ensures MaxSn([C(), D(), V()], 1) == 4
  {
    var es := [C(), D(), V()];
    assert es[..2] == [C(), D()] && es[..2][..1] == [C()] && es[..1][..0] == [];
  }

  lemma NothingInTheWay(f: File)
    ensures NothingOverlaps(Levels([], [Older()])[..2], f) && Saved([], {}, [f], [f]) && Disjoint([f])
  {
    assert Levels([], [Older()])[..2] == [[], []];
  }

  lemma Flush7()
    ensures Allowed(After(7), After(8), StepAt(7))
  {
    hide StopsAt, H4, Log6, NothingOverlaps, Saved, Disjoint;
    InOrder();
    ThreeAreNewest();
    NothingInTheWay(Whole());
    assert After(7).levels[1 := [Whole()]] == Levels([Whole()], [Older()]);
    WholeStopsAtLevelOne();
    assert StopsAt(After(7).levels, Whole().Smallest().key, Whole().Largest().key, BOUND, 1);
  }

  lemma Flush13()
    ensures Allowed(After(13), After(14), StepAt(13))
  {
    hide StopsAt, H5, Log10;
    var es := [B()];
    assert es[..0] == [];
    assert MaxSn(es, 4) == 5;
    assert After(13).levels[1 := [Upper()]] == Levels([Upper()], [First(), Second()]);
    UpperStopsAtLevelOne();
    assert StopsAt(After(13).levels, Upper().Smallest().key, Upper().Largest().key, BOUND, 1);
  }

  // ---------------------------------------------------------------- the first compaction

  lemma OlderIsPicked()
    ensures Overlapping([Older()], Some(1), Some(2)) == [Older()]
    ensures UserRange([Whole()], 1, 2) && Connected([Whole()] + [Older()])
  {
    OneOverlaps(Older(), 1, 2);
    InOrder();
    assert Whole() in [Whole()] && Whole().Smallest() == C() && Whole().Largest() == V();
    assert IsSmallest([Whole()], C()) && IsLargest([Whole()], V());
    assert Whole().Covers(1) && Whole().Covers(2) && Whole() in [Whole()] + [Older()];
  }

  lemma Start8()
    ensures Allowed(After(8), After(9), StepAt(8))
  {
    hide Connected, UserRange, Overlapping;
    OlderIsPicked();
  }

  lemma InputsOfFirst(e: Entry)
    ensures e in [C(), A(), D(), V()] <==> IsInput(Job1(), e)
  {
    InOrder();
    assert Whole() in [Whole()] && Older() in [Older()];
  }

  /** The older value of key 1 is hidden; level 3 and below are empty, but the snapshot still needs the rest. */
  lemma SurvivorsOfFirst(e: Entry)
    ensures Survives([C(), A(), D(), V()], 3, Job1().version, 3, e) <==> e == C() || e == D() || e == V()
  {
    var input := [C(), A(), D(), V()];
    assert Hidden(input, 3, A()) by { assert C() in input; }
  }

  lemma AllButOneSurvive()
    ensures OutputsHold(Job1(), [C(), A(), D(), V()], [First(), Second()])
  {
    hide IsInput, Survives;
    InOrder();
    assert First() in [First(), Second()] && Second() in [First(), Second()];
    forall e ensures e in [C(), A(), D(), V()] <==> IsInput(Job1(), e) { InputsOfFirst(e); }
    forall e ensures InFiles([First(), Second()], e) <==> Survives([C(), A(), D(), V()], 3, Job1().version, 3, e) {
      SurvivorsOfFirst(e);
    }
  }

  lemma NothingDeletedIsDropped()
    ensures DropSafe(After(9), Job1())
  {
    forall n | IsInput(Job1(), n) ensures !ObsoleteDeletion(3, Job1().version, 3, n) {}
  }

  lemma LevelsAreSplit()
    ensures Saved([Whole()], Numbers([Whole()]), [], []) && Numbers([]) == {}
    ensures Saved([Older()], Numbers([Older()]), [First(), Second()], [First(), Second()])
    ensures Disjoint([First(), Second()])
  {
    assert Whole() in [Whole()] && Older() in [Older()];
    assert Numbers([Whole()]) == {7} && Numbers([Older()]) == {5};
  }

  lemma FilesOnTwoLevels(st: State, one: seq<File>, two: seq<File>)
    requires st.levels == Levels(one, two)
    ensures forall l, g :: 0 <= l < |st.levels| && g in st.levels[l] ==> g in one || g in two
  {
  }

  lemma SplitIsNumbered()
    ensures OutputsNumbered(After(9), [First(), Second()], 10)
  {
    hide Levels;
    var st := After(9);
    FilesOnTwoLevels(st, [Whole()], [Older()]);
    assert Whole().number == 7 && Older().number == 5 && First().number == 8 && Second().number == 9;
    assert st.nextFile == 8;
    forall l, g | 0 <= l < |st.levels| && g in st.levels[l] ensures g.number == 7 || g.number == 5 {
      assert g in [Whole()] || g in [Older()];
    }
  }

  lemma Finish9()
    ensures Allowed(After(9), After(10), StepAt(9))
  {
    hide OutputsHold, OutputsNumbered, Saved, DropSafe, Numbers;
    AllButOneSurvive();
    NothingDeletedIsDropped();
    LevelsAreSplit();
    SplitIsNumbered();
    assert After(9).levels[1 := []][2 := [First(), Second()]] == Levels([], [First(), Second()]);
  }

  /** Values of almost 2 MB under key 1; key 2 is a long string, so that a block is full and written when its deletion
      has been added; and that makes the file full. */
  function SizeOf(es: seq<Entry>): nat {
    if |es| == 0 then 0
    else
      SizeOf(es[..|es| - 1]) +
      if es[|es| - 1].key == 1 then 2_000_000 else if es[|es| - 1].op.Delete? then 100_000 else 10
  }

  const MAX_OUTPUT_FILE_SIZE: nat := 2_097_152

  lemma SizesAreThose()
    ensures forall f :: f in [Older(), Whole(), First(), Second(), Upper(), Output()] ==> f.size == SizeOf(f.data)
  {
    InOrder();
    assert [C(), D(), V()][..2] == [C(), D()] && [C(), D()][..1] == [C()] && [C()][..0] == [];
    assert [A()][..0] == [] && [B()][..0] == [] && [V()][..0] == [];
  }

  /** The outputs of the first compaction are cut where its loop cuts them: level 3 is empty, and the first table is
      full once it holds the deletion. */
  lemma FirstIsFullAfterTheDeletion()
    ensures RightlyCut([[C(), D()], [V()]], [C(), A(), D(), V()], Cut([], BOUND, SizeOf, MAX_OUTPUT_FILE_SIZE))
    ensures forall f :: f in [Older(), Whole(), First(), Second(), Upper(), Output()] ==> f.size == SizeOf(f.data)
  {
    hide StopsUpTo;
    SizesAreThose();
    InOrder();
    var input, cut := [C(), A(), D(), V()], Cut([], BOUND, SizeOf, MAX_OUTPUT_FILE_SIZE);
    var t: Table := [C(), D()];
    assert t[..1] == [C()] && [C()][..0] == [];
    assert cut.Full(t) && !cut.Full([C()]);
    assert FullAtMostAtEnd(t, cut) && FullAtMostAtEnd([V()], cut);
    forall e ensures Group(input, cut, e) == 0 { NeverStopped(input, cut, |input|, e); }
  }

  // ---------------------------------------------------------------- the second compaction

  lemma SecondIsNotPicked()
    ensures Overlapping([First(), Second()], Some(1), Some(1)) == [First()]
  {
    var two := [First(), Second()];
    assert OverlappingUpTo(two, 1, Some(1), Some(1)) == [First()];
    assert OverlappingUpTo(two, 2, Some(1), Some(1)) == [First()];
  }

  lemma UpperIsOneKey()
    ensures UserRange([Upper()], 1, 1) && Connected([Upper()] + [First()])
  {
    assert Upper() in [Upper()] && Upper().Smallest() == B() && Upper().Largest() == B();
    assert IsSmallest([Upper()], B()) && IsLargest([Upper()], B());
    assert First().Covers(1) && First() in [Upper()] + [First()];
  }

  lemma Start14()
    ensures Allowed(After(14), After(15), StepAt(14))
  {
    hide Connected, UserRange, Overlapping;
    SecondIsNotPicked();
    UpperIsOneKey();
  }

  lemma EachStepIsAllowed(i: nat)
    requires i < 15
    ensures Allowed(After(i), After(i + 1), StepAt(i))
  {
    hide Allowed;
    match i
    case 0 => Write0();
    case 1 => Switches();
    case 2 => Flush2();
    case 3 => Write3();
    case 4 => Snapshots();
    case 5 => Write5();
    case 6 => Switches();
    case 7 => Flush7();
    case 8 => Start8();
    case 9 => Finish9();
    case 10 => Snapshots();
    case 11 => Write11();
    case 12 => Switches();
    case 13 => Flush13();
    case _ => Start14();
  }

  lemma OutputHoldsSurvivors()
    ensures OutputsHold(Job2(), [B(), C(), D()], [Output()])
  {
    InOrder();
    var input := [B(), C(), D()];
    assert First() in [First()] && Upper() in [Upper()] && Output() in [Output()];
    forall e ensures e in input <==> IsInput(Job2(), e) {}
    assert B().op.Put? && B() in input;
    assert Hidden(input, 5, C());
    assert ObsoleteDeletion(5, Job2().version, 3, D());
    assert !Hidden(input, 5, B());
    forall e ensures InFiles([Output()], e) <==> Survives(input, 5, Job2().version, 3, e) {}
  }

  lemma LevelsAreSaved()
    ensures Saved([Upper()], Numbers([Upper()]), [], [])
    ensures Saved([First(), Second()], Numbers([First()]), [Output()], [Output(), Second()])
    ensures Disjoint([Output(), Second()]) && Disjoint([])
  {
    assert First() in [First()] && Upper() in [Upper()];
    assert Numbers([First()]) == {8} && Numbers([Upper()]) == {11};
  }

  lemma OutputIsNumbered()
    ensures OutputsNumbered(After(15), [Output()], 13)
  {
    forall l, g | 0 <= l < 7 && g in After(15).levels[l] ensures g.number != 12 {}
  }

  /** The compaction that ends the run is the one its rules prescribe: it keeps B, drops C as hidden and D as an
      obsolete deletion, and leaves Second alone. */
  lemma LastStepIsACompaction()
    ensures FinishStep(After(15), After(16), [B(), C(), D()], [Output()], [], [Output(), Second()])
  {
    hide OutputsHold, OutputsNumbered, Saved, Numbers, Disjoint;
    OutputHoldsSurvivors();
    OutputIsNumbered();
    LevelsAreSaved();
    assert After(15).levels[1 := []][2 := [Output(), Second()]] == Levels([], [Output(), Second()]);
  }

  // ---------------------------------------------------------------- what readers find

  /** What two levels hold. */
  lemma StoredInLevels(st: State, one: seq<File>, two: seq<File>, x: Entry)
    requires st.mem == [] && st.imm.None? && st.levels == Levels(one, two)
    ensures Stored(st, x) <==> InFiles(one, x) || InFiles(two, x)
  {
    if InFiles(one, x) { assert At(st, 3, x); }
    if InFiles(two, x) { assert At(st, 4, x); }
    if Stored(st, x) {
      var d: nat :| At(st, d, x);
      assert d == 3 || d == 4;
    }
  }

  lemma StoredBefore(x: Entry)
    ensures Stored(After(15), x) <==> x == C() || x == V() || x == D() || x == B()
  {
    StoredInLevels(After(15), [Upper()], [First(), Second()], x);
    assert Upper() in [Upper()] && First() in [First(), Second()] && Second() in [First(), Second()];
  }

  lemma StoredAfter(x: Entry)
    ensures Stored(After(16), x) <==> x == V() || x == B()
  {
    StoredInLevels(After(16), [], [Output(), Second()], x);
    assert Output() in [Output(), Second()] && Second() in [Output(), Second()];
  }

  lemma DeletionIsLost()
    ensures Newest(After(15), 2, 5, D()) && Newest(After(16), 2, 5, V())
    ensures Reappears(After(15), Job2(), D(), V())
  {
    hide Stored;
    forall x ensures Stored(After(15), x) <==> x == C() || x == V() || x == D() || x == B() { StoredBefore(x); }
    forall x ensures Stored(After(16), x) <==> x == V() || x == B() { StoredAfter(x); }
    assert First() in Job2().in1 && IsInput(Job2(), D()) && !IsInput(Job2(), V());
    assert Bound(After(15)) == 5;
  }

  function States(): seq<State> { seq(17, i requires 0 <= i => After(i)) }

  function Steps(): seq<Step> { seq(16, i requires 0 <= i => StepAt(i)) }

  lemma TheRun()
    ensures Behaviour(States(), Steps()) && Run(States()[..16], Steps()[..15])
  {
    hide After, StepAt, Allowed, FinishStep;
    forall i | 0 <= i < 15 ensures Allowed(States()[i], States()[i + 1], Steps()[i]) { EachStepIsAllowed(i); }
    assert States()[0] == Init(3) by { FirstState(); }
    assert StoreRuns.Taken(States()[15], States()[16], Steps()[15]) by { LastStepIsTaken(); }
    forall i | 0 <= i < 16 ensures StoreRuns.Taken(States()[i], States()[i + 1], Steps()[i]) {
      if i < 15 { AllowedIsTaken(States()[i], States()[i + 1], Steps()[i]); }
    }
  }

  lemma LastStepIsTaken()
    ensures StoreRuns.Taken(After(15), After(16), StepAt(15))
  {
    hide After, FinishStep;
    LastStepIsACompaction();
  }

  lemma AllowedIsTaken(st: State, st': State, step: Step)
    requires Allowed(st, st', step)
    ensures StoreRuns.Taken(st, st', step)
  {
    hide StoreRuns.Taken;
  }

  lemma FirstState()
    ensures After(0) == Init(3)
  {
  }

  lemma RecordedAfter()
    ensures Recorded(After(16))
  {
    forall d, e | At(After(16), d, e) ensures e.sn in H5() && H5()[e.sn] == e {
      assert Stored(After(16), e);
      StoredAfter(e);
    }
  }

  lemma KeyTwoIsRead()
    ensures Answers(After(15), 2, 5, None) && Answers(After(16), 2, 5, Some([118])) && !Answers(After(16), 2, 5, None)
    ensures Reappears(After(15), Job2(), D(), V())
  {
    DeletionIsLost();
    RecordedAfter();
    NoneIsWrong(After(16), 2, 5, V());
  }

  /** Key 2 was deleted by the third write.  Before the last compaction a reader at the last sequence number finds
      nothing under it; after it, the same reader finds the value again. */
  lemma ADeletedKeyComesBack()
    ensures Behaviour(States(), Steps()) && Run(States()[..16], Steps()[..15])
    ensures Answers(States()[15], 2, States()[15].lastSeq, None)
    ensures Answers(States()[16], 2, States()[16].lastSeq, Some([118]))
    ensures !Answers(States()[16], 2, States()[16].lastSeq, None)
    ensures Reappears(States()[15], Job2(), D(), V())
  {
    hide Answers, Reappears, Run, Behaviour;
    TheRun();
    KeyTwoIsRead();
  }
}
