/** A run of the store at whose end the outputs of a manual compaction do not fit on their level.

    The inputs of a manual compaction may leave gaps between them, and CompactMemTable runs in the middle of
    DoCompactionWork (db/db_impl.cc:907-914).  Here a compaction of level 1 has the inputs {1} and {9}, and while it
    runs, PickLevelForMemTableOutput sends a table {5} to level 2.  One output then reaches from 1 to 9, over the table
    that has come in between. */
module FlushedBetween {
  import opened InternalKeys
  import opened VersionSet
  import opened Compaction
  import opened OutputCuts
  import opened Store
  import opened StoreRuns

  function L(): Entry { Entry(1, 1, Put([97])) }
  function R(): Entry { Entry(9, 2, Put([98])) }
  function M(): Entry { Entry(5, 3, Put([99])) }

  function Left(): File { File(5, 100, [L()]) }
  function Right(): File { File(6, 100, [R()]) }
  function Middle(): File { File(9, 100, [M()]) }
  function Both(): File { File(10, 200, [L(), R()]) }

  function Levels(zero: seq<File>, one: seq<File>, two: seq<File>): seq<seq<File>> { [zero, one, two, [], [], [], []] }

  function J(): Job { Job(1, [Left(), Right()], [], 2, Levels([], [Left(), Right()], []), false) }

  function H1(): map<nat, Entry> { map[1 := L()] }
  function H2(): map<nat, Entry> { map[1 := L(), 2 := R()] }
  function H3(): map<nat, Entry> { map[1 := L(), 2 := R(), 3 := M()] }

  function Log7(log: seq<seq<Entry>>): map<nat, seq<seq<Entry>>> { map[3 := [[L()], [R()]], 7 := log] }
  function Log8(): map<nat, seq<seq<Entry>>> { map[3 := [[L()], [R()]], 7 := [[M()]], 8 := []] }

  /** The state after the first i steps. */
  function After(i: nat): State {
    match i
    case 0 => Init(3)
    case 1 => State([L()], None, Levels([], [], []), [], 1, 4, None, map[3 := [[L()]]], 3, 3, 0, 4, H1(), 0)
    case 2 => State([L(), R()], None, Levels([], [], []), [], 2, 4, None, map[3 := [[L()], [R()]]], 3, 3, 0, 4, H2(), 0)
    case 3 => State([], None, Levels([Left(), Right()], [], []), [], 2, 8, None, Log7([]), 7, 7, 2, 8, H2(), 2)
    case 4 => State([], None, Levels([Right()], [Left()], []), [], 2, 8, None, Log7([]), 7, 7, 2, 8, H2(), 2)
    case 5 => State([], None, Levels([], [Left(), Right()], []), [], 2, 8, None, Log7([]), 7, 7, 2, 8, H2(), 2)
    case 6 => State([], None, Levels([], [Left(), Right()], []), [], 2, 8, Some(J()), Log7([]), 7, 7, 2, 8, H2(), 2)
    case 7 =>
      State([M()], None, Levels([], [Left(), Right()], []), [], 3, 8, Some(J()), Log7([[M()]]), 7, 7, 2, 8, H3(), 2)
    case 8 =>
      State([], Some([M()]), Levels([], [Left(), Right()], []), [], 3, 9, Some(J()), Log8(), 7, 8, 2, 8, H3(), 2)
    case _ =>
      State([], None, Levels([], [Left(), Right()], [Middle()]), [], 3, 10, Some(J()), Log8(), 8, 8, 3, 10, H3(), 3)
  }

  function StepAt(i: nat): Step {
    match i
    case 0 => Write([(1, Put([97]))])
    case 1 => Write([(9, Put([98]))])
    case 2 => Crash(2, 2, [Left(), Right()], [Left(), Right()])
    case 3 => TrivialMove(0, Left(), 1, 1, [Right()], [Left()])
    case 4 => TrivialMove(0, Right(), 9, 9, [], [Left(), Right()])
    case 5 => StartCompaction(J(), 1, 9)
    case 6 => Write([(5, Put([99]))])
    case 7 => SwitchMemtable
    case _ => Flush(2, [Middle()], Middle())
  }

  // ---------------------------------------------------------------- the steps

  lemma WriteOne(mem: seq<Entry>, hist: map<nat, Entry>, x: Entry)
    ensures InsertAll(mem, [x]) == Insert(mem, x) && Record(hist, [x]) == hist[x.sn := x]
  {
    assert [x][..0] == [];
  }

  lemma Write0()
    ensures Allowed(After(0), After(1), StepAt(0))
  {
    assert BatchEntries([(1, Put([97]))], 1) == [L()];
    WriteOne([], map[], L());
    assert After(0).levels == Levels([], [], []);
    assert After(0).logs[3] + [[L()]] == [[L()]];
    assert After(0).logs[3 := [[L()]]] == After(1).logs;
    assert map[][1 := L()] == H1();
  }

  lemma Write1()
    ensures Allowed(After(1), After(2), StepAt(1))
  {
    assert BatchEntries([(9, Put([98]))], 2) == [R()];
    WriteOne([L()], H1(), R());
    assert Insert([L()], R()) == [L(), R()];
    assert H1()[2 := R()] == H2();
    assert After(1).logs[3] + [[R()]] == [[L()], [R()]];
    assert After(1).logs[3 := [[L()], [R()]]] == After(2).logs;
  }

  lemma TwoRecords()
    ensures After(2).logs[3][..2] == [[L()], [R()]]
    ensures forall e :: Replays(After(2), 2, e) <==> e == L() || e == R()
  {
    var log := After(2).logs[3][..2];
    assert log == [[L()], [R()]];
    assert L() in log[0] && R() in log[1];
    assert After(2).imm.None?;
  }

  /** Replay makes two tables of the two records. */
  lemma TwoTables()
    ensures ReplayedFiles(After(2), 2, [Left(), Right()], 7) && IsCut(After(2), 2, 2)
  {
    hide Replays;
    TwoRecords();
    assert Left() in [Left(), Right()] && Right() in [Left(), Right()];
    forall e ensures InFiles([Left(), Right()], e) <==> Replays(After(2), 2, e) {}
  }

  lemma Crash2()
    ensures Allowed(After(2), After(3), StepAt(2))
  {
    hide ReplayedFiles, IsCut, H2;
    TwoTables();
    assert UpTo(H2(), 2) == H2() by { KeptHistory(); }
    assert After(2).levels[0 := [Left(), Right()]] == After(3).levels;
    assert Torn(After(2), 2)[7 := []] == Log7([]) by { TwoRecords(); }
  }

  lemma KeptHistory()
    ensures UpTo(H2(), 2) == H2()
  {
  }

  lemma OneFile(f: File, e: Entry)
    requires f.data == [e]
    ensures UserRange([f], e.key, e.key) && Connected([f] + [])
  {
    assert f in [f] && f.Smallest() == e && f.Largest() == e;
    assert IsSmallest([f], e) && IsLargest([f], e);
    assert [f] + [] == [f];
  }

  lemma NoFiles(lo: int, hi: int)
    ensures Overlapping([], Some(lo), Some(hi)) == []
  {
  }

  lemma LeftIsFarFromNine()
    ensures Overlapping([Left()], Some(9), Some(9)) == []
  {
    assert OverlappingUpTo([Left()], 1, Some(9), Some(9)) == [];
  }

  lemma Move3()
    ensures Allowed(After(3), After(4), StepAt(3))
  {
    hide UserRange, Connected, Overlapping, H2, Log7;
    OneFile(Left(), L());
    NoFiles(1, 1);
    assert After(3).levels[0 := [Right()]][1 := [Left()]] == After(4).levels;
  }

  lemma Move4()
    ensures Allowed(After(4), After(5), StepAt(4))
  {
    hide UserRange, Connected, Overlapping, H2, Log7;
    OneFile(Right(), R());
    LeftIsFarFromNine();
    assert After(4).levels[0 := []][1 := [Left(), Right()]] == After(5).levels;
  }

  lemma Start5()
    ensures Allowed(After(5), After(6), StepAt(5))
  {
    hide H2, Log7;
    var in0 := [Left(), Right()];
    assert Left() in in0 && Right() in in0 && Left().Smallest() == L() && Right().Largest() == R();
    assert IsSmallest(in0, L()) && IsLargest(in0, R());
    NoFiles(1, 9);
  }

  lemma Write6()
    ensures Allowed(After(6), After(7), StepAt(6))
  {
    assert BatchEntries([(5, Put([99]))], 3) == [M()];
    WriteOne([], H2(), M());
    assert H2()[3 := M()] == H3();
    assert After(6).logs[7] + [[M()]] == [[M()]];
    assert After(6).logs[7 := [[M()]]] == After(7).logs;
  }

  lemma Switch7()
    ensures Allowed(After(7), After(8), StepAt(7))
  {
    hide Levels, J, H3;
    assert Log7([[M()]])[8 := []] == Log8();
  }

  const BOUND: nat := 20_971_520

  /** Nothing is in the way of key 5 above level 3. */
  lemma MiddleGoesToLevelTwo()
    ensures StopsAt(Levels([], [Left(), Right()], []), 5, 5, BOUND, 2)
  {
    assert Overlapping([], Some(5), Some(5)) == [];
  }

  lemma Flush8()
    ensures Allowed(After(8), After(9), StepAt(8))
  {
    var es := [M()];
    assert es[..0] == [];
    assert MaxSn(es, 2) == 3;
    assert After(8).levels[2 := [Middle()]] == After(9).levels;
    MiddleGoesToLevelTwo();
    assert StopsAt(After(8).levels, Middle().Smallest().key, Middle().Largest().key, BOUND, 2);
  }

  lemma EachStepIsAllowed(i: nat)
    requires i < 9
    ensures Allowed(After(i), After(i + 1), StepAt(i))
  {
    hide Allowed;
    match i
    case 0 => Write0();
    case 1 => Write1();
    case 2 => Crash2();
    case 3 => Move3();
    case 4 => Move4();
    case 5 => Start5();
    case 6 => Write6();
    case 7 => Switch7();
    case _ => Flush8();
  }

  // ---------------------------------------------------------------- the outputs

  lemma BothHoldsTheInputs()
    ensures OutputsHold(J(), [L(), R()], [Both()])
  {
    var input := [L(), R()];
    assert Left() in J().in0 && Right() in J().in0 && Both() in [Both()];
    forall e ensures e in input <==> IsInput(J(), e) {}
    forall e ensures InFiles([Both()], e) <==> Survives(input, 2, J().version, 3, e) {}
  }

  lemma BothIsNumbered()
    ensures OutputsNumbered(After(9), [Both()], 11)
  {
    forall l, g | 0 <= l < 7 && g in After(9).levels[l] ensures g.number != 10 {}
  }

  function SizeOf(es: seq<Entry>): nat { 100 * |es| }

  const MAX_OUTPUT_FILE_SIZE: nat := 2_097_152

  /** Two small entries, nothing on level 3: there is no reason to cut. */
  lemma BothIsRightlyCut()
    ensures RightlyCut([[L(), R()]], [L(), R()], Cut([], BOUND, SizeOf, MAX_OUTPUT_FILE_SIZE))
  {
    hide StopsUpTo;
    var input, cut := [L(), R()], Cut([], BOUND, SizeOf, MAX_OUTPUT_FILE_SIZE);
    forall e ensures Group(input, cut, e) == 0 { NeverStopped(input, cut, |input|, e); }
  }

  function States(): seq<State> { seq(10, i requires 0 <= i => After(i)) }

  function Steps(): seq<Step> { seq(9, i requires 0 <= i => StepAt(i)) }

  lemma TheRun()
    ensures Run(States(), Steps())
  {
    hide After, StepAt, Allowed;
    forall i | 0 <= i < 9 ensures Allowed(States()[i], States()[i + 1], Steps()[i]) { EachStepIsAllowed(i); }
    assert States()[0] == Init(3) by { FirstState(); }
  }

  lemma FirstState()
    ensures After(0) == Init(3)
  {
  }

  lemma LevelTwoHasMiddle()
    ensures After(9).levels[2] == [Middle()] && After(9).job == Some(J()) && !J().auto && J().level == 1
    ensures !NothingSpanned([Middle()], J(), [Both()])
  {
    assert Middle() in [Middle()] && Both() in [Both()];
    assert Spans(Both(), Middle());
  }

  lemma NoWayToFinish(st': State, out0: seq<File>, out1: seq<File>)
    ensures !FinishStep(After(9), st', [L(), R()], [Both()], out0, out1)
  {
    hide GoodOutputs, NothingSpanned;
    LevelTwoHasMiddle();
    assert Middle().number != Both().number;
    if FinishStep(After(9), st', [L(), R()], [Both()], out0, out1) {
      SortedMeansNothingSpanned([Middle()], J(), [Both()], out1);
    }
  }

  /** The compaction writes one table, as its rules prescribe, and there is no way to put that table on level 2 such
      that the level is sorted: the step that would finish the compaction does not exist. */
  lemma OutputsDoNotFit()
    ensures Run(States(), Steps())
    ensures var st := States()[9];
            st.job == Some(J()) && !J().auto && GoodOutputs(st, J(), [L(), R()], [Both()], 11) &&
            RightlyCut([Both().data], [L(), R()], Cut([], BOUND, SizeOf, MAX_OUTPUT_FILE_SIZE)) &&
            !NothingSpanned(st.levels[J().level + 1], J(), [Both()]) &&
            forall st', out0, out1 :: !FinishStep(st, st', [L(), R()], [Both()], out0, out1)
  {
    hide FinishStep, OutputsHold, OutputsNumbered, NothingSpanned, Run, RightlyCut;
    BothIsRightlyCut();
    TheRun();
    assert States()[9] == After(9);
    BothHoldsTheInputs();
    BothIsNumbered();
    LevelTwoHasMiddle();
    forall st', out0, out1 ensures !FinishStep(After(9), st', [L(), R()], [Both()], out0, out1) {
      NoWayToFinish(st', out0, out1);
    }
  }
}
