/** Whole runs of the store: every reachable state answers every live reader from the full history. */
module StoreRuns {
  import opened InternalKeys
  import opened VersionSet
  import opened Compaction
  import opened Store

  datatype Step =
    | Write(ops: seq<(int, Op)>)
    | SwitchMemtable
    | Flush(level: nat, out: seq<File>, f: File)
    | GetSnapshot
    | ReleaseSnapshot(i: nat)
    | StartCompaction(j: Job, lo: int, hi: int)
    | NewFileNumber
    | AbortCompaction
    | FinishCompaction(input: seq<Entry>, outputs: seq<File>, out0: seq<File>, out1: seq<File>)
    | TrivialMove(from: nat, moved: File, lo: int, hi: int, out0: seq<File>, out1: seq<File>)
    | DropLogs(gone: set<nat>)
    | Crash(m: nat, cut: SequenceNumber, files: seq<File>, out: seq<File>)

  /** What the code may do in one step. */
  ghost predicate Taken(st: State, st': State, step: Step) {
    match step
    case Write(ops) => WriteStep(st, st', ops)
    case SwitchMemtable => SwitchStep(st, st')
    case Flush(level, out, f) => FlushStep(st, st', level, out, f)
    case GetSnapshot => SnapshotStep(st, st')
    case ReleaseSnapshot(i) => ReleaseStep(st, st', i)
    case StartCompaction(j, lo, hi) => StartStep(st, st', j, lo, hi)
    case NewFileNumber => NumberStep(st, st')
    case AbortCompaction => AbortStep(st, st')
    case FinishCompaction(input, outputs, out0, out1) => FinishStep(st, st', input, outputs, out0, out1)
    case TrivialMove(from, moved, lo, hi, out0, out1) => MoveStep(st, st', from, moved, lo, hi, out0, out1)
    case DropLogs(gone) => DropLogsStep(st, st', gone)
    case Crash(m, cut, files, out) => CrashStep(st, st', m, cut, files, out)
  }

  /** The same, but what a finished compaction dropped was safe to drop (see DropSafe). */
  ghost predicate Allowed(st: State, st': State, step: Step) {
    Taken(st, st', step) && (step.FinishCompaction? && st.job.Some? ==> DropSafe(st, st.job.value))
  }

  /** A new store: an empty log, nothing else. */
  function Init(log: nat): State {
    State([], None, seq(NUM_LEVELS, _ => []), [], 0, log + 1, None, map[log := []], log, log, 0, log + 1, map[], 0)
  }

  /** Whatever the code may do. */
  ghost predicate Behaviour(states: seq<State>, steps: seq<Step>) {
    |states| == |steps| + 1 && (exists log :: states[0] == Init(log)) &&
    forall i :: 0 <= i < |steps| ==> Taken(states[i], states[i + 1], steps[i])
  }

  /** The behaviours in which no compaction drops what it must not drop; see RightExactlyWhen. */
  ghost predicate Run(states: seq<State>, steps: seq<Step>) {
    |states| == |steps| + 1 && (exists log :: states[0] == Init(log)) &&
    forall i :: 0 <= i < |steps| ==> Allowed(states[i], states[i + 1], steps[i])
  }

  lemma InitInv(log: nat)
    ensures Inv(Init(log))
  {
    var st := Init(log);
    NothingStoredAtFirst(log);
    assert Recorded(st) && Layered(st) && FlushOrdered(st);
    forall k, s | Bound(st) <= s <= st.lastSeq ensures Answers(st, k, s, ReadAt(st.hist, k, s)) {
      assert NothingVisible(st, k, s);
    }
    forall e ensures !InLog(st.logs[log], e) {}
  }

  lemma NothingStoredAtFirst(log: nat)
    ensures forall d, e :: !At(Init(log), d, e)
  {
    forall d: nat, e ensures !At(Init(log), d, e) {
      if 2 <= d < NUM_LEVELS + 2 { assert Init(log).levels[d - 2] == []; }
    }
  }

  lemma StepKeepsInv(st: State, st': State, step: Step)
    requires Inv(st) && Allowed(st, st', step)
    ensures Inv(st')
  {
    hide Inv, WriteStep, SwitchStep, FlushStep, SnapshotStep, ReleaseStep, StartStep, NumberStep, AbortStep, FinishStep,
         MoveStep, DropLogsStep, CrashStep, DropSafe;
    match step
    case Write(ops) => WriteKeepsInv(st, st', ops);
    case SwitchMemtable => SwitchKeepsInv(st, st');
    case Flush(level, out, f) => FlushKeepsInv(st, st', level, out, f);
    case GetSnapshot => SnapshotKeepsInv(st, st');
    case ReleaseSnapshot(i) => ReleaseKeepsInv(st, st', i);
    case StartCompaction(j, lo, hi) => StartKeepsInv(st, st', j, lo, hi);
    case NewFileNumber => NumberKeepsInv(st, st');
    case AbortCompaction => AbortKeepsInv(st, st');
    case FinishCompaction(input, outputs, out0, out1) =>
      FinishFields(st, st', input, outputs, out0, out1);
      FinishKeepsInv(st, st', input, outputs, out0, out1);
    case TrivialMove(from, moved, lo, hi, out0, out1) => MoveKeepsInv(st, st', from, moved, lo, hi, out0, out1);
    case DropLogs(gone) => DropLogsKeepsInv(st, st', gone);
    case Crash(m, cut, files, out) => CrashKeepsInv(st, st', m, cut, files, out);
  }

  /** The invariant holds in every reachable state. */
  lemma {:induction false} RunKeepsInv(states: seq<State>, steps: seq<Step>, i: nat)
    requires Run(states, steps) && i < |states|
    ensures Inv(states[i])
  {
    if i == 0 {
      var log :| states[0] == Init(log);
      InitInv(log);
    } else {
      RunKeepsInv(states, steps, i - 1);
      StepKeepsInv(states[i - 1], states[i], steps[i - 1]);
    }
  }

  /** In a sound state the answers are those of the history. */
  lemma AnswersAreHistory(st: State, k: int, s: nat, r: Option<UserValue>)
    requires Inv(st) && (s == st.lastSeq || s in st.snapshots)
    ensures Answers(st, k, s, r) <==> r == ReadAt(st.hist, k, s)
  {
    assert Bound(st) <= s <= st.lastSeq;
    assert Answers(st, k, s, ReadAt(st.hist, k, s));
    if Answers(st, k, s, r) { AnswersAgree(st, k, s, r, ReadAt(st.hist, k, s)); }
  }

  /** Short of a crash, the past does not change. */
  lemma StepKeepsPast(st: State, st': State, step: Step, n: nat)
    requires Taken(st, st', step) && !step.Crash? && n <= st.lastSeq
    ensures n in st.hist <==> n in st'.hist
    ensures n in st.hist ==> st.hist[n] == st'.hist[n]
    ensures st.lastSeq <= st'.lastSeq
  {
    if step.Write? {
      RecordIsLater(st.hist, BatchEntries(step.ops, st.lastSeq + 1), st.lastSeq, n);
    } else {
      OnlyWritesExtendHistory(st, st', step);
    }
  }

  lemma OnlyWritesExtendHistory(st: State, st': State, step: Step)
    requires Taken(st, st', step) && !step.Write? && !step.Crash?
    ensures st'.hist == st.hist && st'.lastSeq == st.lastSeq
  {
    match step
    case SwitchMemtable =>
    case Flush(level, out, f) =>
    case GetSnapshot =>
    case ReleaseSnapshot(i) =>
    case StartCompaction(j, lo, hi) =>
    case NewFileNumber =>
    case AbortCompaction =>
    case FinishCompaction(input, outputs, out0, out1) =>
    case TrivialMove(from, moved, lo, hi, out0, out1) =>
    case DropLogs(gone) =>
  }

  lemma {:induction false} RecordIsLater(h: map<nat, Entry>, es: seq<Entry>, last: nat, n: nat)
    requires n <= last && forall e :: e in es ==> e.sn > last
    ensures n in h <==> n in Record(h, es)
    ensures n in h ==> h[n] == Record(h, es)[n]
  {
    if |es| == 0 {
    } else {
      assert es[|es| - 1] in es;
      RecordIsLater(h, es[..|es| - 1], last, n);
    }
  }

  lemma {:induction false} BehaviourKeepsPast(states: seq<State>, steps: seq<Step>, i: nat, j: nat, n: nat)
    requires Behaviour(states, steps) && i <= j < |states| && n <= states[i].lastSeq
    requires forall m :: i <= m < j ==> !steps[m].Crash?
    ensures n in states[i].hist <==> n in states[j].hist
    ensures n in states[i].hist ==> states[i].hist[n] == states[j].hist[n]
    ensures states[i].lastSeq <= states[j].lastSeq
    decreases j
  {
    if i == j {
    } else {
      BehaviourKeepsPast(states, steps, i, j - 1, n);
      StepKeepsPast(states[j - 1], states[j], steps[j - 1], n);
    }
  }

  // ---------------------------------------------------------------- when a behaviour is right

  /** If the step finishes a compaction, that loses no deletion. */
  ghost predicate LosesNothing(st: State, step: Step) {
    step.FinishCompaction? && st.job.Some? ==> forall n, g :: !LosesDeletion(st, st.job.value, n, g)
  }

  /** If the step finishes a compaction, all live readers are answered behind it as before it. */
  ghost predicate ReadsStay(st: State, st': State, step: Step) { step.FinishCompaction? ==> PreservesReads(st, st') }

  lemma StepIsRightExactlyWhen(st: State, st': State, step: Step)
    requires Inv(st) && Taken(st, st', step)
    ensures ReadsStay(st, st', step) <==> LosesNothing(st, step)
    ensures LosesNothing(st, step) <==> Allowed(st, st', step)
  {
    hide CoreInv, Logged, LogsAscending, PreservesReads, DropSafe, LosesDeletion, FinishStep;
    if step.FinishCompaction? {
      FinishHasJob(st, st', step.input, step.outputs, step.out0, step.out1);
      CompactionPreservesReadsExactlyWhen(st, st', step.input, step.outputs, step.out0, step.out1);
      JobIsOk(st);
      SafeExactlyWhen(st, st.job.value);
    }
  }

  lemma FinishHasJob(st: State, st': State, input: seq<Entry>, outputs: seq<File>, out0: seq<File>, out1: seq<File>)
    requires FinishStep(st, st', input, outputs, out0, out1)
    ensures st.job.Some?
  {
  }

  lemma JobIsOk(st: State)
    requires Inv(st) && st.job.Some?
    ensures Recorded(st) && Layered(st) && JobOk(st.levels, st.job.value) && LevelsSorted(st.levels)
  {
    hide Faithful, Logged, LogsAscending, FlushOrdered, SnapshotsOrdered, NumbersUnique, Recorded, Layered;
  }

  /** Up to the first compaction that loses a deletion, the invariant holds. */
  lemma {:induction false} InvUntilLoss(states: seq<State>, steps: seq<Step>, i: nat)
    requires Behaviour(states, steps) && i < |states|
    requires forall m :: 0 <= m < i ==> LosesNothing(states[m], steps[m])
    ensures Inv(states[i])
  {
    if i == 0 {
      var log :| states[0] == Init(log);
      InitInv(log);
    } else {
      hide Inv, Taken, Allowed, LosesNothing;
      InvUntilLoss(states, steps, i - 1);
      StepIsRightExactlyWhen(states[i - 1], states[i], steps[i - 1]);
      StepKeepsInv(states[i - 1], states[i], steps[i - 1]);
    }
  }

  /** Whatever the code does from an empty store on: no compaction changes an answer if and only if none of them finds,
      in the file right behind its inputs, a value that a deletion among its inputs still has to cover.  And as long as
      that is so, every live reader is answered from the complete history. */
  lemma {:induction false} RightExactlyWhen(states: seq<State>, steps: seq<Step>, n: nat)
    requires Behaviour(states, steps) && n <= |steps|
    ensures (forall m :: 0 <= m < n ==> ReadsStay(states[m], states[m + 1], steps[m])) <==>
            (forall m :: 0 <= m < n ==> LosesNothing(states[m], steps[m]))
    ensures (forall m :: 0 <= m < n ==> LosesNothing(states[m], steps[m])) ==> Inv(states[n])
  {
    hide Inv, Taken, ReadsStay, LosesNothing;
    if n == 0 {
      InvUntilLoss(states, steps, 0);
    } else {
      RightExactlyWhen(states, steps, n - 1);
      if forall m :: 0 <= m < n - 1 ==> LosesNothing(states[m], steps[m]) {
        StepIsRightExactlyWhen(states[n - 1], states[n], steps[n - 1]);
        if LosesNothing(states[n - 1], steps[n - 1]) { InvUntilLoss(states, steps, n); }
      }
    }
  }

  /** No compaction has lost a deletion before state i. */
  ghost predicate NothingLost(states: seq<State>, steps: seq<Step>, i: nat)
    requires i <= |steps| && i <= |states|
  {
    forall m :: 0 <= m < i ==> LosesNothing(states[m], steps[m])
  }

  /** The invariant holds, and the history answers all questions that may still be asked, in all states up to the n-th
      if and only if no compaction has lost a deletion on the way. */
  lemma {:induction false} FaithfulExactlyWhen(states: seq<State>, steps: seq<Step>, n: nat)
    requires Behaviour(states, steps) && n <= |steps|
    ensures (forall j :: 0 <= j <= n ==> Faithful(states[j])) <==> NothingLost(states, steps, n)
    ensures (forall j :: 0 <= j <= n ==> Inv(states[j])) <==> NothingLost(states, steps, n)
  {
    hide Inv, Taken, LosesNothing, Faithful;
    if n == 0 {
      InvUntilLoss(states, steps, 0);
      InvIsFaithful(states[0]);
    } else {
      FaithfulExactlyWhen(states, steps, n - 1);
      if NothingLost(states, steps, n - 1) {
        if LosesNothing(states[n - 1], steps[n - 1]) { InvUntilLoss(states, steps, n); }
        if Inv(states[n]) { InvIsFaithful(states[n]); }
        if Faithful(states[n]) { FinishedFaithfully(states[n - 1], states[n], steps[n - 1]); }
      }
    }
  }

  lemma InvIsFaithful(st: State)
    requires Inv(st)
    ensures Faithful(st)
  {
  }

  lemma FinishedFaithfully(st: State, st': State, step: Step)
    requires Inv(st) && Taken(st, st', step) && Faithful(st')
    ensures LosesNothing(st, step)
  {
    hide Faithful, FinishStep, PreservesReads;
    if step.FinishCompaction? {
      FinishFields(st, st', step.input, step.outputs, step.out0, step.out1);
      InvIsFaithful(st);
      FaithfulMeansPreserved(st, st');
      StepIsRightExactlyWhen(st, st', step);
    }
  }

  /** As long as no compaction has lost a deletion, every live reader is answered from the complete history: the newest
      write at or before its sequence number, however the entries have been flushed, moved, merged and dropped since. */
  lemma EveryReaderIsAnsweredFromHistory(states: seq<State>, steps: seq<Step>, i: nat, k: int, s: nat,
                                         r: Option<UserValue>)
    requires Behaviour(states, steps) && i < |states| && NothingLost(states, steps, i)
    requires s == states[i].lastSeq || s in states[i].snapshots
    ensures Answers(states[i], k, s, r) <==> r == ReadAt(states[i].hist, k, s)
  {
    InvUntilLoss(states, steps, i);
    AnswersAreHistory(states[i], k, s, r);
  }

  /** A snapshot taken in state i and still held in state j reads in state j what it read in state i, whatever
      writes, flushes, moves and compactions ran in between. */
  lemma SnapshotsReadTheSameForever(states: seq<State>, steps: seq<Step>, i: nat, j: nat, k: int, s: SequenceNumber,
                                    r: Option<UserValue>)
    requires Behaviour(states, steps) && i <= j < |states| && NothingLost(states, steps, j)
    requires forall m :: i <= m < j ==> !steps[m].Crash?
    requires s in states[i].snapshots && s in states[j].snapshots
    ensures Answers(states[i], k, s, r) <==> Answers(states[j], k, s, r)
  {
    hide Taken, LosesNothing, Answers;
    InvUntilLoss(states, steps, i);
    SnapshotsAreOld(states[i], s);
    forall n: nat | n <= s
      ensures n in states[i].hist <==> n in states[j].hist
      ensures n in states[i].hist ==> states[i].hist[n] == states[j].hist[n]
    {
      BehaviourKeepsPast(states, steps, i, j, n);
    }
    ReadAtIgnoresLater(states[i].hist, states[j].hist, k, s);
    EveryReaderIsAnsweredFromHistory(states, steps, i, k, s, r);
    EveryReaderIsAnsweredFromHistory(states, steps, j, k, s, r);
  }

  lemma SnapshotsAreOld(st: State, s: SequenceNumber)
    requires Inv(st) && s in st.snapshots
    ensures s <= st.lastSeq
  {
  }

  /** A reader that is answered wrongly goes back to a compaction that lost a deletion in a state that was still
      right. */
  lemma WrongAnswersComeFromLoss(states: seq<State>, steps: seq<Step>, i: nat, k: int, s: nat, r: Option<UserValue>)
    returns (m: nat)
    requires Behaviour(states, steps) && i < |states| && (s == states[i].lastSeq || s in states[i].snapshots)
    requires Answers(states[i], k, s, r) && r != ReadAt(states[i].hist, k, s)
    ensures m < i && Inv(states[m]) && steps[m].FinishCompaction? && !LosesNothing(states[m], steps[m]) &&
            !PreservesReads(states[m], states[m + 1])
  {
    hide Taken, LosesNothing;
    if forall n :: 0 <= n < i ==> LosesNothing(states[n], steps[n]) {
      InvUntilLoss(states, steps, i);
      AnswersAreHistory(states[i], k, s, r);
      assert false;
    }
    m := FirstLoss(states, steps, i);
    InvUntilLoss(states, steps, m);
    StepIsRightExactlyWhen(states[m], states[m + 1], steps[m]);
    OnlyFinishingLoses(states[m], steps[m]);
  }

  lemma OnlyFinishingLoses(st: State, step: Step)
    requires !LosesNothing(st, step)
    ensures step.FinishCompaction?
  {
  }

  lemma FirstLoss(states: seq<State>, steps: seq<Step>, i: nat) returns (m: nat)
    requires |states| == |steps| + 1 && i < |states|
    requires exists n :: 0 <= n < i && !LosesNothing(states[n], steps[n])
    ensures m < i && !LosesNothing(states[m], steps[m])
    ensures forall n :: 0 <= n < m ==> LosesNothing(states[n], steps[n])
  {
    hide LosesNothing;
    m := 0;
    while LosesNothing(states[m], steps[m])
      invariant m < i && forall n :: 0 <= n < m ==> LosesNothing(states[n], steps[n])
      decreases i - m
    {
      m := m + 1;
    }
  }
}
