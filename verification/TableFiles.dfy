/** Which table files are on disk, and that none is deleted while somebody may still read it (DeleteObsoleteFiles in
    db/db_impl.cc, AddLiveFiles in db/version_set.cc). */
module TableFiles {
  import opened InternalKeys
  import opened VersionSet
  import opened Store
  import opened StoreRuns

  type Version = seq<seq<File>>

  /** The table files there are, those that are still being written or belong to a compaction that is not cleaned up
      yet (pending_outputs_), the versions that readers hold, and the table that a flush has written but not installed
      yet: WriteLevel0Table has already taken it out of pending_outputs_. */
  datatype Tables = Tables(present: set<nat>, pending: set<nat>, pinned: seq<Version>, unguarded: Option<nat>)

  datatype Action =
    | StoreStep(step: Step)
    | WriteTable(number: nat)
    | FlushBuilt(number: nat)
    | FlushGivenUp
    | Cleanup(numbers: set<nat>)
    | Pin
    | Unpin(i: nat)
    | DeleteObsoleteFiles

  function Unguarded(t: Tables): set<nat> { if t.unguarded.Some? then {t.unguarded.value} else {} }

  function VersionNumbers(v: Version): set<nat> { set l, f | 0 <= l < |v| && f in v[l] :: f.number }

  /** A compaction holds the version that it started from. */
  function JobNumbers(st: State): set<nat> { if st.job.Some? then VersionNumbers(st.job.value.version) else {} }

  function PinnedNumbers(pinned: seq<Version>): set<nat> {
    set i, n | 0 <= i < |pinned| && n in VersionNumbers(pinned[i]) :: n
  }

  /** AddLiveFiles: the files of the current version and of all others that are held. */
  function Live(st: State, t: Tables): set<nat> { VersionNumbers(st.levels) + JobNumbers(st) + PinnedNumbers(t.pinned) }

  /** A crash forgets what was pending and held, and recovery writes tables of its own. */
  ghost predicate StepOnTables(st: State, t: Tables, st': State, t': Tables, step: Step) {
    match step
    case Crash(_, _, files, _) => t' == Tables(t.present + Numbers(files), {}, [], None)
    case Flush(_, _, _) =>
      VersionNumbers(st'.levels) <= VersionNumbers(st.levels) + Unguarded(t) && t' == t.(unguarded := None)
    case FinishCompaction(_, outputs, _, _) => t.unguarded.None? && Numbers(outputs) <= t.pending && t' == t
    case _ => t' == t
  }

  /** Flushes, compactions and DeleteObsoleteFiles are all work of the one background thread: while it has a table
      unguarded, it neither finishes a compaction nor deletes files.  (Opening a store deletes files too, before there
      is a background thread.)  Everything else may come in between. */
  ghost predicate AllowedAction(st: State, t: Tables, st': State, t': Tables, a: Action) {
    match a
    case StoreStep(step) => Allowed(st, st', step) && StepOnTables(st, t, st', t', step)
    case WriteTable(number) => st' == st && t' == t.(present := t.present + {number}, pending := t.pending + {number})
    case FlushBuilt(number) =>
      t.unguarded.None? && number in t.pending && st' == st &&
      t' == t.(pending := t.pending - {number}, unguarded := Some(number))
    case FlushGivenUp => st' == st && t' == t.(unguarded := None)
    case Cleanup(numbers) => st' == st && t' == t.(pending := t.pending - numbers)
    case Pin => st' == st && t' == t.(pinned := t.pinned + [st.levels])
    case Unpin(i) => i < |t.pinned| && st' == st && t' == t.(pinned := t.pinned[..i] + t.pinned[i + 1..])
    case DeleteObsoleteFiles =>
      t.unguarded.None? && st' == st && t' == t.(present := t.present * (t.pending + Live(st, t)))
  }

  ghost predicate AllPresent(st: State, t: Tables) {
    Live(st, t) <= t.present && t.pending <= t.present && Unguarded(t) <= t.present
  }

  lemma PinnedMore(pinned: seq<Version>, v: Version)
    ensures PinnedNumbers(pinned + [v]) == PinnedNumbers(pinned) + VersionNumbers(v)
  {
    hide VersionNumbers;
    var more := pinned + [v];
    forall n | n in PinnedNumbers(pinned) ensures n in PinnedNumbers(more) {
      var i :| 0 <= i < |pinned| && n in VersionNumbers(pinned[i]);
      assert n in VersionNumbers(more[i]);
    }
    assert forall n :: n in VersionNumbers(v) ==> n in VersionNumbers(more[|pinned|]);
  }

  lemma PinnedFewer(pinned: seq<Version>, i: nat)
    requires i < |pinned|
    ensures PinnedNumbers(pinned[..i] + pinned[i + 1..]) <= PinnedNumbers(pinned)
  {
    hide VersionNumbers;
    var fewer := pinned[..i] + pinned[i + 1..];
    forall n | n in PinnedNumbers(fewer) ensures n in PinnedNumbers(pinned) {
      var k :| 0 <= k < |fewer| && n in VersionNumbers(fewer[k]);
      assert n in VersionNumbers(pinned[if k < i then k else k + 1]);
    }
  }

  /** A compaction that starts holds the current version; all other steps hold what was held, or less. */
  lemma JobHolds(st: State, st': State, step: Step)
    requires Allowed(st, st', step)
    ensures JobNumbers(st') <= JobNumbers(st) + VersionNumbers(st.levels)
  {
    hide VersionNumbers, WriteStep, SnapshotStep, CrashStep, DropSafe, FlushChoice, GoodInputs;
    match step
    case StartCompaction(j, lo, hi) =>
    case Crash(m, cut, files, out) => CrashEndsJob(st, st', m, cut, files, out);
    case Write(ops) => WriteKeepsJob(st, st', ops);
    case GetSnapshot => SnapshotKeepsJob(st, st');
    case _ =>
  }

  lemma WriteKeepsJob(st: State, st': State, ops: seq<(int, Op)>)
    requires WriteStep(st, st', ops)
    ensures st'.job == st.job
  {
  }

  lemma SnapshotKeepsJob(st: State, st': State)
    requires SnapshotStep(st, st')
    ensures st'.job == st.job
  {
  }

  lemma CrashEndsJob(st: State, st': State, m: nat, cut: SequenceNumber, files: seq<File>, out: seq<File>)
    requires CrashStep(st, st', m, cut, files, out)
    ensures st'.job.None? && VersionNumbers(st'.levels) <= VersionNumbers(st.levels) + Numbers(files)
  {
    forall l, f | 0 <= l < |st'.levels| && f in st'.levels[l]
      ensures f.number in VersionNumbers(st.levels) + Numbers(files)
    {
      if l > 0 { assert f in st.levels[l]; }
    }
  }

  /** The only new files of a version are those that a flush or a compaction has written. */
  lemma LevelsGrow(st: State, t: Tables, st': State, t': Tables, step: Step)
    requires Allowed(st, st', step) && !step.Crash? && StepOnTables(st, t, st', t', step)
    ensures VersionNumbers(st'.levels) <= VersionNumbers(st.levels) + t.pending + Unguarded(t)
  {
    hide VersionNumbers, DropSafe, FlushChoice, GoodInputs;
    match step
    case Write(ops) => assert st'.levels == st.levels;
    case GetSnapshot => assert st'.levels == st.levels;
    case FinishCompaction(input, outputs, out0, out1) => FinishAdds(st, st', input, outputs, out0, out1);
    case TrivialMove(from, moved, lo, hi, out0, out1) => MoveAdds(st, st', from, moved, lo, hi, out0, out1);
    case _ =>
  }

  lemma FinishAdds(st: State, st': State, input: seq<Entry>, outputs: seq<File>, out0: seq<File>, out1: seq<File>)
    requires FinishStep(st, st', input, outputs, out0, out1)
    ensures VersionNumbers(st'.levels) <= VersionNumbers(st.levels) + Numbers(outputs)
  {
    hide OutputsHold, OutputsNumbered, Disjoint;
    forall l, f | 0 <= l < |st'.levels| && f in st'.levels[l]
      ensures f.number in VersionNumbers(st.levels) + Numbers(outputs)
    {
    }
  }

  lemma MoveAdds(st: State, st': State, from: nat, moved: File, lo: int, hi: int, out0: seq<File>, out1: seq<File>)
    requires MoveStep(st, st', from, moved, lo, hi, out0, out1)
    ensures VersionNumbers(st'.levels) <= VersionNumbers(st.levels)
  {
    forall l, f | 0 <= l < |st'.levels| && f in st'.levels[l] ensures f.number in VersionNumbers(st.levels) {
    }
  }

  lemma ActionKeepsTables(st: State, t: Tables, st': State, t': Tables, a: Action)
    requires AllowedAction(st, t, st', t', a) && AllPresent(st, t)
    ensures AllPresent(st', t')
  {
    hide VersionNumbers, Allowed, PinnedNumbers;
    match a
    case StoreStep(step) =>
      JobHolds(st, st', step);
      if step.Crash? { CrashIsStep(st, st', step); } else { LevelsGrow(st, t, st', t', step); }
    case Pin => PinnedMore(t.pinned, st.levels);
    case Unpin(i) => PinnedFewer(t.pinned, i);
    case _ =>
  }

  lemma CrashIsStep(st: State, st': State, step: Step)
    requires Allowed(st, st', step) && step.Crash?
    ensures VersionNumbers(st'.levels) <= VersionNumbers(st.levels) + Numbers(step.files) && st'.job.None?
    ensures PinnedNumbers([]) == {}
  {
    hide CrashStep;
    CrashEndsJob(st, st', step.m, step.cut, step.files, step.out);
  }

  ghost predicate TableRun(states: seq<State>, tables: seq<Tables>, actions: seq<Action>) {
    |states| == |tables| == |actions| + 1 &&
    (exists log :: states[0] == Init(log)) && tables[0] == Tables({}, {}, [], None) &&
    forall i :: 0 <= i < |actions| ==> AllowedAction(states[i], tables[i], states[i + 1], tables[i + 1], actions[i])
  }

  /** However writes, compactions, readers, crashes and deletions interleave: every table that the current version, a
      running compaction or a reader needs is on disk, and so is every one that is being written. */
  lemma {:induction false} NoNeededTableIsDeleted(states: seq<State>, tables: seq<Tables>, actions: seq<Action>, i: nat)
    requires TableRun(states, tables, actions) && i < |states|
    ensures AllPresent(states[i], tables[i])
  {
    hide AllowedAction, VersionNumbers;
    if i == 0 {
      NothingLive(states[0]);
    } else {
      NoNeededTableIsDeleted(states, tables, actions, i - 1);
      ActionKeepsTables(states[i - 1], tables[i - 1], states[i], tables[i], actions[i - 1]);
    }
  }

  lemma NothingLive(st: State)
    requires exists log :: st == Init(log)
    ensures Live(st, Tables({}, {}, [], None)) == {}
  {
    var log :| st == Init(log);
    assert forall l :: 0 <= l < |st.levels| ==> st.levels[l] == [];
  }

  /** And nothing else stays. */
  lemma OnlyNeededTablesStay(st: State, t: Tables, st': State, t': Tables)
    requires AllowedAction(st, t, st', t', DeleteObsoleteFiles) && AllPresent(st, t)
    ensures t'.present == t.pending + Live(st, t)
  {
  }
}
