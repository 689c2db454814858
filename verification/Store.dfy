/** The store as a state machine: what is kept where, what every step keeps, and what every reader sees. */
module Store {
  import opened InternalKeys
  import opened VersionSet
  import opened Compaction

  const NUM_LEVELS: nat := 7

  /** A compaction that has chosen its inputs and has not installed its outputs yet. */
  datatype Job = Job(level: nat, in0: seq<File>, in1: seq<File>, smallest: SequenceNumber,
                     version: seq<seq<File>>, auto: bool)

  datatype State = State(
    mem: seq<Entry>,
    imm: Option<seq<Entry>>,
    levels: seq<seq<File>>,
    snapshots: seq<SequenceNumber>,
    lastSeq: SequenceNumber,
    nextFile: nat,
    job: Option<Job>,
    logs: map<nat, seq<seq<Entry>>>,   // log files by number; one record per committed batch
    logNumber: nat,                    // the oldest log the manifest still asks for
    curLog: nat,                       // the log being written
    manifestSeq: SequenceNumber,       // the last sequence number recorded in the manifest
    manifestNext: nat,                 // the next file number recorded in the manifest
    // What the proofs remember and the program does not:
    hist: map<nat, Entry>,             // every committed write that no crash has torn away
    flushedSeq: SequenceNumber)        // no table holds anything newer

  // ---------------------------------------------------------------- what a reader should see

  /** The reference reader: the newest write of k among the first s, over the whole history. */
  function ReadAt(hist: map<nat, Entry>, k: int, s: nat): Option<UserValue> {
    if s in hist && hist[s].key == k then ValueOf(hist[s].op)
    else if s == 0 then None
    else ReadAt(hist, k, s - 1)
  }

  // ---------------------------------------------------------------- where entries are

  ghost predicate InFiles(fs: seq<File>, e: Entry) { exists f :: f in fs && e in f.data }

  /** Entry e is stored at depth d: 0 is the memtable, 1 the immutable memtable, 2 and on the levels. */
  ghost predicate At(st: State, d: nat, e: Entry) {
    if d == 0 then e in st.mem
    else if d == 1 then st.imm.Some? && e in st.imm.value
    else d - 2 < |st.levels| && InFiles(st.levels[d - 2], e)
  }

  ghost predicate Stored(st: State, e: Entry) { exists d :: At(st, d, e) }

  ghost predicate Newest(st: State, k: int, s: nat, e: Entry) {
    Stored(st, e) && e.key == k && e.sn <= s &&
    forall x :: Stored(st, x) && x.key == k && x.sn <= s ==> x.sn <= e.sn
  }

  ghost predicate NothingVisible(st: State, k: int, s: nat) {
    forall x :: Stored(st, x) && x.key == k ==> x.sn > s
  }

  /** r is what the stored entries say about key k at sequence number s. */
  ghost predicate Answers(st: State, k: int, s: nat, r: Option<UserValue>) {
    (exists e :: Newest(st, k, s, e) && r == ValueOf(e.op)) || (NothingVisible(st, k, s) && r == None)
  }

  // ---------------------------------------------------------------- the invariant

  function Floor(st: State): SequenceNumber {
    if |st.snapshots| == 0 then st.lastSeq else st.snapshots[0]
  }

  /** From here on every sequence number is still readable: all live readers, and all a crash can return to. */
  function Bound(st: State): SequenceNumber {
    if Floor(st) < st.flushedSeq then Floor(st) else st.flushedSeq
  }

  ghost predicate WellFormed(st: State) {
    |st.levels| == NUM_LEVELS && st.lastSeq < MAX_SEQUENCE_NUMBER && st.manifestNext <= st.nextFile &&
    Sorted(st.mem) && (st.imm.Some? ==> Sorted(st.imm.value)) &&
    LevelsSorted(st.levels)
  }

  ghost predicate LevelsSorted(levels: seq<seq<File>>) {
    forall l :: 1 <= l < |levels| ==> Disjoint(levels[l])
  }

  ghost predicate NumbersUnique(levels: seq<seq<File>>, next: nat) {
    (forall l, f :: 0 <= l < |levels| && f in levels[l] ==> f.number < next) &&
    (forall l, m, f, g :: 0 <= l < |levels| && 0 <= m < |levels| && f in levels[l] && g in levels[m] &&
      f.number == g.number
      ==> l == m && f == g)
  }

  /** Everything stored was written, under its own sequence number. */
  ghost predicate Recorded(st: State) {
    (forall n :: n in st.hist ==> 1 <= n <= st.lastSeq && st.hist[n].sn == n) &&
    (forall d, e :: At(st, d, e) ==> e.sn in st.hist && st.hist[e.sn] == e)
  }

  /** For one user key, whatever lies deeper is older. */
  ghost predicate Layered(st: State) {
    forall d, c, a, b :: d < c && At(st, d, a) && At(st, c, b) && a.key == b.key ==> a.sn > b.sn
  }

  /** Among the possibly overlapping files of level 0, the larger number is the newer file. */
  ghost predicate LevelZeroOrdered(fs: seq<File>) {
    forall f, g :: f in fs && g in fs && f.number > g.number ==> NewerOn(f, g)
  }

  /** Nothing a reader may still ask for has been lost. */
  ghost predicate Faithful(st: State) {
    forall k, s :: Bound(st) <= s <= st.lastSeq ==> Answers(st, k, s, ReadAt(st.hist, k, s))
  }

  ghost predicate SnapshotsOrdered(st: State) {
    (forall i, j :: 0 <= i < j < |st.snapshots| ==> st.snapshots[i] <= st.snapshots[j]) &&
    (forall i :: 0 <= i < |st.snapshots| ==> st.snapshots[i] <= st.lastSeq)
  }

  /** The smallest number that a reader may hold: the oldest snapshot, or the last number if there is none. */
  lemma FloorIsOldest(st: State)
    requires SnapshotsOrdered(st)
    ensures |st.snapshots| == 0 ==> Floor(st) == st.lastSeq
    ensures |st.snapshots| > 0 ==> Floor(st) in st.snapshots && forall s :: s in st.snapshots ==> Floor(st) <= s
  {
    forall s | s in st.snapshots ensures Floor(st) <= s {
      var i :| 0 <= i < |st.snapshots| && st.snapshots[i] == s;
      if i > 0 { assert st.snapshots[0] <= st.snapshots[i]; }
    }
  }

  /** Memtables hold exactly what was written since the last flush, the mutable one the newest part of it. */
  ghost predicate FlushOrdered(st: State) {
    st.flushedSeq <= st.manifestSeq <= st.lastSeq &&
    (forall d, e :: d >= 2 && At(st, d, e) ==> e.sn <= st.flushedSeq) &&
    (forall e :: At(st, 1, e) ==> e.sn > st.flushedSeq) &&
    (forall e :: At(st, 0, e) ==> e.sn > st.flushedSeq) &&
    (forall a, b :: At(st, 0, a) && At(st, 1, b) ==> a.sn > b.sn) &&
    (forall n :: n in st.hist && n > st.flushedSeq ==> At(st, 0, st.hist[n]) || At(st, 1, st.hist[n]))
  }

  ghost predicate InLog(log: seq<seq<Entry>>, e: Entry) { exists i :: 0 <= i < |log| && e in log[i] }

  /** The logs from logNumber on hold exactly the entries that are in no table yet. */
  ghost predicate Logged(st: State) {
    st.curLog in st.logs && st.logNumber <= st.curLog < st.nextFile &&
    (forall n :: n in st.logs ==> n <= st.curLog) &&
    (forall e :: At(st, 0, e) <==> InLog(st.logs[st.curLog], e)) &&
    (forall e :: At(st, 1, e) <==> exists n :: n in st.logs && st.logNumber <= n < st.curLog && InLog(st.logs[n], e)) &&
    LogAscending(st.logs[st.curLog])
  }

  ghost predicate LogBefore(log: seq<seq<Entry>>, later: seq<seq<Entry>>) {
    forall a, b :: InLog(log, a) && InLog(later, b) ==> a.sn < b.sn
  }

  /** Later records, and later logs, hold newer entries. */
  ghost predicate LogsAscending(logs: map<nat, seq<seq<Entry>>>, from: nat) {
    (forall n :: n in logs && n >= from ==> LogAscending(logs[n])) &&
    (forall n, m :: n in logs && m in logs && from <= n < m ==> LogBefore(logs[n], logs[m]))
  }

  ghost predicate Ascending(es: seq<Entry>) { forall i, j :: 0 <= i < j < |es| ==> es[i].sn < es[j].sn }

  /** Later records hold newer entries, and so do later positions in one record. */
  ghost predicate LogAscending(log: seq<seq<Entry>>) {
    (forall i :: 0 <= i < |log| ==> Ascending(log[i])) &&
    forall i, j :: 0 <= i < j < |log| ==> RecordBefore(log[i], log[j])
  }

  ghost predicate RecordBefore(es: seq<Entry>, later: seq<Entry>) {
    forall a, b :: a in es && b in later ==> a.sn < b.sn
  }

  // ---------------------------------------------------------------- the job in progress

  ghost predicate IsInput(j: Job, e: Entry) { InFiles(j.in0, e) || InFiles(j.in1, e) }

  /** File g lies before all inputs or after all inputs, as internal keys. */
  ghost predicate Beside(g: File, j: Job) {
    (forall e :: IsInput(j, e) ==> Before(g.Largest(), e)) || (forall e :: IsInput(j, e) ==> Before(e, g.Smallest()))
  }

  /** No input has a user key in the range of g. */
  ghost predicate ClearOf(g: File, j: Job) { forall e :: IsInput(j, e) ==> !g.Covers(e.key) }

  /** Files that are not chosen lie beside the inputs; but among those of a manual compaction, which may have gaps, a
      table can be flushed while it runs. */
  ghost predicate UnchosenOk(g: File, j: Job) { Beside(g, j) || (!j.auto && ClearOf(g, j)) }

  ghost predicate UpperInputsOk(fs: seq<File>, j: Job) {
    |j.in0| > 0 && (forall f :: f in j.in0 ==> f in fs) && NoOlderLeft(fs, j.in0)
  }

  ghost predicate LowerInputsOk(fs: seq<File>, j: Job) {
    (forall f :: f in j.in1 ==> f in fs) &&
    (forall g :: g in fs && g !in j.in1 ==> UnchosenOk(g, j)) &&
    (forall g, e :: g in fs && g !in j.in1 && InFiles(j.in0, e) ==> !g.Covers(e.key))
  }

  /** The base-level test asks the version the job started from; for its own keys that is still right. */
  ghost predicate BaseTestOk(levels: seq<seq<File>>, j: Job) {
    forall e :: IsInput(j, e) ==>
      (NoFileCovers(j.version, j.level + 2, e.key) <==> NoFileCovers(levels, j.level + 2, e.key))
  }

  /** What the inputs of a running compaction keep promising while other steps happen. */
  ghost predicate JobOk(levels: seq<seq<File>>, j: Job) {
    |levels| == NUM_LEVELS && j.level + 1 < NUM_LEVELS && LevelsSorted(j.version) &&
    UpperInputsOk(levels[j.level], j) && LowerInputsOk(levels[j.level + 1], j) && BaseTestOk(levels, j) &&
    (j.auto ==> Connected(j.in0 + j.in1)) && InputsSorted(j)
  }

  /** But on level 0, the inputs are listed in the order of their keys. */
  ghost predicate InputsSorted(j: Job) { (j.level > 0 ==> Disjoint(j.in0)) && Disjoint(j.in1) }

  ghost predicate JobInv(st: State) {
    st.job.Some? ==> JobOk(st.levels, st.job.value) && st.job.value.smallest <= Floor(st)
  }

  /** Everything but what ties the memtables to the logs. */
  ghost predicate CoreInv(st: State) {
    WellFormed(st) && NumbersUnique(st.levels, st.manifestNext) && Recorded(st) && Layered(st) &&
    LevelZeroOrdered(st.levels[0]) && Faithful(st) && SnapshotsOrdered(st) && FlushOrdered(st) && JobInv(st)
  }

  ghost predicate Inv(st: State) { CoreInv(st) && Logged(st) && LogsAscending(st.logs, st.logNumber) }

  // ---------------------------------------------------------------- steps

  function BatchEntries(ops: seq<(int, Op)>, first: nat): (r: seq<Entry>)
    requires first + |ops| <= MAX_SEQUENCE_NUMBER
    ensures |r| == |ops|
    ensures forall i :: 0 <= i < |ops| ==> r[i] == Entry(ops[i].0, first + i, ops[i].1)
  {
    seq(|ops|, i requires 0 <= i < |ops| => Entry(ops[i].0, first + i, ops[i].1))
  }

  function InsertAll(mem: seq<Entry>, es: seq<Entry>): (r: seq<Entry>)
    ensures forall e :: e in r <==> e in mem || e in es
  {
    if |es| == 0 then mem
    else
      assert es == es[..|es| - 1] + [es[|es| - 1]];
      Insert(InsertAll(mem, es[..|es| - 1]), es[|es| - 1])
  }

  function Record(hist: map<nat, Entry>, es: seq<Entry>): map<nat, Entry> {
    if |es| == 0 then hist else Record(hist, es[..|es| - 1])[es[|es| - 1].sn := es[|es| - 1]]
  }

  /** A committed group: one log record, one contiguous range of sequence numbers, visible all at once. */
  ghost predicate WriteStep(st: State, st': State, ops: seq<(int, Op)>) {
    st.lastSeq + |ops| < MAX_SEQUENCE_NUMBER && st.curLog in st.logs &&
    var es := BatchEntries(ops, st.lastSeq + 1);
    st' == st.(mem := InsertAll(st.mem, es), lastSeq := st.lastSeq + |ops|,
               logs := st.logs[st.curLog := st.logs[st.curLog] + [es]], hist := Record(st.hist, es))
  }

  ghost predicate SwitchStep(st: State, st': State) {
    st.imm.None? &&
    st' == st.(mem := [], imm := Some(st.mem), logs := st.logs[st.nextFile := []], curLog := st.nextFile,
               nextFile := st.nextFile + 1)
  }

  ghost predicate SnapshotStep(st: State, st': State) {
    st' == st.(snapshots := st.snapshots + [st.lastSeq])
  }

  ghost predicate ReleaseStep(st: State, st': State, i: nat) {
    i < |st.snapshots| && st' == st.(snapshots := st.snapshots[..i] + st.snapshots[i + 1..])
  }

  function Max(a: SequenceNumber, b: SequenceNumber): SequenceNumber { if a < b then b else a }

  function MaxSn(es: seq<Entry>, from: SequenceNumber): (r: SequenceNumber)
    ensures from <= r && forall e :: e in es ==> e.sn <= r
    ensures r == from || exists e :: e in es && e.sn == r
  {
    if |es| == 0 then from
    else
      var rest := MaxSn(es[..|es| - 1], from);
      var last := es[|es| - 1];
      assert es == es[..|es| - 1] + [last];
      Max(rest, last.sn)
  }

  ghost predicate NothingOverlaps(levels: seq<seq<File>>, f: File) {
    forall l, g :: 0 <= l < |levels| && g in levels[l] ==> !Overlaps(g, Some(f.Smallest().key), Some(f.Largest().key))
  }

  /** The immutable memtable becomes one table (none if it is empty) and the logs behind it are given up. */
  ghost predicate FlushStep(st: State, st': State, level: nat, out: seq<File>, f: File) {
    FlushChoice(st, level, out, f) && st' == FlushTo(st, level, out)
  }

  function FlushTo(st: State, level: nat, out: seq<File>): State
    requires st.imm.Some? && level < |st.levels|
  {
    st.(imm := None, levels := st.levels[level := out], nextFile := st.nextFile + 1, logNumber := st.curLog,
        manifestSeq := st.lastSeq, manifestNext := st.nextFile + 1, flushedSeq := MaxSn(st.imm.value, st.flushedSeq))
  }

  /** Where the table goes and what its level looks like then. */
  ghost predicate FlushChoice(st: State, level: nat, out: seq<File>, f: File) {
    st.imm.Some? && |st.levels| == NUM_LEVELS && level <= 2 &&
    (if |st.imm.value| == 0 then out == st.levels[level]
     else
       f.number == st.nextFile && f.data == st.imm.value && Saved(st.levels[level], {}, [f], out) &&
       (level > 0 ==> Disjoint(out) && NothingOverlaps(st.levels[..level + 1], f)) &&
       exists bound :: StopsAt(st.levels, f.Smallest().key, f.Largest().key, bound, level))
  }

  ghost predicate StartStep(st: State, st': State, j: Job, lo: int, hi: int) {
    st.job.None? && |st.levels| == NUM_LEVELS && j.level + 1 < NUM_LEVELS &&
    GoodInputs(st.levels[j.level], st.levels[j.level + 1], j.in0, j.in1, lo, hi) &&
    j.smallest == Floor(st) && j.version == st.levels && (j.auto ==> Connected(j.in0 + j.in1)) &&
    (j.level > 0 ==> Disjoint(j.in0)) && st' == st.(job := Some(j))
  }

  /** NewFileNumber: a number for a file that is about to be written. */
  ghost predicate NumberStep(st: State, st': State) { st' == st.(nextFile := st.nextFile + 1) }

  ghost predicate AbortStep(st: State, st': State) { st' == st.(job := None) }

  function Numbers(fs: seq<File>): set<nat> { set f | f in fs :: f.number }

  /** The outputs are sorted tables holding exactly the surviving inputs. */
  ghost predicate OutputsHold(j: Job, input: seq<Entry>, outputs: seq<File>) {
    Sorted(input) && (forall e :: e in input <==> IsInput(j, e)) && Disjoint(outputs) &&
    (forall e :: InFiles(outputs, e) <==> Survives(input, j.smallest, j.version, j.level + 2, e))
  }

  /** Their file numbers are distinct, in use nowhere, and below next. */
  ghost predicate OutputsNumbered(st: State, outputs: seq<File>, next: nat) {
    st.nextFile <= next && (forall f :: f in outputs ==> f.number < next) &&
    (forall f, g :: f in outputs && g in outputs && f.number == g.number ==> f == g) &&
    (forall f, l, g :: f in outputs && 0 <= l < |st.levels| && g in st.levels[l] ==> f.number != g.number)
  }

  ghost predicate GoodOutputs(st: State, j: Job, input: seq<Entry>, outputs: seq<File>, next: nat) {
    OutputsHold(j, input, outputs) && OutputsNumbered(st, outputs, next)
  }

  /** The outputs replace the inputs. */
  ghost predicate InstallStep(st: State, st': State, input: seq<Entry>, outputs: seq<File>, out0: seq<File>,
                              out1: seq<File>)
  {
    st.job.Some? && |st.levels| == NUM_LEVELS &&
    var j := st.job.value;
    j.level + 1 < NUM_LEVELS && GoodOutputs(st, j, input, outputs, st'.nextFile) &&
    Saved(st.levels[j.level], Numbers(j.in0), [], out0) &&
    Saved(st.levels[j.level + 1], Numbers(j.in1), outputs, out1) &&
    (j.level > 0 ==> Disjoint(out0)) &&
    st' == st.(levels := st.levels[j.level := out0][j.level + 1 := out1], job := None,
               nextFile := st'.nextFile, manifestSeq := st.lastSeq, manifestNext := st'.nextFile)
  }

  /** A compaction is finished when the level of its outputs is in order: the check of the new version fails
      otherwise. */
  ghost predicate FinishStep(st: State, st': State, input: seq<Entry>, outputs: seq<File>, out0: seq<File>,
                             out1: seq<File>)
  {
    InstallStep(st, st', input, outputs, out0, out1) && Disjoint(out1)
  }

  ghost predicate MoveStep(st: State, st': State, level: nat, f: File, lo: int, hi: int, out0: seq<File>,
                           out1: seq<File>)
  {
    st.job.None? && |st.levels| == NUM_LEVELS && level + 1 < NUM_LEVELS &&
    GoodInputs(st.levels[level], st.levels[level + 1], [f], [], lo, hi) &&
    Saved(st.levels[level], {f.number}, [], out0) && Saved(st.levels[level + 1], {}, [f], out1) &&
    (level > 0 ==> Disjoint(out0)) && Disjoint(out1) &&
    st' == st.(levels := st.levels[level := out0][level + 1 := out1], manifestSeq := st.lastSeq,
               manifestNext := st.nextFile)
  }

  /** DeleteObsoleteFiles: logs older than the manifest's log number go. */
  ghost predicate DropLogsStep(st: State, st': State, gone: set<nat>) {
    (forall n :: n in gone ==> n < st.logNumber) && st' == st.(logs := st.logs - gone)
  }

  // ---------------------------------------------------------------- the easy steps

  lemma {:induction false} ReadAtIgnoresLater(h: map<nat, Entry>, h': map<nat, Entry>, k: int, s: nat)
    requires forall n :: n <= s ==> (n in h <==> n in h') && (n in h ==> h[n] == h'[n])
    ensures ReadAt(h, k, s) == ReadAt(h', k, s)
  {
    if s == 0 {
    } else {
      ReadAtIgnoresLater(h, h', k, s - 1);
    }
  }

  /** One more write, newer than everything, in the memtable. */
  ghost predicate AddOne(st: State, st': State, e: Entry) {
    e.sn == st.lastSeq + 1 < MAX_SEQUENCE_NUMBER && st.curLog in st.logs &&
    st' == st.(mem := Insert(st.mem, e), lastSeq := e.sn, hist := st.hist[e.sn := e], logs := st'.logs)
  }

  lemma AddOneAt(st: State, st': State, e: Entry)
    requires AddOne(st, st', e)
    ensures forall d, x :: At(st', d, x) <==> At(st, d, x) || (d == 0 && x == e)
    ensures forall x :: Stored(st', x) <==> Stored(st, x) || x == e
  {
    forall d, x ensures At(st', d, x) <==> At(st, d, x) || (d == 0 && x == e) {}
    forall x | Stored(st, x) || x == e ensures Stored(st', x) {
      if x == e { assert At(st', 0, x); } else { var d :| At(st, d, x); assert At(st', d, x); }
    }
    forall x | Stored(st', x) ensures Stored(st, x) || x == e { var d :| At(st', d, x); assert At(st, d, x) || x == e; }
  }

  lemma AddOneKeepsFaithful(st: State, st': State, e: Entry)
    requires Recorded(st) && Faithful(st) && AddOne(st, st', e) && SnapshotsOrdered(st) && FlushOrdered(st)
    ensures Faithful(st')
  {
    AddOneAt(st, st', e);
    forall x | Stored(st, x) ensures x.sn <= st.lastSeq { var d: nat :| At(st, d, x); assert x.sn in st.hist; }
    forall k, s | Bound(st') <= s <= st'.lastSeq ensures Answers(st', k, s, ReadAt(st'.hist, k, s)) {
      if s < e.sn {
        ReadAtIgnoresLater(st.hist, st'.hist, k, s);
        AnswerSurvivesNewer(st, st', k, s, s, ReadAt(st.hist, k, s));
      } else {
        AddOneAnswers(st, st', e, k);
      }
    }
  }

  lemma AddOneAnswers(st: State, st': State, e: Entry, k: int)
    requires Faithful(st) && Bound(st) <= st.lastSeq && AddOne(st, st', e)
    requires forall x :: Stored(st', x) <==> Stored(st, x) || x == e
    requires forall x :: Stored(st, x) ==> x.sn <= st.lastSeq
    ensures Answers(st', k, e.sn, ReadAt(st'.hist, k, e.sn))
  {
    if k == e.key {
      assert Newest(st', k, e.sn, e);
    } else {
      AddOneKeepsOthers(st, st', e, k);
    }
  }

  lemma AddOneKeepsOthers(st: State, st': State, e: Entry, k: int)
    requires Faithful(st) && Bound(st) <= st.lastSeq && AddOne(st, st', e) && k != e.key
    requires forall x :: Stored(st', x) <==> Stored(st, x) || x == e
    requires forall x :: Stored(st, x) ==> x.sn <= st.lastSeq
    ensures Answers(st', k, e.sn, ReadAt(st'.hist, k, e.sn))
  {
    hide Answers, Stored, Bound;
    var s := st.lastSeq;
    ReadAtIgnoresLater(st.hist, st'.hist, k, s);
    AnswerSurvivesNewer(st, st', k, s, e.sn, ReadAt(st.hist, k, s));
  }

  /** An answer stays right when nothing of that key becomes visible or disappears. */
  lemma AnswerSurvivesNewer(st: State, st': State, k: int, s: nat, s': nat, r: Option<UserValue>)
    requires Answers(st, k, s, r)
    requires forall x: Entry :: x.key == k ==> (Stored(st', x) && x.sn <= s' <==> Stored(st, x) && x.sn <= s)
    ensures Answers(st', k, s', r)
  {
    if e :| Newest(st, k, s, e) && r == ValueOf(e.op) {
      assert Newest(st', k, s', e);
    } else {
      assert NothingVisible(st', k, s');
    }
  }

  lemma AddOneKeepsCore(st: State, st': State, e: Entry)
    requires CoreInv(st) && AddOne(st, st', e)
    ensures CoreInv(st')
  {
    AddOneAt(st, st', e);
    AddOneKeepsFaithful(st, st', e);
    forall d, x | At(st, d, x) ensures x.sn <= st.lastSeq { assert x.sn in st.hist; }
    forall x | x in st.mem ensures x.sn <= st.lastSeq { assert At(st, 0, x); }
    InsertSorted(st.mem, e);
    AddOneKeepsOrder(st, st', e);
  }

  lemma AddOneKeepsOrder(st: State, st': State, e: Entry)
    requires CoreInv(st) && AddOne(st, st', e)
    requires forall d, x :: At(st', d, x) <==> At(st, d, x) || (d == 0 && x == e)
    requires forall d, x :: At(st, d, x) ==> x.sn <= st.lastSeq
    ensures Recorded(st') && Layered(st') && FlushOrdered(st')
  {
    forall d: nat, c: nat, a, b | d < c && At(st', d, a) && At(st', c, b) && a.key == b.key ensures a.sn > b.sn {
      assert At(st, c, b);
      assert At(st, d, a) || a == e;
    }
    forall n | n in st'.hist && n > st'.flushedSeq ensures At(st', 0, st'.hist[n]) || At(st', 1, st'.hist[n]) {
      if n == e.sn { assert At(st', 0, e); } else { assert At(st, 0, st.hist[n]) || At(st, 1, st.hist[n]); }
    }
  }

  /** The state after writing es, whatever the log holds. */
  function Applied(st: State, es: seq<Entry>): State
    requires st.lastSeq + |es| <= MAX_SEQUENCE_NUMBER
  {
    st.(mem := InsertAll(st.mem, es), lastSeq := st.lastSeq + |es|, hist := Record(st.hist, es))
  }

  lemma AppliedStep(st: State, es: seq<Entry>)
    requires |es| > 0 && st.curLog in st.logs && st.lastSeq + |es| < MAX_SEQUENCE_NUMBER
    requires es[|es| - 1].sn == st.lastSeq + |es|
    ensures AddOne(Applied(st, es[..|es| - 1]), Applied(st, es), es[|es| - 1])
  {
  }

  lemma {:induction false} AppliedKeepsCore(st: State, es: seq<Entry>)
    requires CoreInv(st) && st.curLog in st.logs && st.lastSeq + |es| < MAX_SEQUENCE_NUMBER
    requires forall i :: 0 <= i < |es| ==> es[i].sn == st.lastSeq + 1 + i
    ensures CoreInv(Applied(st, es))
  {
    if |es| == 0 {
      assert Applied(st, es) == st;
    } else {
      AppliedKeepsCore(st, es[..|es| - 1]);
      AppliedStep(st, es);
      AddOneKeepsCore(Applied(st, es[..|es| - 1]), Applied(st, es), es[|es| - 1]);
    }
  }

  /** Only the fields the core invariant reads. */
  lemma CoreIgnoresLogs(st: State, st': State)
    requires CoreInv(st) && st' == st.(logs := st'.logs, logNumber := st'.logNumber, curLog := st'.curLog)
    ensures CoreInv(st')
    ensures forall d, x :: At(st', d, x) <==> At(st, d, x)
  {
    forall d, x ensures At(st', d, x) <==> At(st, d, x) {}
    SameEntriesKeepFaithful(st, st');
  }

  lemma SameEntriesAnswerAlike(st: State, st': State)
    requires forall x :: Stored(st, x) <==> Stored(st', x)
    ensures forall k, s, r :: Answers(st, k, s, r) <==> Answers(st', k, s, r)
  {
    forall k, s, x ensures Newest(st, k, s, x) <==> Newest(st', k, s, x) {}
    forall k, s, r ensures Answers(st, k, s, r) <==> Answers(st', k, s, r) {}
  }

  /** The same entries, somewhere, and no more sequence numbers readable than before. */
  lemma SameEntriesKeepFaithful(st: State, st': State)
    requires Faithful(st) && forall x :: Stored(st, x) <==> Stored(st', x)
    requires st'.hist == st.hist && Bound(st) <= Bound(st') && st'.lastSeq == st.lastSeq
    ensures Faithful(st')
  {
    SameEntriesAnswerAlike(st, st');
    forall k, s | Bound(st') <= s <= st'.lastSeq ensures Answers(st', k, s, ReadAt(st'.hist, k, s)) {
      assert Answers(st, k, s, ReadAt(st.hist, k, s));
    }
  }

  lemma WriteKeepsInv(st: State, st': State, ops: seq<(int, Op)>)
    requires Inv(st) && WriteStep(st, st', ops)
    ensures Inv(st')
  {
    WriteKeepsCore(st, st', ops);
    WriteKeepsLogs(st, st', ops);
  }

  lemma WriteKeepsCore(st: State, st': State, ops: seq<(int, Op)>)
    requires CoreInv(st) && WriteStep(st, st', ops)
    ensures CoreInv(st')
  {
    var es := BatchEntries(ops, st.lastSeq + 1);
    AppliedKeepsCore(st, es);
    CoreIgnoresLogs(Applied(st, es), st');
  }

  lemma WriteKeepsLogs(st: State, st': State, ops: seq<(int, Op)>)
    requires Logged(st) && Recorded(st) && LogsAscending(st.logs, st.logNumber) && WriteStep(st, st', ops)
    ensures Logged(st') && LogsAscending(st'.logs, st'.logNumber)
  {
    var es := BatchEntries(ops, st.lastSeq + 1);
    WrittenAt(st, st', es);
    WriteKeepsLogged(st, st', es);
    WriteKeepsLogOrder(st, st'.logs, es);
  }

  lemma WrittenAt(st: State, st': State, es: seq<Entry>)
    requires st'.mem == InsertAll(st.mem, es) && st'.imm == st.imm && st'.levels == st.levels
    ensures forall d, x :: At(st', d, x) <==> At(st, d, x) || (d == 0 && x in es)
  {
  }

  lemma WriteKeepsLogged(st: State, st': State, es: seq<Entry>)
    requires Logged(st) && Recorded(st)
    requires forall i :: 0 <= i < |es| ==> es[i].sn == st.lastSeq + 1 + i
    requires forall d, x :: At(st', d, x) <==> At(st, d, x) || (d == 0 && x in es)
    requires st'.logs == st.logs[st.curLog := st.logs[st.curLog] + [es]]
    requires st'.curLog == st.curLog && st'.logNumber == st.logNumber && st'.nextFile == st.nextFile
    ensures Logged(st')
  {
    var log, log' := st.logs[st.curLog], st'.logs[st.curLog];
    forall e ensures InLog(log', e) <==> InLog(log, e) || e in es {
      if InLog(log, e) { var i :| 0 <= i < |log| && e in log[i]; assert e in log'[i]; }
      if e in es { assert e in log'[|log|]; }
    }
    forall n | n in st.logs && n != st.curLog ensures st'.logs[n] == st.logs[n] {}
    forall e | InLog(log, e) ensures e.sn <= st.lastSeq { assert At(st, 0, e); }
    WriteKeepsAscending(st, log, es);
  }

  lemma WriteKeepsLogOrder(st: State, logs': map<nat, seq<seq<Entry>>>, es: seq<Entry>)
    requires Logged(st) && Recorded(st) && LogsAscending(st.logs, st.logNumber)
    requires Ascending(es) && forall i :: 0 <= i < |es| ==> es[i].sn > st.lastSeq
    requires logs' == st.logs[st.curLog := st.logs[st.curLog] + [es]]
    ensures LogsAscending(logs', st.logNumber)
  {
    var log := st.logs[st.curLog];
    forall e | InLog(log, e) ensures e.sn <= st.lastSeq { assert At(st, 0, e); }
    WriteKeepsAscending(st, log, es);
    forall n | n in st.logs && st.logNumber <= n < st.curLog ensures LogBefore(st.logs[n], log + [es]) {
      forall a | InLog(st.logs[n], a) ensures a.sn <= st.lastSeq { assert At(st, 1, a) && a.sn in st.hist; }
      StillBefore(st.logs[n], log, es, st.lastSeq);
    }
  }

  lemma StillBefore(older: seq<seq<Entry>>, log: seq<seq<Entry>>, es: seq<Entry>, last: nat)
    requires LogBefore(older, log) && forall a :: InLog(older, a) ==> a.sn <= last
    requires forall i :: 0 <= i < |es| ==> es[i].sn > last
    ensures LogBefore(older, log + [es])
  {
    forall a: Entry, b: Entry | InLog(older, a) && InLog(log + [es], b) ensures a.sn < b.sn {
      var i :| 0 <= i < |log + [es]| && b in (log + [es])[i];
      if i < |log| { assert b in log[i]; }
    }
  }

  lemma WriteKeepsAscending(st: State, log: seq<seq<Entry>>, es: seq<Entry>)
    requires LogAscending(log) && Ascending(es) && forall i :: 0 <= i < |es| ==> es[i].sn > st.lastSeq
    requires forall e :: InLog(log, e) ==> e.sn <= st.lastSeq
    ensures LogAscending(log + [es])
  {
    var log' := log + [es];
    forall i, j, a: Entry, b: Entry | 0 <= i < j < |log'| && a in log'[i] && b in log'[j] ensures a.sn < b.sn {
      if j == |log| { assert InLog(log, a); }
    }
  }

  lemma SwitchKeepsInv(st: State, st': State)
    requires Inv(st) && SwitchStep(st, st')
    ensures Inv(st')
  {
    forall d, x ensures At(st', d, x) <==> (d == 1 && At(st, 0, x)) || (d >= 2 && At(st, d, x)) {}
    forall x ensures Stored(st', x) <==> Stored(st, x) {
      if Stored(st, x) { var d: nat :| At(st, d, x); assert At(st', if d == 0 then 1 else d, x); }
    }
    SameEntriesKeepFaithful(st, st');
    SwitchKeepsOrder(st, st');
    SwitchKeepsLogged(st, st');
  }

  lemma SwitchKeepsOrder(st: State, st': State)
    requires Inv(st) && SwitchStep(st, st')
    requires forall d, x :: At(st', d, x) <==> (d == 1 && At(st, 0, x)) || (d >= 2 && At(st, d, x))
    ensures Layered(st') && FlushOrdered(st')
  {
    forall n | n in st'.hist && n > st'.flushedSeq ensures At(st', 1, st'.hist[n]) {
      assert At(st, 0, st.hist[n]) || At(st, 1, st.hist[n]);
    }
    forall d: nat, c: nat, a, b | d < c && At(st', d, a) && At(st', c, b) && a.key == b.key ensures a.sn > b.sn {
      assert At(st, if d == 1 then 0 else d, a) && At(st, c, b);
    }
  }

  lemma SwitchKeepsLogged(st: State, st': State)
    requires Logged(st) && SwitchStep(st, st')
    requires forall d, x :: At(st', d, x) <==> (d == 1 && At(st, 0, x)) || (d >= 2 && At(st, d, x))
    ensures Logged(st')
  {
    forall e | At(st', 1, e) ensures InLog(st'.logs[st.curLog], e) {
      assert InLog(st.logs[st.curLog], e);
    }
    forall n, e | n in st'.logs && st'.logNumber <= n < st'.curLog && InLog(st'.logs[n], e) ensures At(st', 1, e) {
      OldLogEntry(st, n, e);
    }
  }

  lemma OldLogEntry(st: State, n: nat, e: Entry)
    requires Logged(st) && st.imm.None? && n in st.logs && st.logNumber <= n && InLog(st.logs[n], e)
    ensures At(st, 0, e)
  {
    assert n < st.curLog ==> At(st, 1, e);
  }

  lemma SnapshotKeepsInv(st: State, st': State)
    requires Inv(st) && SnapshotStep(st, st')
    ensures Inv(st')
  {
    SameLayersKeepInv(st, st');
  }

  lemma ReleaseKeepsInv(st: State, st': State, i: nat)
    requires Inv(st) && ReleaseStep(st, st', i)
    ensures Inv(st')
  {
    SameLayersKeepInv(st, st');
  }

  /** Snapshots may come and go as long as no older sequence number becomes readable. */
  lemma SameLayersKeepInv(st: State, st': State)
    requires Inv(st) && st' ==
             st.(snapshots := st'.snapshots, job := st'.job, logs := st'.logs, nextFile := st'.nextFile)
    requires st.nextFile <= st'.nextFile
    requires Floor(st) <= Floor(st') && SnapshotsOrdered(st') && JobInv(st')
    requires st.logNumber <= st'.curLog && forall n :: n >= st.logNumber ==>
      (n in st.logs <==> n in st'.logs) && (n in st.logs ==> st'.logs[n] == st.logs[n])
    requires forall n :: n in st'.logs ==> n in st.logs
    ensures Inv(st')
  {
    forall d, x ensures At(st', d, x) <==> At(st, d, x) {}
    SameEntriesKeepFaithful(st, st');
  }

  lemma DropLogsKeepsInv(st: State, st': State, gone: set<nat>)
    requires Inv(st) && DropLogsStep(st, st', gone)
    ensures Inv(st')
  {
    SameLayersKeepInv(st, st');
  }

  lemma NumberKeepsInv(st: State, st': State)
    requires Inv(st) && NumberStep(st, st')
    ensures Inv(st')
  {
    SameLayersKeepInv(st, st');
  }

  lemma AbortKeepsInv(st: State, st': State)
    requires Inv(st) && AbortStep(st, st')
    ensures Inv(st')
  {
    SameLayersKeepInv(st, st');
  }

  // ---------------------------------------------------------------- flushing

  lemma FlushAt(st: State, st': State, level: nat, out: seq<File>, f: File)
    requires FlushStep(st, st', level, out, f)
    ensures Flushed(st, st')
    ensures forall d, x :: At(st', d, x) <==> (d != 1 && At(st, d, x)) || (d == level + 2 && At(st, 1, x))
    ensures forall x :: Stored(st', x) <==> Stored(st, x)
  {
    if |st.imm.value| > 0 { SavedOneMore(st.levels[level], f, out); }
    LevelReplacedAt(st, st', level, out);
    forall x | Stored(st, x) ensures Stored(st', x) {
      var d: nat :| At(st, d, x);
      assert At(st', if d == 1 then level + 2 else d, x);
    }
  }

  lemma LevelReplacedAt(st: State, st': State, level: nat, out: seq<File>)
    requires st.imm.Some? && level < |st.levels| && st'.levels == st.levels[level := out]
    requires st'.mem == st.mem && st'.imm.None?
    requires forall x :: InFiles(out, x) <==> InFiles(st.levels[level], x) || x in st.imm.value
    ensures forall d, x :: At(st', d, x) <==> (d != 1 && At(st, d, x)) || (d == level + 2 && At(st, 1, x))
  {
    forall d: nat, x ensures At(st', d, x) <==> (d != 1 && At(st, d, x)) || (d == level + 2 && At(st, 1, x)) {
      if d >= 2 && d != level + 2 && d - 2 < |st.levels| { assert st'.levels[d - 2] == st.levels[d - 2]; }
    }
  }

  lemma FlushKeepsLayers(st: State, st': State, level: nat, out: seq<File>, f: File)
    requires Layered(st) && FlushOrdered(st) && FlushStep(st, st', level, out, f)
    ensures Layered(st')
  {
    FlushAt(st, st', level, out, f);
    forall d: nat, c: nat, a, b | d < c && At(st', d, a) && At(st', c, b) && a.key == b.key ensures a.sn > b.sn {
      if !At(st, d, a) {
        assert At(st, 1, a) && At(st, c, b);
      } else if !At(st, c, b) {
        assert At(st, 1, b);
        if d >= 2 { FlushedShareNoKey(st, st', level, out, f, d - 2, a, b); }
      }
    }
  }

  lemma FlushKeepsLevelZero(st: State, st': State, level: nat, out: seq<File>, f: File)
    requires CoreInv(st) && FlushStep(st, st', level, out, f)
    ensures LevelZeroOrdered(st'.levels[0])
  {
    if level == 0 && |st.imm.value| > 0 { FlushedIsNewer(st, f); }
  }

  lemma FlushedShareNoKey(st: State, st': State, level: nat, out: seq<File>, f: File, l: nat, a: Entry, b: Entry)
    requires FlushStep(st, st', level, out, f) && l < level
    requires InFiles(st.levels[l], a) && b in st.imm.value
    ensures a.key != b.key
  {
    var g :| g in st.levels[l] && a in g.data;
    assert st.levels[..level + 1][l] == st.levels[l];
    ApartShareNoKey(f, g);
  }

  lemma FlushKeepsJob(st: State, st': State, level: nat, out: seq<File>, f: File)
    requires Inv(st) && FlushStep(st, st', level, out, f) && |st.imm.value| > 0
    ensures JobInv(st')
  {
    if st.job.Some? {
      var j := st.job.value;
      FlushedIsNewer(st, f);
      if level == j.level { FlushKeepsUpper(st.levels[level], out, f, j); }
      if level == j.level + 1 { FlushKeepsLower(st, level, out, f, j); }
      FlushKeepsBase(st, st', level, out, f, j);
    }
  }

  lemma FlushKeepsUpper(level: seq<File>, out: seq<File>, f: File, j: Job)
    requires Saved(level, {}, [f], out) && UpperInputsOk(level, j)
    requires forall g :: g in level ==> NewerOn(f, g)
    ensures UpperInputsOk(out, j)
  {
  }

  lemma FlushKeepsLower(st: State, level: nat, out: seq<File>, f: File, j: Job)
    requires |st.levels| == NUM_LEVELS && level == j.level + 1 < NUM_LEVELS &&
             NothingOverlaps(st.levels[..level + 1], f)
    requires JobOk(st.levels, j) && Saved(st.levels[level], {}, [f], out)
    ensures LowerInputsOk(out, j)
  {
    if j.auto { FlushedBesideJob(st, level, f, j); }
    forall e | IsInput(j, e) ensures !f.Covers(e.key) { FlushedCoversNoInput(st, level, f, j, e); }
  }

  lemma FlushKeepsBase(st: State, st': State, level: nat, out: seq<File>, f: File, j: Job)
    requires |st.levels| == NUM_LEVELS && level < NUM_LEVELS && JobOk(st.levels, j)
    requires level > 0 ==> NothingOverlaps(st.levels[..level + 1], f)
    requires Saved(st.levels[level], {}, [f], out) && st'.levels == st.levels[level := out]
    ensures BaseTestOk(st'.levels, j)
  {
    forall e | IsInput(j, e)
      ensures NoFileCovers(st.levels, j.level + 2, e.key) <==> NoFileCovers(st'.levels, j.level + 2, e.key)
    {
      if level >= j.level + 2 {
        FlushedCoversNoInput(st, level, f, j, e);
        CoverUnchanged(st.levels, st'.levels, level, f, j.level + 2, e.key);
      } else {
        SameDeepLevels(st.levels, st'.levels, j.level + 2, e.key);
      }
    }
  }

  lemma SameDeepLevels(levels: seq<seq<File>>, levels': seq<seq<File>>, first: nat, k: int)
    requires |levels| == |levels'| && forall l :: first <= l < |levels| ==> levels[l] == levels'[l]
    ensures NoFileCovers(levels, first, k) <==> NoFileCovers(levels', first, k)
  {
  }

  lemma CoverUnchanged(levels: seq<seq<File>>, levels': seq<seq<File>>, level: nat, f: File, first: nat, k: int)
    requires |levels'| == |levels| && first <= level < |levels| && levels' == levels[level := levels'[level]]
    requires forall g :: g in levels'[level] <==> g in levels[level] || g == f
    requires !f.Covers(k)
    ensures NoFileCovers(levels, first, k) <==> NoFileCovers(levels', first, k)
  {
    forall l, g | first <= l < |levels| && g in levels[l] ensures g in levels'[l] {}
    forall l, g | first <= l < |levels| && g in levels'[l] ensures g in levels[l] || g == f {}
  }

  lemma FlushedIsNewer(st: State, f: File)
    requires Layered(st) && |st.levels| == NUM_LEVELS && st.imm.Some? && f.data == st.imm.value
    ensures forall l, g :: 0 <= l < NUM_LEVELS && g in st.levels[l] ==> NewerOn(f, g)
  {
    forall l, g | 0 <= l < NUM_LEVELS && g in st.levels[l] ensures NewerOn(f, g) {
      forall a, b | a in g.data && b in f.data && a.key == b.key ensures b.sn > a.sn {
        assert At(st, 1, b) && At(st, l + 2, a);
      }
    }
  }

  /** A table pushed to level or deeper overlaps no input at or above that level. */
  lemma FlushedCoversNoInput(st: State, level: nat, f: File, j: Job, e: Entry)
    requires |st.levels| == NUM_LEVELS && j.level + 1 <= level < NUM_LEVELS &&
             NothingOverlaps(st.levels[..level + 1], f)
    requires JobOk(st.levels, j) && IsInput(j, e)
    ensures !f.Covers(e.key)
  {
    var l, fs := if InFiles(j.in0, e) then j.level else j.level + 1, if InFiles(j.in0, e) then j.in0 else j.in1;
    var g :| g in fs && e in g.data;
    assert g in st.levels[l] && st.levels[..level + 1][l] == st.levels[l];
    assert !Overlaps(g, Some(f.Smallest().key), Some(f.Largest().key));
    EntryInRange(g, e);
    EntryInRange(f, f.Largest());
  }

  /** Inputs without a gap leave no room for a flushed table among them. */
  lemma FlushedBesideJob(st: State, level: nat, f: File, j: Job)
    requires |st.levels| == NUM_LEVELS && level == j.level + 1 < NUM_LEVELS &&
             NothingOverlaps(st.levels[..level + 1], f)
    requires JobOk(st.levels, j) && j.auto
    ensures Beside(f, j)
  {
    EntryInRange(f, f.Largest());
    forall e | IsInput(j, e) ensures e.key < f.Smallest().key || f.Largest().key < e.key {
      FlushedCoversNoInput(st, level, f, j, e);
    }
    forall a, b | IsInput(j, a) && IsInput(j, b) ensures !(a.key < f.Smallest().key && f.Largest().key < b.key) {
      NoRoomBetween(st, level, f, j, a, b);
    }
  }

  lemma NoRoomBetween(st: State, level: nat, f: File, j: Job, a: Entry, b: Entry)
    requires |st.levels| == NUM_LEVELS && level == j.level + 1 < NUM_LEVELS &&
             NothingOverlaps(st.levels[..level + 1], f)
    requires JobOk(st.levels, j) && j.auto && IsInput(j, a) && IsInput(j, b)
    ensures !(a.key < f.Smallest().key && f.Largest().key < b.key)
  {
    EntryInRange(f, f.Largest());
    if a.key < f.Smallest().key && f.Largest().key < b.key {
      InputsCover(j, a, b, f.Smallest().key);
      var h :| h in j.in0 + j.in1 && h.Covers(f.Smallest().key);
      FlushedTouches(st, level, f, j, h);
    }
  }

  lemma InputsCover(j: Job, a: Entry, b: Entry, x: int)
    requires Connected(j.in0 + j.in1) && IsInput(j, a) && IsInput(j, b) && a.key < x < b.key
    ensures Covered(j.in0 + j.in1, x)
  {
    var all := j.in0 + j.in1;
    var p :| p in all && a in p.data;
    var q :| q in all && b in q.data;
    EntryInRange(p, a);
    EntryInRange(q, b);
  }

  lemma FlushedTouches(st: State, level: nat, f: File, j: Job, h: File)
    requires |st.levels| == NUM_LEVELS && level == j.level + 1 < NUM_LEVELS &&
             NothingOverlaps(st.levels[..level + 1], f)
    requires JobOk(st.levels, j) && h in j.in0 + j.in1
    ensures !h.Covers(f.Smallest().key)
  {
    EntryInRange(f, f.Largest());
    var l := if h in j.in0 then j.level else j.level + 1;
    assert h in st.levels[l] && st.levels[..level + 1][l] == st.levels[l];
    assert !Overlaps(h, Some(f.Smallest().key), Some(f.Largest().key));
  }

  lemma FlushKeepsInv(st: State, st': State, level: nat, out: seq<File>, f: File)
    requires Inv(st) && FlushStep(st, st', level, out, f)
    ensures Inv(st')
  {
    FlushAt(st, st', level, out, f);
    FlushKeepsLayers(st, st', level, out, f);
    FlushKeepsLevelZero(st, st', level, out, f);
    FlushKeepsShape(st, st', level, out, f);
    FlushKeepsOrder(st, st');
    FlushKeepsLogged(st, st');
    FlushKeepsReaders(st, st', level, out, f);
  }

  lemma FlushKeepsReaders(st: State, st': State, level: nat, out: seq<File>, f: File)
    requires Inv(st) && FlushStep(st, st', level, out, f)
    ensures Faithful(st') && JobInv(st') && SnapshotsOrdered(st')
  {
    FlushAt(st, st', level, out, f);
    SameEntriesKeepFaithful(st, st');
    if |st.imm.value| > 0 {
      FlushKeepsJob(st, st', level, out, f);
    } else {
      assert st'.levels == st.levels;
    }
  }

  /** What FlushAt says: the immutable memtable is on a level now. */
  ghost predicate Flushed(st: State, st': State) {
    (forall x :: At(st', 0, x) <==> At(st, 0, x)) && (forall x :: !At(st', 1, x)) &&
    (forall d, x :: d >= 2 && At(st', d, x) ==> At(st, d, x) || At(st, 1, x))
  }

  lemma FlushKeepsOrder(st: State, st': State)
    requires FlushOrdered(st) && Recorded(st) && Flushed(st, st') && st.imm.Some?
    requires st'.imm.None? && st'.mem == st.mem && st'.hist == st.hist && st'.lastSeq == st.lastSeq
    requires st'.manifestSeq == st.lastSeq && st'.flushedSeq == MaxSn(st.imm.value, st.flushedSeq)
    ensures FlushOrdered(st') && Recorded(st')
  {
    forall e | e in st.imm.value ensures At(st, 1, e) && e.sn <= st.lastSeq {
      assert At(st, 1, e);
      assert e.sn in st.hist;
    }
    FlushKeepsTail(st, st');
    forall d: nat, x | At(st', d, x) ensures At(st, d, x) || At(st, 1, x) {
      if d < 2 { assert d == 0; }
    }
  }

  lemma FlushKeepsLogged(st: State, st': State)
    requires Logged(st) && LogsAscending(st.logs, st.logNumber) && Flushed(st, st')
    requires st'.logs == st.logs && st'.curLog == st.curLog && st'.logNumber == st.curLog &&
             st'.nextFile == st.nextFile + 1
    ensures Logged(st') && LogsAscending(st'.logs, st'.logNumber)
  {
  }

  lemma FlushKeepsShape(st: State, st': State, level: nat, out: seq<File>, f: File)
    requires WellFormed(st) && NumbersUnique(st.levels, st.manifestNext) && FlushStep(st, st', level, out, f)
    ensures WellFormed(st') && NumbersUnique(st'.levels, st'.manifestNext)
  {
    FlushKeepsNumbers(st.levels, st.manifestNext, level, out, f, |st.imm.value| == 0, st.nextFile);
  }

  lemma FlushKeepsTail(st: State, st': State)
    requires FlushOrdered(st) && Recorded(st) && st.imm.Some? && st'.imm.None? && st'.mem == st.mem &&
             st'.hist == st.hist
    requires st'.flushedSeq == MaxSn(st.imm.value, st.flushedSeq)
    ensures forall n :: n in st'.hist && n > st'.flushedSeq ==> At(st', 0, st'.hist[n])
    ensures forall e :: At(st', 0, e) ==> e.sn > st'.flushedSeq
  {
    forall n | n in st'.hist && n > st'.flushedSeq ensures At(st', 0, st'.hist[n]) {
      assert At(st, 0, st.hist[n]) || At(st, 1, st.hist[n]);
    }
    forall e | At(st', 0, e) ensures e.sn > st'.flushedSeq {
      assert At(st, 0, e);
      if b :| b in st.imm.value && b.sn == st'.flushedSeq { assert At(st, 1, b); }
    }
  }

  lemma FlushKeepsNumbers(levels: seq<seq<File>>, next: nat, level: nat, out: seq<File>, f: File, empty: bool,
                          number: nat)
    requires NumbersUnique(levels, next) && level < |levels| && next <= number
    requires if empty then out == levels[level] else Saved(levels[level], {}, [f], out) && f.number == number
    ensures NumbersUnique(levels[level := out], number + 1)
  {
    forall l, g | 0 <= l < |levels| && g in levels[level := out][l]
      ensures g in levels[l] || (!empty && l == level && g == f) {}
  }

  // ---------------------------------------------------------------- starting a compaction, moving a file

  /** Files not chosen on the lower level lie beside all the chosen ones. */
  lemma UnchosenBeside(fs1: seq<File>, j: Job, lo: int, hi: int, g: File)
    requires Disjoint(fs1) && UserRange(j.in0, lo, hi) && j.in1 == Overlapping(fs1, Some(lo), Some(hi))
    requires g in fs1 && g !in j.in1
    ensures Beside(g, j)
    ensures forall e :: InFiles(j.in0, e) ==> !g.Covers(e.key)
  {
    hide Disjoint, Overlapping, UserRange, InFiles;
    UpperInRange(j, lo, hi);
    UnchosenBesideLower(fs1, j, lo, hi, g);
    UnchosenIsOutside(fs1, j, lo, hi, g);
    if g.Largest().key < lo {
      assert forall e :: IsInput(j, e) ==> Before(g.Largest(), e);
    } else {
      assert forall e :: IsInput(j, e) ==> Before(e, g.Smallest());
    }
  }

  lemma UnchosenIsOutside(fs1: seq<File>, j: Job, lo: int, hi: int, g: File)
    requires j.in1 == Overlapping(fs1, Some(lo), Some(hi)) && g in fs1 && g !in j.in1
    ensures g.Largest().key < lo || g.Smallest().key > hi
    ensures g.Smallest().key <= g.Largest().key
  {
    EntryInRange(g, g.Largest());
  }

  lemma UpperInRange(j: Job, lo: int, hi: int)
    requires UserRange(j.in0, lo, hi)
    ensures forall e :: InFiles(j.in0, e) ==> lo <= e.key <= hi
  {
    forall e | InFiles(j.in0, e) ensures lo <= e.key <= hi {
      var f :| f in j.in0 && e in f.data;
      RangeBounds(j.in0, lo, hi, f);
      EntryInRange(f, e);
    }
  }

  lemma UnchosenBesideLower(fs1: seq<File>, j: Job, lo: int, hi: int, g: File)
    requires Disjoint(fs1) && j.in1 == Overlapping(fs1, Some(lo), Some(hi)) && g in fs1 && g !in j.in1
    ensures forall e :: InFiles(j.in1, e) ==>
              (g.Largest().key < lo ==> Before(g.Largest(), e)) && (g.Smallest().key > hi ==> Before(e, g.Smallest()))
  {
    forall e | InFiles(j.in1, e)
      ensures g.Largest().key < lo ==> Before(g.Largest(), e)
      ensures g.Smallest().key > hi ==> Before(e, g.Smallest())
    {
      var h :| h in j.in1 && e in h.data;
      NeighboursApart(fs1, g, h);
      EntryInRange(h, e);
    }
  }

  lemma NeighboursApart(fs: seq<File>, g: File, h: File)
    requires Disjoint(fs) && g in fs && h in fs && g != h
    ensures Apart(g, h)
  {
    var m :| 0 <= m < |fs| && fs[m] == g;
    var n :| 0 <= n < |fs| && fs[n] == h;
    if m < n { assert Before(fs[m].Largest(), fs[n].Smallest()); }
    if n < m { assert Before(fs[n].Largest(), fs[m].Smallest()); }
  }

  lemma StartIsOk(levels: seq<seq<File>>, j: Job, lo: int, hi: int)
    requires |levels| == NUM_LEVELS && j.level + 1 < NUM_LEVELS && LevelsSorted(levels)
    requires GoodInputs(levels[j.level], levels[j.level + 1], j.in0, j.in1, lo, hi)
    requires j.version == levels && (j.auto ==> Connected(j.in0 + j.in1)) && (j.level > 0 ==> Disjoint(j.in0))
    ensures JobOk(levels, j)
  {
    var fs1 := levels[j.level + 1];
    OverlappingIsDisjoint(fs1, Some(lo), Some(hi), |fs1|);
    forall g | g in fs1 && g !in j.in1
      ensures Beside(g, j) && forall e :: InFiles(j.in0, e) ==> !g.Covers(e.key)
    {
      UnchosenBeside(fs1, j, lo, hi, g);
    }
  }

  lemma StartKeepsInv(st: State, st': State, j: Job, lo: int, hi: int)
    requires Inv(st) && StartStep(st, st', j, lo, hi)
    ensures Inv(st')
  {
    StartIsOk(st.levels, j, lo, hi);
    SameLayersKeepInv(st, st');
  }

  lemma MoveAt(st: State, st': State, level: nat, f: File, out0: seq<File>, out1: seq<File>)
    requires level + 1 < |st.levels| && st'.levels == st.levels[level := out0][level + 1 := out1]
    requires st'.mem == st.mem && st'.imm == st.imm && f in st.levels[level]
    requires forall g :: g in out0 <==> g in st.levels[level] && g != f
    requires Saved(st.levels[level + 1], {}, [f], out1)
    ensures Moved(st, st', level, f)
    ensures forall d, x :: d == level + 2 && At(st', d, x) ==> InFiles(out0, x)
  {
    TwoLevelsAt(st, st', level, out0, out1);
    SavedOneMore(st.levels[level + 1], f, out1);
    forall x | InFiles(st.levels[level], x) ensures InFiles(out0, x) || x in f.data {
      var g :| g in st.levels[level] && x in g.data;
      assert g in out0 || g == f;
    }
    forall x | InFiles(out0, x) ensures InFiles(st.levels[level], x) { var g :| g in out0 && x in g.data; }
  }

  lemma MovedFile(st: State, st': State, level: nat, f: File, lo: int, hi: int, out0: seq<File>, out1: seq<File>)
    requires NumbersUnique(st.levels, st.manifestNext) && MoveStep(st, st', level, f, lo, hi, out0, out1)
    ensures f in st.levels[level]
    ensures forall g :: g in out0 <==> g in st.levels[level] && g != f
    ensures forall g :: g in out0 ==> NewerOn(g, f)
  {
    assert f in [f];
  }

  lemma TwoLevelsAt(st: State, st': State, level: nat, out0: seq<File>, out1: seq<File>)
    requires level + 1 < |st.levels| && st'.levels == st.levels[level := out0][level + 1 := out1]
    requires st'.mem == st.mem && st'.imm == st.imm
    ensures forall d: nat, x :: At(st', d, x) <==>
      if d == level + 2 then InFiles(out0, x) else if d == level + 3 then InFiles(out1, x) else At(st, d, x)
  {
    forall d: nat, x ensures At(st', d, x) <==>
      if d == level + 2 then InFiles(out0, x) else if d == level + 3 then InFiles(out1, x) else At(st, d, x)
    {
      if 2 <= d < |st.levels| + 2 && d != level + 2 && d != level + 3 { assert st'.levels[d - 2] == st.levels[d - 2]; }
    }
  }

  lemma SavedOneMore(fs: seq<File>, f: File, out1: seq<File>)
    requires Saved(fs, {}, [f], out1)
    ensures forall x :: InFiles(out1, x) <==> InFiles(fs, x) || x in f.data
  {
    assert f in out1;
    forall x | InFiles(fs, x) ensures InFiles(out1, x) { var g :| g in fs && x in g.data; assert g in out1; }
    forall x | InFiles(out1, x) ensures InFiles(fs, x) || x in f.data { var g :| g in out1 && x in g.data; }
  }

  lemma ManifestIsBehind(st: State)
    requires WellFormed(st)
    ensures st.manifestNext <= st.nextFile
  {
  }

  lemma SameSnapshots(st: State, st': State)
    requires SnapshotsOrdered(st) && st'.snapshots == st.snapshots && st'.lastSeq == st.lastSeq
    ensures SnapshotsOrdered(st')
  {
  }

  lemma NoJobIsOk(st: State)
    requires st.job.None?
    ensures JobInv(st)
  {
  }

  lemma MoveKeepsInv(st: State, st': State, level: nat, f: File, lo: int, hi: int, out0: seq<File>, out1: seq<File>)
    requires Inv(st) && MoveStep(st, st', level, f, lo, hi, out0, out1)
    ensures Inv(st')
  {
    hide Faithful, Layered, WellFormed, Logged, LogsAscending, NumbersUnique, FlushOrdered, Recorded, LevelZeroOrdered;
    hide GoodInputs, Disjoint, NewerOn, At, Saved, Moved, JobInv, SnapshotsOrdered;
    ManifestIsBehind(st);
    MovedFile(st, st', level, f, lo, hi, out0, out1);
    MoveAt(st, st', level, f, out0, out1);
    MoveKeepsFaithful(st, st', level, f);
    MoveKeepsLayers(st, st', level, f, out0);
    MoveKeepsOrder(st, st', level, f);
    SameMemtablesKeepLogged(st, st');
    MoveKeepsShape(st, st', level, f, lo, hi, out0, out1);
    assert f in [f];
    MoveKeepsNumbers(st.levels, st.manifestNext, st.nextFile, level, f, out0, out1);
    NoJobIsOk(st');
    assert SnapshotsOrdered(st') by { SameSnapshots(st, st'); }
  }

  /** What MoveAt says: f's entries go one level down and nothing else changes place. */
  ghost predicate Moved(st: State, st': State, level: nat, f: File) {
    (forall d, x :: At(st', d, x) ==> At(st, d, x) || (d == level + 3 && x in f.data)) &&
    (forall d, x :: At(st, d, x) ==> At(st', d, x) || (d == level + 2 && x in f.data)) &&
    (forall x :: x in f.data ==> At(st', level + 3, x) && At(st, level + 2, x))
  }

  lemma MoveKeepsFaithful(st: State, st': State, level: nat, f: File)
    requires Faithful(st) && Moved(st, st', level, f)
    requires Bound(st') == Bound(st) && st'.lastSeq == st.lastSeq && st'.hist == st.hist
    ensures Faithful(st')
  {
    forall x ensures Stored(st', x) <==> Stored(st, x) {
      if Stored(st, x) {
        var d: nat :| At(st, d, x);
        assert At(st', d, x) || At(st', level + 3, x);
      }
      if Stored(st', x) {
        var d: nat :| At(st', d, x);
        assert At(st, d, x) || At(st, level + 2, x);
      }
    }
    SameEntriesKeepFaithful(st, st');
  }

  lemma MoveKeepsLayers(st: State, st': State, level: nat, f: File, out0: seq<File>)
    requires Layered(st) && Moved(st, st', level, f)
    requires forall d, x :: d == level + 2 && At(st', d, x) ==> InFiles(out0, x)
    requires forall g :: g in out0 ==> NewerOn(g, f)
    ensures Layered(st')
  {
    forall d: nat, c: nat, a, b | d < c && At(st', d, a) && At(st', c, b) && a.key == b.key ensures a.sn > b.sn {
      if c == level + 3 && !At(st, c, b) && d == level + 2 {
        var g :| g in out0 && a in g.data;
        assert NewerOn(g, f);
      } else {
        var d' := if At(st, d, a) then d else level + 2;
        var c' := if At(st, c, b) then c else level + 2;
        assert At(st, d', a) && At(st, c', b);
      }
    }
  }

  lemma MoveKeepsOrder(st: State, st': State, level: nat, f: File)
    requires Recorded(st) && FlushOrdered(st) && Moved(st, st', level, f)
    requires st'.hist == st.hist && st'.lastSeq == st.lastSeq && st'.flushedSeq == st.flushedSeq
    requires st'.manifestSeq == st.lastSeq
    ensures Recorded(st') && FlushOrdered(st')
  {
    forall d: nat, x | At(st', d, x)
      ensures exists c: nat :: At(st, c, x) && (d >= 2 ==> c >= 2) && (d < 2 ==> c == d)
    {
      assert At(st, d, x) || At(st, level + 2, x);
    }
    forall n | n in st.hist && n > st.flushedSeq ensures At(st', 0, st.hist[n]) || At(st', 1, st.hist[n]) {
      assert At(st, 0, st.hist[n]) || At(st, 1, st.hist[n]);
    }
  }

  /** The memtables and the logs are as they were. */
  lemma SameMemtablesKeepLogged(st: State, st': State)
    requires Logged(st) && st'.mem == st.mem && st'.imm == st.imm && st'.logs == st.logs
    requires st'.curLog == st.curLog && st'.logNumber == st.logNumber && st.nextFile <= st'.nextFile
    ensures Logged(st')
  {
    forall e ensures At(st', 0, e) <==> At(st, 0, e) {}
    forall e ensures At(st', 1, e) <==> At(st, 1, e) {}
  }

  lemma MoveKeepsShape(st: State, st': State, level: nat, f: File, lo: int, hi: int, out0: seq<File>, out1: seq<File>)
    requires WellFormed(st) && LevelZeroOrdered(st.levels[0]) && MoveStep(st, st', level, f, lo, hi, out0, out1)
    requires forall g :: g in out0 ==> g in st.levels[level]
    ensures WellFormed(st') && LevelZeroOrdered(st'.levels[0])
  {
  }

  lemma MoveKeepsNumbers(levels: seq<seq<File>>, next: nat, next': nat, level: nat, f: File, out0: seq<File>,
                         out1: seq<File>)
    requires NumbersUnique(levels, next) && next <= next' && level + 1 < |levels| && f in levels[level]
    requires forall g :: g in out0 <==> g in levels[level] && g != f
    requires Saved(levels[level + 1], {}, [f], out1)
    ensures NumbersUnique(levels[level := out0][level + 1 := out1], next')
  {
    var levels' := levels[level := out0][level + 1 := out1];
    forall l, g | 0 <= l < |levels| && g in levels'[l]
      ensures (g in levels[l] && (l == level ==> g != f)) || (l == level + 1 && g == f) {}
  }

  // ---------------------------------------------------------------- finishing a compaction

  ghost predicate Kept(st: State, j: Job, x: Entry, input: seq<Entry>) {
    Survives(input, j.smallest, j.version, j.level + 2, x)
  }

  /** What a finished compaction did, place by place: inputs are gone unless they survived, and survivors are
      one level down. */
  ghost predicate Compacted(st: State, st': State, j: Job, input: seq<Entry>) {
    (forall x :: x in input <==> IsInput(j, x)) &&
    (forall d, x :: At(st', d, x) ==> At(st, d, x) || (d == j.level + 3 && IsInput(j, x))) &&
    (forall d, x :: At(st, d, x) && !IsInput(j, x) ==> At(st', d, x)) &&
    (forall x :: Kept(st, j, x, input) ==> At(st', j.level + 3, x)) &&
    (forall d, x :: At(st', d, x) && IsInput(j, x) ==> d == j.level + 3 && Kept(st, j, x, input))
  }

  lemma InputAt(st: State, j: Job, x: Entry)
    requires JobOk(st.levels, j) && IsInput(j, x)
    ensures InFiles(j.in0, x) ==> At(st, j.level + 2, x)
    ensures InFiles(j.in1, x) ==> At(st, j.level + 3, x)
  {
  }

  /** No entry of a file that stays where it is occurs in an input as well. */
  lemma LeftAloneIsNoInput(st: State, j: Job, d: nat, x: Entry, g: File)
    requires Layered(st) && JobOk(st.levels, j) && At(st, d, x)
    requires d == j.level + 2 ==> g in st.levels[j.level] && g !in j.in0 && x in g.data
    requires d == j.level + 3 ==> g in st.levels[j.level + 1] && g !in j.in1 && x in g.data
    ensures !IsInput(j, x)
  {
    if x in g.data { EntryInRange(g, x); }
    forall f | f in j.in0 ensures x !in f.data {
      if d == j.level + 2 { assert NewerOn(g, f); }
      assert x in f.data ==> InFiles(st.levels[j.level], x);
      assert x in f.data ==> At(st, j.level + 2, x);
    }
    forall f | f in j.in1 ensures x !in f.data {
      assert x in f.data ==> IsInput(j, x) && InFiles(st.levels[j.level + 1], x);
      assert x in f.data ==> At(st, j.level + 3, x);
    }
  }

  lemma FinishAt(st: State, st': State, input: seq<Entry>, outputs: seq<File>, out0: seq<File>, out1: seq<File>)
    requires Layered(st) && JobInv(st) && NumbersUnique(st.levels, st.manifestNext)
    requires FinishStep(st, st', input, outputs, out0, out1)
    ensures Compacted(st, st', st.job.value, input)
    ensures forall g :: g in out0 <==> g in st.levels[st.job.value.level] && g !in st.job.value.in0
    ensures forall g :: g in out1 <==>
              (g in st.levels[st.job.value.level + 1] && g !in st.job.value.in1) || g in outputs
  {
    var j := st.job.value;
    TwoLevelsAt(st, st', j.level, out0, out1);
    FinishFiles(st, st', input, outputs, out0, out1);
    forall d: nat, x | At(st', d, x)
      ensures At(st, d, x) || (d == j.level + 3 && IsInput(j, x))
      ensures IsInput(j, x) ==> d == j.level + 3 && Kept(st, j, x, input)
    {
      FinishedAt(st, st', j, input, outputs, out0, out1, d, x);
    }
    FinishedStays(st, st', j, input, outputs, out0, out1);
  }

  lemma FinishedStays(st: State, st': State, j: Job, input: seq<Entry>, outputs: seq<File>, out0: seq<File>,
                      out1: seq<File>)
    requires j.level + 1 < |st.levels|
    requires forall d: nat, x :: At(st', d, x) <==>
      if d == j.level + 2 then InFiles(out0, x) else if d == j.level + 3 then InFiles(out1, x) else At(st, d, x)
    requires forall g :: g in out0 <==> g in st.levels[j.level] && g !in j.in0
    requires forall g :: g in out1 <==> (g in st.levels[j.level + 1] && g !in j.in1) || g in outputs
    requires forall e :: Kept(st, j, e, input) ==> InFiles(outputs, e)
    ensures forall x :: Kept(st, j, x, input) ==> At(st', j.level + 3, x)
    ensures forall d, x :: At(st, d, x) && !IsInput(j, x) ==> At(st', d, x)
  {
    forall x | Kept(st, j, x, input) ensures At(st', j.level + 3, x) {
      assert InFiles(outputs, x);
      var g :| g in outputs && x in g.data;
      assert g in out1;
    }
    forall d: nat, x | At(st, d, x) && !IsInput(j, x) ensures At(st', d, x) {
      if d == j.level + 2 {
        var g :| g in st.levels[j.level] && x in g.data;
        assert g in out0;
      } else if d == j.level + 3 {
        var g :| g in st.levels[j.level + 1] && x in g.data;
        assert g in out1;
      }
    }
  }

  lemma FinishFiles(st: State, st': State, input: seq<Entry>, outputs: seq<File>, out0: seq<File>, out1: seq<File>)
    requires JobInv(st) && NumbersUnique(st.levels, st.manifestNext) && FinishStep(st, st', input, outputs, out0, out1)
    ensures forall g :: g in out0 <==> g in st.levels[st.job.value.level] && g !in st.job.value.in0
    ensures forall g :: g in out1 <==>
              (g in st.levels[st.job.value.level + 1] && g !in st.job.value.in1) || g in outputs
  {
    var j := st.job.value;
    forall f | f in st.levels[j.level] ensures f.number in Numbers(j.in0) <==> f in j.in0 {}
    forall f | f in st.levels[j.level + 1] ensures f.number in Numbers(j.in1) <==> f in j.in1 {}
    forall f | f in outputs ensures f.number !in Numbers(j.in1) {}
  }

  lemma FinishedAt(st: State, st': State, j: Job, input: seq<Entry>, outputs: seq<File>, out0: seq<File>,
                   out1: seq<File>, d: nat, x: Entry)
    requires Layered(st) && JobOk(st.levels, j) && At(st', d, x)
    requires d == j.level + 2 ==> InFiles(out0, x)
    requires d == j.level + 3 ==> InFiles(out1, x)
    requires d != j.level + 2 && d != j.level + 3 ==> At(st, d, x)
    requires forall g :: g in out0 <==> g in st.levels[j.level] && g !in j.in0
    requires forall g :: g in out1 <==> (g in st.levels[j.level + 1] && g !in j.in1) || g in outputs
    requires forall e :: InFiles(outputs, e) ==> Kept(st, j, e, input)
    requires forall e :: e in input <==> IsInput(j, e)
    ensures At(st, d, x) || (d == j.level + 3 && IsInput(j, x))
    ensures IsInput(j, x) ==> d == j.level + 3 && Kept(st, j, x, input)
  {
    if InFiles(outputs, x) && d == j.level + 3 { return; }
    var g := j.in0[0];
    if d == j.level + 2 {
      g :| g in out0 && x in g.data;
    } else if d == j.level + 3 {
      g :| g in out1 && x in g.data;
    }
    assert At(st, d, x);
    LeftAloneIsNoInput(st, j, d, x, g);
  }

  lemma FinishKeepsLayers(st: State, st': State, j: Job, input: seq<Entry>, out0: seq<File>)
    requires Layered(st) && JobOk(st.levels, j) && Compacted(st, st', j, input)
    requires forall d, x :: d == j.level + 2 && At(st', d, x) ==> InFiles(out0, x)
    requires forall g :: g in out0 <==> g in st.levels[j.level] && g !in j.in0
    ensures Layered(st')
  {
    forall d: nat, c: nat, a, b | d < c && At(st', d, a) && At(st', c, b) && a.key == b.key ensures a.sn > b.sn {
      if IsInput(j, a) { InputAt(st, j, a); }
      if IsInput(j, b) {
        InputAt(st, j, b);
        if InFiles(j.in0, b) && d == j.level + 2 {
          var g :| g in out0 && a in g.data;
          var f :| f in j.in0 && b in f.data;
          assert NewerOn(g, f);
        } else {
          var c' := if InFiles(j.in0, b) then j.level + 2 else j.level + 3;
          assert At(st, c', b) && d < c' && At(st, d, a);
        }
      } else {
        var d' := if At(st, d, a) then d else j.level + 2;
        assert At(st, c, b) && (At(st, d', a) || At(st, j.level + 3, a));
      }
    }
  }

  // ---------------------------------------------------------------- compaction preserves reads, exactly when

  /** Every reader from the bound on gets the same answers from st' as from st. */
  ghost predicate PreservesReads(st: State, st': State) {
    forall k, s, r :: Bound(st) <= s <= st.lastSeq && Answers(st, k, s, r) ==> Answers(st', k, s, r)
  }

  /** Deletion n is about to be dropped by rule (B), and the newest version it still covers up outside the
      inputs is the value m.  SetupOtherInputs does not rule this out: it closes only the upper inputs under
      AddBoundaryInputs, so a lower-level neighbour of the inputs may hold m. */
  ghost predicate Reappears(st: State, j: Job, n: Entry, m: Entry) {
    IsInput(j, n) && ObsoleteDeletion(j.smallest, j.version, j.level + 2, n) && Newest(st, n.key, Bound(st), n) &&
    m.op.Put? && CoveredUp(st, j, n, m) && forall x :: CoveredUp(st, j, n, x) ==> x.sn <= m.sn
  }

  /** x is an older version of n's key that the compaction leaves where it is. */
  ghost predicate CoveredUp(st: State, j: Job, n: Entry, x: Entry) {
    Stored(st, x) && !IsInput(j, x) && x.key == n.key && x.sn < n.sn
  }

  ghost predicate DropSafe(st: State, j: Job) { forall n, m :: !Reappears(st, j, n, m) }

  lemma NewestUnique(st: State, k: int, s: nat, a: Entry, b: Entry)
    requires Recorded(st) && Newest(st, k, s, a) && Newest(st, k, s, b)
    ensures a == b
  {
    var d: nat :| At(st, d, a);
    var c: nat :| At(st, c, b);
    assert st.hist[a.sn] == a && st.hist[b.sn] == b;
  }

  lemma {:induction false} NewestExists(st: State, k: int, s: nat)
    ensures NothingVisible(st, k, s) || exists e :: Newest(st, k, s, e)
  {
    if x :| Stored(st, x) && x.key == k && x.sn == s {
      assert Newest(st, k, s, x);
    } else if s > 0 {
      var t := s - 1;
      NewestExists(st, k, t);
      if e :| Newest(st, k, t, e) { assert Newest(st, k, s, e); }
    }
  }

  lemma CompactedStores(st: State, st': State, j: Job, input: seq<Entry>, x: Entry)
    requires JobOk(st.levels, j) && Compacted(st, st', j, input)
    ensures Stored(st', x) <==> Stored(st, x) && (IsInput(j, x) ==> Kept(st, j, x, input))
  {
    if Stored(st', x) {
      var d: nat :| At(st', d, x);
      if IsInput(j, x) { InputAt(st, j, x); }
      assert At(st, d, x) || IsInput(j, x);
    }
    if Stored(st, x) && !IsInput(j, x) { var d: nat :| At(st, d, x); assert At(st', d, x); }
  }

  lemma InputIsOld(st: State, j: Job, p: Entry)
    requires FlushOrdered(st) && JobInv(st) && st.job == Some(j) && IsInput(j, p)
    ensures Stored(st, p) && (p.sn <= j.smallest ==> p.sn <= Bound(st))
  {
    InputAt(st, j, p);
    assert At(st, j.level + 2, p) || At(st, j.level + 3, p);
  }

  /** An input hidden from every live reader is no reader's newest version. */
  lemma HiddenIsNotNewest(st: State, j: Job, input: seq<Entry>, k: int, s: nat, n: Entry)
    requires FlushOrdered(st) && JobInv(st) && st.job == Some(j) && Bound(st) <= s
    requires forall x :: x in input <==> IsInput(j, x)
    requires Newest(st, k, s, n)
    ensures !Hidden(input, j.smallest, n)
  {
    forall p | p in input && p.key == n.key ensures !(n.sn < p.sn <= j.smallest) {
      InputIsOld(st, j, p);
    }
  }

  /** Once a droppable deletion is the newest version, no older input survives it. */
  lemma OlderInputsGo(st: State, j: Job, input: seq<Entry>, n: Entry, x: Entry)
    requires forall e :: e in input <==> IsInput(j, e)
    requires IsInput(j, n) && n.sn <= j.smallest && x.key == n.key && x.sn < n.sn
    ensures !Kept(st, j, x, input)
  {
    assert n in input;
  }

  lemma CompactionKeepsAnswer(st: State, st': State, j: Job, input: seq<Entry>, k: int, s: nat, r: Option<UserValue>)
    requires Recorded(st) && FlushOrdered(st) && JobInv(st) && st.job == Some(j) && Compacted(st, st', j, input) &&
             DropSafe(st, j)
    requires Bound(st) <= s && Answers(st, k, s, r)
    ensures Answers(st', k, s, r)
  {
    forall x ensures Stored(st', x) <==> Stored(st, x) && (IsInput(j, x) ==> Kept(st, j, x, input)) {
      CompactedStores(st, st', j, input, x);
    }
    if NothingVisible(st, k, s) {
      assert NothingVisible(st', k, s);
      if n :| Newest(st, k, s, n) { assert Stored(st, n); }
    } else {
      var n :| Newest(st, k, s, n) && r == ValueOf(n.op);
      if Stored(st', n) {
        assert Newest(st', k, s, n);
      } else {
        HiddenIsNotNewest(st, j, input, k, s, n);
        DroppedDeletionStaysHidden(st, st', j, input, k, s, n);
      }
    }
  }

  lemma DroppedDeletionStaysHidden(st: State, st': State, j: Job, input: seq<Entry>, k: int, s: nat, n: Entry)
    requires Recorded(st) && FlushOrdered(st) && JobInv(st) && st.job == Some(j) && Compacted(st, st', j, input) &&
             DropSafe(st, j)
    requires forall x :: Stored(st', x) <==> Stored(st, x) && (IsInput(j, x) ==> Kept(st, j, x, input))
    requires Bound(st) <= s && Newest(st, k, s, n) && IsInput(j, n)
    requires ObsoleteDeletion(j.smallest, j.version, j.level + 2, n)
    ensures Answers(st', k, s, None)
  {
    hide Stored, IsInput, Kept, Recorded, FlushOrdered, JobInv, Bound;
    InputIsOld(st, j, n);
    assert Newest(st, k, Bound(st), n);
    StillStoredIsCovered(st, st', j, input, k, s, n);
    NewestExists(st', k, s);
    if m :| Newest(st', k, s, m) {
      forall x | CoveredUp(st, j, n, x) ensures x.sn <= m.sn { assert Stored(st', x); }
      assert !Reappears(st, j, n, m);
    }
  }

  /** What a reader can still see once its newest version n was dropped is what n covered up. */
  lemma StillStoredIsCovered(st: State, st': State, j: Job, input: seq<Entry>, k: int, s: nat, n: Entry)
    requires Recorded(st) && forall e :: e in input <==> IsInput(j, e)
    requires forall x :: Stored(st', x) <==> Stored(st, x) && (IsInput(j, x) ==> Kept(st, j, x, input))
    requires Newest(st, k, s, n) && IsInput(j, n) && ObsoleteDeletion(j.smallest, j.version, j.level + 2, n)
    ensures forall x :: Stored(st', x) && x.key == k && x.sn <= s ==> CoveredUp(st, j, n, x)
  {
    forall x | Stored(st', x) && x.key == k && x.sn <= s ensures CoveredUp(st, j, n, x) {
      if x.sn == n.sn { NewestUnique(st, k, s, n, x); }
      if IsInput(j, x) && x.sn < n.sn { OlderInputsGo(st, j, input, n, x); }
    }
  }

  lemma ReappearanceIsSeen(st: State, st': State, j: Job, input: seq<Entry>, n: Entry, m: Entry)
    requires Recorded(st) && FlushOrdered(st) && JobInv(st) && st.job == Some(j) && Compacted(st, st', j, input) &&
             Recorded(st')
    requires Reappears(st, j, n, m)
    ensures !PreservesReads(st, st')
  {
    var k, s := n.key, Bound(st);
    forall x ensures Stored(st', x) <==> Stored(st, x) && (IsInput(j, x) ==> Kept(st, j, x, input)) {
      CompactedStores(st, st', j, input, x);
    }
    assert Answers(st, k, s, None);
    StillStoredIsCovered(st, st', j, input, k, s, n);
    assert Newest(st', k, s, m);
    NoneIsWrong(st', k, s, m);
  }

  lemma NoneIsWrong(st: State, k: int, s: nat, m: Entry)
    requires Recorded(st) && Newest(st, k, s, m) && m.op.Put?
    ensures !Answers(st, k, s, None)
  {
    forall e | Newest(st, k, s, e) ensures e == m { NewestUnique(st, k, s, e, m); }
  }

  lemma FinishKeepsOrder(st: State, st': State, j: Job, input: seq<Entry>)
    requires Recorded(st) && FlushOrdered(st) && JobOk(st.levels, j) && Compacted(st, st', j, input)
    requires st'.hist == st.hist && st'.lastSeq == st.lastSeq && st'.flushedSeq == st.flushedSeq
    requires st'.manifestSeq == st.lastSeq && st'.mem == st.mem && st'.imm == st.imm
    ensures Recorded(st') && FlushOrdered(st')
  {
    forall d: nat, x | At(st', d, x)
      ensures exists c: nat :: At(st, c, x) && (d >= 2 ==> c >= 2) && (d < 2 ==> c == d)
    {
      if !At(st, d, x) {
        InputAt(st, j, x);
        assert At(st, j.level + 2, x) || At(st, j.level + 3, x);
      }
    }
    SameMemtables(st, st');
  }

  lemma SameMemtables(st: State, st': State)
    requires st'.mem == st.mem && st'.imm == st.imm
    ensures forall e :: (At(st', 0, e) <==> At(st, 0, e)) && (At(st', 1, e) <==> At(st, 1, e))
  {
  }

  lemma FinishKeepsShape(st: State, st': State, level: nat, out0: seq<File>, out1: seq<File>)
    requires WellFormed(st) && LevelZeroOrdered(st.levels[0]) && level + 1 < NUM_LEVELS
    requires st'.levels == st.levels[level := out0][level + 1 := out1]
    requires st'.mem == st.mem && st'.imm == st.imm && st'.lastSeq == st.lastSeq && st'.manifestNext <= st'.nextFile
    requires Disjoint(out1) && (level > 0 ==> Disjoint(out0)) && forall g :: g in out0 ==> g in st.levels[level]
    ensures WellFormed(st') && LevelZeroOrdered(st'.levels[0])
  {
  }

  lemma FinishKeepsNumbers(levels: seq<seq<File>>, next: nat, level: nat, outputs: seq<File>, out0: seq<File>,
                           out1: seq<File>, next': nat)
    requires NumbersUnique(levels, next) && level + 1 < |levels| && next <= next'
    requires forall f :: f in outputs ==> f.number < next'
    requires forall f, g :: f in outputs && g in outputs && f.number == g.number ==> f == g
    requires forall f, l, g :: f in outputs && 0 <= l < |levels| && g in levels[l] ==> f.number != g.number
    requires forall g :: g in out0 ==> g in levels[level]
    requires forall g :: g in out1 ==> g in levels[level + 1] || g in outputs
    ensures NumbersUnique(levels[level := out0][level + 1 := out1], next')
  {
    var levels' := levels[level := out0][level + 1 := out1];
    forall l, g | 0 <= l < |levels| && g in levels'[l] ensures g in levels[l] || (l == level + 1 && g in outputs) {}
  }

  /** Everything but faithfulness survives any finished compaction. */
  lemma FinishKeepsStructure(st: State, st': State, input: seq<Entry>, outputs: seq<File>, out0: seq<File>,
                             out1: seq<File>)
    requires Inv(st) && FinishStep(st, st', input, outputs, out0, out1)
    ensures WellFormed(st') && LevelZeroOrdered(st'.levels[0]) && Layered(st') && Recorded(st') && FlushOrdered(st')
    ensures NumbersUnique(st'.levels, st'.manifestNext) && Logged(st') && Compacted(st, st', st.job.value, input)
  {
    var j := st.job.value;
    FinishAt(st, st', input, outputs, out0, out1);
    FinishKeepsShape(st, st', j.level, out0, out1);
    FinishKeepsNumbers(st.levels, st.manifestNext, j.level, outputs, out0, out1, st'.nextFile);
    FinishKeepsLayers(st, st', j, input, out0);
    FinishKeepsOrder(st, st', j, input);
    SameMemtablesKeepLogged(st, st');
  }

  /** A compaction leaves every live reader's answers alone if and only if no deletion it drops was covering up
      a value that it leaves behind. */
  lemma CompactionPreservesReadsExactlyWhen(st: State, st': State, input: seq<Entry>, outputs: seq<File>,
                                            out0: seq<File>, out1: seq<File>)
    requires Inv(st) && FinishStep(st, st', input, outputs, out0, out1)
    ensures PreservesReads(st, st') <==> DropSafe(st, st.job.value)
  {
    hide Answers, WellFormed, NumbersUnique, Layered, LevelZeroOrdered, Logged, LogsAscending, Reappears, Compacted,
         FlushOrdered, JobInv, Recorded, Bound, GoodOutputs, Saved, Disjoint;
    var j := st.job.value;
    FinishKeepsStructure(st, st', input, outputs, out0, out1);
    if DropSafe(st, j) {
      forall k, s, r | Bound(st) <= s <= st.lastSeq && Answers(st, k, s, r) ensures Answers(st', k, s, r) {
        CompactionKeepsAnswer(st, st', j, input, k, s, r);
      }
    } else {
      var n, m :| Reappears(st, j, n, m);
      ReappearanceIsSeen(st, st', j, input, n, m);
    }
  }

  lemma FinishFields(st: State, st': State, input: seq<Entry>, outputs: seq<File>, out0: seq<File>, out1: seq<File>)
    requires FinishStep(st, st', input, outputs, out0, out1)
    ensures st.job.Some? && Bound(st') == Bound(st)
    ensures st'.hist == st.hist && st'.lastSeq == st.lastSeq && st'.snapshots == st.snapshots && st'.job.None?
    ensures st'.flushedSeq == st.flushedSeq && st'.logs == st.logs && st'.logNumber == st.logNumber
  {
  }

  lemma FinishKeepsFaithful(st: State, st': State)
    requires Faithful(st) && PreservesReads(st, st') && st'.hist == st.hist && st'.lastSeq == st.lastSeq
    requires Bound(st') == Bound(st)
    ensures Faithful(st')
  {
    hide Answers, Bound;
    forall k, s | Bound(st') <= s <= st'.lastSeq ensures Answers(st', k, s, ReadAt(st'.hist, k, s)) {
      assert Answers(st, k, s, ReadAt(st.hist, k, s));
    }
  }

  /** Two stored answers to one question agree. */
  lemma AnswersAgree(st: State, k: int, s: nat, r: Option<UserValue>, r': Option<UserValue>)
    requires Recorded(st) && Answers(st, k, s, r) && Answers(st, k, s, r')
    ensures r == r'
  {
    forall a, b | Newest(st, k, s, a) && Newest(st, k, s, b) ensures a == b { NewestUnique(st, k, s, a, b); }
    if a :| Newest(st, k, s, a) { assert Stored(st, a); }
  }

  /** Where the history answers before and after, the reads have been kept. */
  lemma FaithfulMeansPreserved(st: State, st': State)
    requires Recorded(st) && Faithful(st) && Faithful(st')
    requires st'.hist == st.hist && st'.lastSeq == st.lastSeq && Bound(st') == Bound(st)
    ensures PreservesReads(st, st')
  {
    hide Answers, Bound, Recorded, ReadAt;
    forall k, s, r | Bound(st) <= s <= st.lastSeq && Answers(st, k, s, r) ensures Answers(st', k, s, r) {
      AnswersAgree(st, k, s, r, ReadAt(st.hist, k, s));
      assert Answers(st', k, s, ReadAt(st'.hist, k, s));
    }
  }

  /** A finished compaction keeps the invariant if and only if what it dropped was safe to drop. */
  lemma FinishKeepsInv(st: State, st': State, input: seq<Entry>, outputs: seq<File>, out0: seq<File>, out1: seq<File>)
    requires Inv(st) && FinishStep(st, st', input, outputs, out0, out1)
    ensures Inv(st') <==> DropSafe(st, st.job.value)
  {
    hide FinishStep, DropSafe, PreservesReads, Faithful, WellFormed, NumbersUnique, Recorded, Layered, LevelZeroOrdered,
         FlushOrdered, Logged, LogsAscending;
    FinishFields(st, st', input, outputs, out0, out1);
    FinishKeepsStructure(st, st', input, outputs, out0, out1);
    CompactionPreservesReadsExactlyWhen(st, st', input, outputs, out0, out1);
    if DropSafe(st, st.job.value) { FinishKeepsFaithful(st, st'); }
    if Faithful(st') { FaithfulMeansPreserved(st, st'); }
  }

  /** The only place a covered-up version can hide is an unchosen lower-level file that continues the user key of
      a chosen one. */
  lemma CoveredIsLower(st: State, j: Job, n: Entry, m: Entry)
    requires Layered(st) && JobOk(st.levels, j) && IsInput(j, n)
    requires ObsoleteDeletion(j.smallest, j.version, j.level + 2, n) && CoveredUp(st, j, n, m)
    ensures InFiles(j.in1, n) && exists g :: g in st.levels[j.level + 1] && g !in j.in1 && m in g.data
  {
    hide LowerInputsOk, BaseTestOk, InputsSorted, LevelsSorted, Connected, NoOlderLeft, Layered, NoFileCovers;
    InputAt(st, j, n);
    var d: nat :| At(st, d, m);
    NotAbove(st, j, n, d, m);
    HolderIsNoInput(st, j, d, m);
    DeepKeepsNone(st, j, n, d, m);
    UnchosenUppersAreNewer(st.levels[j.level], j, n, m);
    UnchosenLowersMissKey(st.levels[j.level + 1], j, n, m);
  }

  /** A lower-level file is chosen if it covers a key of the upper inputs. */
  lemma UnchosenLowersMissKey(fs: seq<File>, j: Job, n: Entry, m: Entry)
    requires LowerInputsOk(fs, j) && n.key == m.key
    ensures InFiles(j.in0, n) ==> forall g :: g in fs && g !in j.in1 ==> m !in g.data
  {
    forall g | g in fs && g !in j.in1 && m in g.data ensures !InFiles(j.in0, n) { EntryInRange(g, m); }
  }

  /** An older version does not lie above. */
  lemma NotAbove(st: State, j: Job, n: Entry, d: nat, m: Entry)
    requires Layered(st) && At(st, d, m) && m.key == n.key && m.sn < n.sn
    requires j.level + 1 < |st.levels| && IsInput(j, n)
    requires (InFiles(j.in0, n) ==> At(st, j.level + 2, n)) && (InFiles(j.in1, n) ==> At(st, j.level + 3, n))
    ensures InFiles(j.in1, n) ==> d >= j.level + 3
    ensures InFiles(j.in0, n) ==> d >= j.level + 2
  {
  }

  lemma OnlyLowerNeighboursReappear(st: State, j: Job, n: Entry, m: Entry)
    requires Layered(st) && JobOk(st.levels, j) && Reappears(st, j, n, m)
    ensures InFiles(j.in1, n) && exists g :: g in st.levels[j.level + 1] && g !in j.in1 && m in g.data
  {
    hide JobOk, Layered, CoveredUp, ObsoleteDeletion, Newest;
    CoveredIsLower(st, j, n, m);
  }

  lemma HolderIsNoInput(st: State, j: Job, d: nat, m: Entry)
    requires d >= 2 && At(st, d, m) && !IsInput(j, m)
    ensures exists g :: g in st.levels[d - 2] && g !in j.in0 && g !in j.in1 && m in g.data
  {
    var g :| g in st.levels[d - 2] && m in g.data;
    assert g in j.in0 ==> InFiles(j.in0, m);
    assert g in j.in1 ==> InFiles(j.in1, m);
  }

  /** Where no file covers n's key there is no version of it. */
  lemma DeepKeepsNone(st: State, j: Job, n: Entry, d: nat, m: Entry)
    requires BaseTestOk(st.levels, j) && IsInput(j, n) && NoFileCovers(j.version, j.level + 2, n.key)
    requires d >= 2 && At(st, d, m) && m.key == n.key
    ensures d < j.level + 4
  {
    var g :| g in st.levels[d - 2] && m in g.data;
    EntryInRange(g, m);
  }

  lemma UnchosenUppersAreNewer(fs: seq<File>, j: Job, n: Entry, m: Entry)
    requires NoOlderLeft(fs, j.in0) && n.key == m.key && m.sn < n.sn
    ensures InFiles(j.in0, n) ==> forall g :: g in fs && g !in j.in0 ==> m !in g.data
  {
    forall g | g in fs && g !in j.in0 && m in g.data ensures !InFiles(j.in0, n) {
      if InFiles(j.in0, n) { UnchosenUpperIsNewer(fs, j, n, g, m); }
    }
  }

  lemma UnchosenUpperIsNewer(fs: seq<File>, j: Job, n: Entry, g: File, m: Entry)
    requires NoOlderLeft(fs, j.in0) && g in fs && g !in j.in0 && m in g.data && InFiles(j.in0, n) && n.key == m.key
    ensures m.sn > n.sn
  {
    var f :| f in j.in0 && n in f.data;
    assert NewerOn(g, f);
  }

  // ---------------------------------------------------------------- the same, as one can check it beforehand

  ghost predicate AllInputsBefore(j: Job, g: File) { forall e :: IsInput(j, e) ==> Before(e, g.Smallest()) }

  /** Of the files that are not chosen and lie behind the inputs, g is the first. */
  ghost predicate RightBehind(fs: seq<File>, j: Job, g: File) {
    g in fs && g !in j.in1 && AllInputsBefore(j, g) &&
    forall h :: h in fs && h !in j.in1 && h != g && AllInputsBefore(j, h) ==> Before(g.Smallest(), h.Smallest())
  }

  /** The file right behind the inputs starts with a value, and what all readers now see of its key is a deletion that
      the compaction is about to drop. */
  ghost predicate LosesDeletion(st: State, j: Job, n: Entry, g: File) {
    j.level + 1 < |st.levels| && RightBehind(st.levels[j.level + 1], j, g) && g.Smallest().op.Put? &&
    IsInput(j, n) && n.key == g.Smallest().key && ObsoleteDeletion(j.smallest, j.version, j.level + 2, n) &&
    Newest(st, n.key, Bound(st), n)
  }

  /** A file that holds an older version of an input lies behind all inputs. */
  lemma HolderIsBehind(j: Job, n: Entry, x: Entry, h: File)
    requires UnchosenOk(h, j) && IsInput(j, n) && x in h.data && x.key == n.key && x.sn < n.sn
    ensures AllInputsBefore(j, h)
  {
    EntryInRange(h, x);
  }

  lemma LowerHolder(st: State, j: Job, x: Entry) returns (h: File)
    requires j.level + 1 < |st.levels| && exists g :: g in st.levels[j.level + 1] && g !in j.in1 && x in g.data
    ensures h in st.levels[j.level + 1] && h !in j.in1 && x in h.data
  {
    h :| h in st.levels[j.level + 1] && h !in j.in1 && x in h.data;
  }

  lemma LowersAreOk(st: State, j: Job, h: File)
    requires JobOk(st.levels, j) && h in st.levels[j.level + 1] && h !in j.in1
    ensures UnchosenOk(h, j)
  {
  }

  lemma JobLevel(st: State, j: Job)
    requires JobOk(st.levels, j)
    ensures j.level + 1 < |st.levels| == NUM_LEVELS
  {
  }

  /** Whatever the deletion covers up is the first entry of the file right behind, or older. */
  lemma CoveredIsBehind(st: State, j: Job, n: Entry, g: File, x: Entry)
    requires Layered(st) && JobOk(st.levels, j) && IsInput(j, n)
    requires ObsoleteDeletion(j.smallest, j.version, j.level + 2, n) && CoveredUp(st, j, n, x)
    requires RightBehind(st.levels[j.level + 1], j, g) && g.Smallest().key == n.key
    ensures x.sn <= g.Smallest().sn
  {
    hide JobOk, Layered, ObsoleteDeletion;
    JobLevel(st, j);
    CoveredIsLower(st, j, n, x);
    var h := LowerHolder(st, j, x);
    LowersAreOk(st, j, h);
    HolderIsBehind(j, n, x, h);
    EntryInRange(h, x);
  }

  lemma FirstBehindIsCovered(st: State, j: Job, n: Entry, g: File)
    requires j.level + 1 < |st.levels| && g in st.levels[j.level + 1] && AllInputsBefore(j, g) && IsInput(j, n)
    requires n.key == g.Smallest().key
    ensures CoveredUp(st, j, n, g.Smallest())
  {
    assert g.Smallest() in g.data;
    assert At(st, j.level + 3, g.Smallest());
  }

  lemma LosesMeansReappears(st: State, j: Job, n: Entry, g: File)
    requires Layered(st) && JobOk(st.levels, j) && LosesDeletion(st, j, n, g)
    ensures Reappears(st, j, n, g.Smallest())
  {
    hide JobOk, Layered, ObsoleteDeletion, CoveredUp, Newest;
    FirstBehindIsCovered(st, j, n, g);
    forall x | CoveredUp(st, j, n, x) ensures x.sn <= g.Smallest().sn { CoveredIsBehind(st, j, n, g, x); }
  }

  lemma {:induction false} SomeFileIsRightBehind(fs: seq<File>, j: Job, i: nat, h: File) returns (g: File)
    requires Disjoint(fs) && i <= |fs| && h in fs[i..] && h !in j.in1 && AllInputsBefore(j, h)
    requires forall k :: 0 <= k < i ==> fs[k] in j.in1 || !AllInputsBefore(j, fs[k])
    ensures RightBehind(fs, j, g) && (g == h || Before(g.Smallest(), h.Smallest()))
    decreases |fs| - i
  {
    hide AllInputsBefore;
    if fs[i] !in j.in1 && AllInputsBefore(j, fs[i]) {
      g := fs[i];
      forall f | f in fs && f !in j.in1 && f != g && AllInputsBefore(j, f) ensures Before(g.Smallest(), f.Smallest()) {
        var k: nat :| k < |fs| && fs[k] == f;
        SmallestOrdered(fs, i, k);
      }
    } else {
      assert fs[i..] == [fs[i]] + fs[i + 1..];
      g := SomeFileIsRightBehind(fs, j, i + 1, h);
    }
  }

  lemma ReappearsMeansLoses(st: State, j: Job, n: Entry, m: Entry) returns (g: File)
    requires Recorded(st) && Layered(st) && JobOk(st.levels, j) && LevelsSorted(st.levels) && Reappears(st, j, n, m)
    ensures LosesDeletion(st, j, n, g)
  {
    hide JobOk, Layered, ObsoleteDeletion, Newest, Recorded, AllInputsBefore;
    JobLevel(st, j);
    CoveredIsLower(st, j, n, m);
    var h := LowerHolder(st, j, m);
    LowersAreOk(st, j, h);
    HolderIsBehind(j, n, m, h);
    var fs := st.levels[j.level + 1];
    assert fs[0..] == fs;
    g := SomeFileIsRightBehind(fs, j, 0, h);
    KeysInBetween(j, n, m, g, h);
    FirstBehindIsCovered(st, j, n, g);
    SameNumberSameEntry(st, g.Smallest(), m);
  }

  lemma KeysInBetween(j: Job, n: Entry, m: Entry, g: File, h: File)
    requires IsInput(j, n) && AllInputsBefore(j, g) && m in h.data && m.key == n.key
    requires g == h || Before(g.Smallest(), h.Smallest())
    ensures g.Smallest().key == n.key && m.sn <= g.Smallest().sn
  {
    EntryInRange(h, m);
  }

  lemma SameNumberSameEntry(st: State, a: Entry, b: Entry)
    requires Recorded(st) && Stored(st, a) && Stored(st, b) && a.sn == b.sn
    ensures a == b
  {
    var d: nat :| At(st, d, a);
    var c: nat :| At(st, c, b);
  }

  /** Whether a compaction is safe can be seen from the file right behind its inputs. */
  lemma SafeExactlyWhen(st: State, j: Job)
    requires Recorded(st) && Layered(st) && JobOk(st.levels, j) && LevelsSorted(st.levels)
    ensures DropSafe(st, j) <==> forall n, g :: !LosesDeletion(st, j, n, g)
  {
    hide Recorded, Layered, JobOk, LevelsSorted, Reappears, LosesDeletion;
    if n, m :| Reappears(st, j, n, m) { var g := ReappearsMeansLoses(st, j, n, m); }
    if n, g :| LosesDeletion(st, j, n, g) { LosesMeansReappears(st, j, n, g); }
  }

  /** Closing the lower inputs under the same boundary rule as the upper ones would always be enough. */
  lemma ClosedLowerInputsAreSafe(st: State, j: Job)
    requires Layered(st) && JobOk(st.levels, j) && NoOlderLeft(st.levels[j.level + 1], j.in1)
    ensures DropSafe(st, j)
  {
    if n, m :| Reappears(st, j, n, m) {
      OnlyLowerNeighboursReappear(st, j, n, m);
      var f :| f in j.in1 && n in f.data;
      var g :| g in st.levels[j.level + 1] && g !in j.in1 && m in g.data;
      LowerNeighbourIsNewer(st.levels[j.level + 1], j, f, n, g, m);
    }
  }

  lemma LowerNeighbourIsNewer(fs: seq<File>, j: Job, f: File, n: Entry, g: File, m: Entry)
    requires NoOlderLeft(fs, j.in1) && f in j.in1 && n in f.data && g in fs && g !in j.in1 && m in g.data &&
             n.key == m.key
    ensures m.sn > n.sn
  {
    assert NewerOn(g, f);
  }

  // ---------------------------------------------------------------- where the outputs fit

  /** Output f reaches over file g, which stays. */
  ghost predicate Spans(f: File, g: File) { Before(f.Smallest(), g.Smallest()) && Before(g.Largest(), f.Largest()) }

  ghost predicate NothingSpanned(fs: seq<File>, j: Job, outputs: seq<File>) {
    forall g, f :: g in fs && g !in j.in1 && f in outputs ==> !Spans(f, g)
  }

  /** Where no output reaches over a file that stays, the saved level is sorted again. */
  lemma OutputsFit(fs: seq<File>, j: Job, outputs: seq<File>)
    requires Disjoint(fs) && LowerInputsOk(fs, j) && Disjoint(outputs)
    requires forall e :: InFiles(outputs, e) ==> IsInput(j, e)
    ensures NothingSpanned(fs, j, outputs) ==> FitTogether(fs, Numbers(j.in1), outputs)
    ensures j.auto ==> NothingSpanned(fs, j, outputs)
  {
    forall g, f | g in fs && g !in j.in1 && f in outputs ensures Spans(f, g) || Apart(g, f)
      ensures j.auto ==> !Spans(f, g)
    {
      OutputEndsAreInputs(j, outputs);
      EndsDecide(g, f, j);
    }
  }

  lemma EndsDecide(g: File, f: File, j: Job)
    requires UnchosenOk(g, j) && IsInput(j, f.Smallest()) && IsInput(j, f.Largest())
    ensures Spans(f, g) || Apart(g, f)
    ensures j.auto ==> !Spans(f, g)
  {
    hide IsInput;
    EntryInRange(g, g.Largest());
    EntryInRange(f, f.Largest());
  }

  lemma OutputEndsAreInputs(j: Job, outputs: seq<File>)
    requires forall e :: InFiles(outputs, e) ==> IsInput(j, e)
    ensures forall f :: f in outputs ==> IsInput(j, f.Smallest()) && IsInput(j, f.Largest())
  {
    forall f | f in outputs ensures IsInput(j, f.Smallest()) && IsInput(j, f.Largest()) {
      assert InFiles(outputs, f.Smallest()) && InFiles(outputs, f.Largest());
    }
  }

  /** And only there. */
  lemma SortedMeansNothingSpanned(fs: seq<File>, j: Job, outputs: seq<File>, out1: seq<File>)
    requires Saved(fs, Numbers(j.in1), outputs, out1) && Disjoint(out1)
    requires forall f, g :: f in outputs && g in fs ==> f.number != g.number
    requires forall f, g :: f in fs && g in j.in1 && f.number == g.number ==> f == g
    requires forall f :: f in j.in1 ==> f in fs
    ensures NothingSpanned(fs, j, outputs)
  {
    forall g, f | g in fs && g !in j.in1 && f in outputs ensures !Spans(f, g) {
      assert g.number !in Numbers(j.in1) && f.number !in Numbers(j.in1);
      assert g in out1 && f in out1;
      NeighboursApart(out1, g, f);
      EntryInRange(g, g.Largest());
      EntryInRange(f, f.Largest());
    }
  }

  // ---------------------------------------------------------------- crash and recovery

  /** e is read back from the logs when only the first m records of the newest log survived. */
  ghost predicate Replays(st: State, m: nat, e: Entry)
    requires st.curLog in st.logs && m <= |st.logs[st.curLog]|
  {
    At(st, 1, e) || InLog(st.logs[st.curLog][..m], e)
  }

  /** Replay wrote these level-0 tables, in log order, under new and rising numbers. */
  ghost predicate ReplayedFiles(st: State, m: nat, files: seq<File>, next: nat)
    requires st.curLog in st.logs && m <= |st.logs[st.curLog]|
  {
    (forall e :: InFiles(files, e) <==> Replays(st, m, e)) &&
    (forall f :: f in files ==> st.manifestNext <= f.number < next) &&
    (forall i, j :: 0 <= i < j < |files| ==> files[i].number < files[j].number && AllNewer(files[j], files[i]))
  }

  ghost predicate AllNewer(f: File, g: File) { forall a, b :: a in f.data && b in g.data ==> a.sn > b.sn }

  /** cut is the newest sequence number that is on disk: in a table, or in a log record that survived. */
  ghost predicate IsCut(st: State, m: nat, cut: SequenceNumber)
    requires st.curLog in st.logs && m <= |st.logs[st.curLog]|
  {
    st.flushedSeq <= cut && (forall e :: Replays(st, m, e) ==> e.sn <= cut) &&
    (cut == st.flushedSeq || exists e :: Replays(st, m, e) && e.sn == cut)
  }

  function UpTo(hist: map<nat, Entry>, cut: nat): map<nat, Entry> { map n | n in hist && n <= cut :: hist[n] }

  /** The logs as a crash leaves them: the newest keeps only its first m records. */
  function Torn(st: State, m: nat): map<nat, seq<seq<Entry>>>
    requires st.curLog in st.logs && m <= |st.logs[st.curLog]|
  {
    st.logs[st.curLog := st.logs[st.curLog][..m]]
  }

  /** What a crash leaves: the files, and what the manifest says of them. */
  datatype Disk = Disk(levels: seq<seq<File>>, logs: map<nat, seq<seq<Entry>>>, logNumber: nat, newestLog: nat,
                       manifestSeq: SequenceNumber, manifestNext: nat)

  function OnDisk(st: State, m: nat): Disk
    requires st.curLog in st.logs && m <= |st.logs[st.curLog]|
  {
    Disk(st.levels, Torn(st, m), st.logNumber, st.curLog, st.manifestSeq, st.manifestNext)
  }

  function Reopened(disk: Disk, out: seq<File>, last: SequenceNumber, newLog: nat, next: nat,
                    hist: map<nat, Entry>): State
    requires |disk.levels| > 0
  {
    State([], None, disk.levels[0 := out], [], last, next, None, disk.logs[newLog := []], newLog, newLog, last, next,
          hist, last)
  }

  /** The process dies, the newest log keeps its first m records, and the store is opened again: the logs the
      manifest asks for are replayed into level-0 tables and one edit installs them with a new log.  Of the file
      numbers only those in the manifest and in the names of the logs are known to be taken. */
  ghost predicate CrashStep(st: State, st': State, m: nat, cut: SequenceNumber, files: seq<File>, out: seq<File>) {
    st.curLog in st.logs && m <= |st.logs[st.curLog]| && |st.levels| == NUM_LEVELS && IsCut(st, m, cut) &&
    ReplayedFiles(st, m, files, st'.curLog) && Saved(st.levels[0], {}, files, out) &&
    st.manifestNext <= st'.curLog < st'.nextFile && st.curLog < st'.curLog &&
    st' == Reopened(OnDisk(st, m), out, Max(st.manifestSeq, cut), st'.curLog, st'.nextFile, UpTo(st.hist, cut))
  }

  lemma CrashAt(st: State, st': State, m: nat, cut: SequenceNumber, files: seq<File>, out: seq<File>)
    requires CrashStep(st, st', m, cut, files, out)
    ensures forall d, x :: At(st', d, x) <==> (d >= 2 && At(st, d, x)) || (d == 2 && Replays(st, m, x))
  {
    forall x ensures InFiles(out, x) <==> InFiles(st.levels[0], x) || InFiles(files, x) {
      if InFiles(st.levels[0], x) { var g :| g in st.levels[0] && x in g.data; assert g in out; }
      if InFiles(files, x) { var g :| g in files && x in g.data; assert g in out; }
      if InFiles(out, x) { var g :| g in out && x in g.data; assert g in st.levels[0] || g in files; }
    }
    forall d: nat, x ensures At(st', d, x) <==> (d >= 2 && At(st, d, x)) || (d == 2 && Replays(st, m, x)) {
      if d > 2 && d - 2 < NUM_LEVELS { assert st'.levels[d - 2] == st.levels[d - 2]; }
    }
  }

  lemma ReplaysAreUnflushed(st: State, m: nat, e: Entry)
    requires Logged(st) && m <= |st.logs[st.curLog]| && Replays(st, m, e)
    ensures At(st, 0, e) || At(st, 1, e)
  {
    if InLog(st.logs[st.curLog][..m], e) {
      var i :| 0 <= i < m && e in st.logs[st.curLog][..m][i];
      assert e in st.logs[st.curLog][i];
      assert InLog(st.logs[st.curLog], e);
    }
  }

  /** Stored and not newer than the cut: exactly what comes back. */
  lemma SurvivorsAreUpToCut(st: State, m: nat, cut: SequenceNumber, d: nat, x: Entry)
    requires Logged(st) && FlushOrdered(st) && m <= |st.logs[st.curLog]| && IsCut(st, m, cut) && At(st, d, x)
    ensures x.sn <= cut <==> d >= 2 || Replays(st, m, x)
  {
    if d == 0 && !Replays(st, m, x) {
      InLogSplit(st.logs[st.curLog], m, x);
      if e :| Replays(st, m, e) && e.sn == cut && cut > st.flushedSeq {
        if !At(st, 1, e) { TornIsNewer(st.logs[st.curLog], m, e, x); }
      }
    }
  }

  lemma InLogSplit(log: seq<seq<Entry>>, m: nat, x: Entry)
    requires m <= |log|
    ensures InLog(log, x) <==> InLog(log[..m], x) || InLog(log[m..], x)
  {
    assert log == log[..m] + log[m..];
    if InLog(log[..m], x) { var i :| 0 <= i < m && x in log[..m][i]; assert x in log[i]; }
    if InLog(log[m..], x) { var i :| 0 <= i < |log| - m && x in log[m..][i]; assert x in log[m + i]; }
  }

  lemma TornIsNewer(log: seq<seq<Entry>>, m: nat, e: Entry, x: Entry)
    requires m <= |log| && LogAscending(log) && InLog(log[..m], e) && InLog(log[m..], x)
    ensures e.sn < x.sn
  {
    var i :| 0 <= i < m && e in log[..m][i];
    var j :| 0 <= j < |log| - m && x in log[m..][j];
    assert e in log[i] && x in log[m + j];
  }

  lemma CrashKeepsFaithful(st: State, st': State, m: nat, cut: SequenceNumber, files: seq<File>, out: seq<File>)
    requires Faithful(st) && Recorded(st) && Logged(st) && FlushOrdered(st)
    requires CrashStep(st, st', m, cut, files, out)
    ensures Faithful(st')
  {
    var last := st'.lastSeq;
    CrashStores(st, st', m, cut, files, out);
    CutIsReadable(st, m, cut);
    forall k, s | Bound(st') <= s <= st'.lastSeq ensures Answers(st', k, s, ReadAt(st'.hist, k, s)) {
      assert s == last;
      assert Answers(st, k, cut, ReadAt(st.hist, k, cut));
      AnswerSurvivesNewer(st, st', k, cut, last, ReadAt(st.hist, k, cut));
      ReadAtGap(st'.hist, k, cut, last);
      ReadAtIgnoresLater(st.hist, st'.hist, k, cut);
    }
  }

  lemma CrashStores(st: State, st': State, m: nat, cut: SequenceNumber, files: seq<File>, out: seq<File>)
    requires Logged(st) && FlushOrdered(st) && CrashStep(st, st', m, cut, files, out)
    ensures forall x: Entry :: Stored(st', x) && x.sn <= st'.lastSeq <==> Stored(st, x) && x.sn <= cut
  {
    CrashAt(st, st', m, cut, files, out);
    forall x: Entry ensures Stored(st', x) && x.sn <= st'.lastSeq <==> Stored(st, x) && x.sn <= cut {
      if Stored(st, x) {
        var d: nat :| At(st, d, x);
        SurvivorsAreUpToCut(st, m, cut, d, x);
        if x.sn <= cut { assert At(st', if d >= 2 then d else 2, x); }
      }
      if Stored(st', x) {
        var d: nat :| At(st', d, x);
        if Replays(st, m, x) { ReplaysAreUnflushed(st, m, x); }
        SurvivorsAreUpToCut(st, m, cut, if At(st, 0, x) then 0 else if At(st, 1, x) then 1 else d, x);
      }
    }
  }

  lemma CutIsReadable(st: State, m: nat, cut: SequenceNumber)
    requires Logged(st) && FlushOrdered(st) && Recorded(st) && m <= |st.logs[st.curLog]| && IsCut(st, m, cut)
    ensures Bound(st) <= cut <= st.lastSeq
  {
    if e :| Replays(st, m, e) && e.sn == cut { ReplaysAreUnflushed(st, m, e); assert e.sn in st.hist; }
  }

  lemma {:induction false} ReadAtGap(h: map<nat, Entry>, k: int, cut: nat, s: nat)
    requires cut <= s && forall n :: n in h ==> n <= cut || n > s
    ensures ReadAt(h, k, s) == ReadAt(h, k, cut)
  {
    if s > cut { ReadAtGap(h, k, cut, s - 1); }
  }

  lemma CrashKeepsLayers(st: State, st': State, m: nat, cut: SequenceNumber, files: seq<File>, out: seq<File>)
    requires Layered(st) && Logged(st) && FlushOrdered(st) && CrashStep(st, st', m, cut, files, out)
    ensures Layered(st')
  {
    CrashAt(st, st', m, cut, files, out);
    forall d: nat, c: nat, a, b | d < c && At(st', d, a) && At(st', c, b) && a.key == b.key ensures a.sn > b.sn {
      if !At(st, d, a) { ReplaysAreUnflushed(st, m, a); }
      assert At(st, c, b);
    }
  }

  lemma CrashKeepsLevelZero(st: State, m: nat, files: seq<File>, out: seq<File>, next: nat)
    requires CoreInv(st) && Logged(st) && m <= |st.logs[st.curLog]|
    requires ReplayedFiles(st, m, files, next) && Saved(st.levels[0], {}, files, out)
    ensures LevelZeroOrdered(out)
  {
    forall f, g | f in out && g in out && f.number > g.number ensures NewerOn(f, g) {
      if f in files {
        if g in files { ReplayedInOrder(files, f, g); } else { ReplayedIsNewer(st, m, files, f, g); }
      }
    }
  }

  lemma ReplayedInOrder(files: seq<File>, f: File, g: File)
    requires forall i, j :: 0 <= i < j < |files| ==> files[i].number < files[j].number && AllNewer(files[j], files[i])
    requires f in files && g in files && f.number > g.number
    ensures NewerOn(f, g)
  {
    var i :| 0 <= i < |files| && files[i] == f;
    var j :| 0 <= j < |files| && files[j] == g;
    if j < i { assert AllNewer(files[i], files[j]); }
  }

  lemma ReplayedIsNewer(st: State, m: nat, files: seq<File>, f: File, g: File)
    requires FlushOrdered(st) && Logged(st) && m <= |st.logs[st.curLog]| && |st.levels| > 0
    requires forall e :: InFiles(files, e) ==> Replays(st, m, e)
    requires f in files && g in st.levels[0]
    ensures NewerOn(f, g)
  {
    forall b, a | b in g.data && a in f.data && a.key == b.key ensures a.sn > b.sn {
      assert InFiles(files, a);
      ReplaysAreUnflushed(st, m, a);
      assert At(st, 2, b);
    }
  }

  lemma CrashKeepsRest(st: State, st': State, m: nat, cut: SequenceNumber, files: seq<File>, out: seq<File>)
    requires Inv(st) && CrashStep(st, st', m, cut, files, out)
    ensures WellFormed(st') && Recorded(st') && FlushOrdered(st') && Logged(st')
  {
    CrashKeepsRecords(st, st', m, cut, files, out);
    CrashAt(st, st', m, cut, files, out);
    CutIsReadable(st, m, cut);
  }

  lemma CrashKeepsRecords(st: State, st': State, m: nat, cut: SequenceNumber, files: seq<File>, out: seq<File>)
    requires Inv(st) && CrashStep(st, st', m, cut, files, out)
    ensures Recorded(st')
  {
    CrashAt(st, st', m, cut, files, out);
    CutIsReadable(st, m, cut);
    forall d: nat, x | At(st', d, x) ensures x.sn in st'.hist && st'.hist[x.sn] == x {
      if At(st, d, x) {
        SurvivorsAreUpToCut(st, m, cut, d, x);
      } else {
        ReplaysAreUnflushed(st, m, x);
      }
    }
  }

  lemma CrashKeepsNumbers(levels: seq<seq<File>>, next: nat, files: seq<File>, out: seq<File>, next': nat)
    requires NumbersUnique(levels, next) && |levels| > 0 && next <= next' && Saved(levels[0], {}, files, out)
    requires forall f :: f in files ==> next <= f.number < next'
    requires forall i, j :: 0 <= i < j < |files| ==> files[i].number < files[j].number
    ensures NumbersUnique(levels[0 := out], next')
  {
    forall l, g | 0 <= l < |levels| && g in levels[0 := out][l] ensures g in levels[l] || (l == 0 && g in files) {}
    forall f, g | f in files && g in files && f.number == g.number ensures f == g {
      var i :| 0 <= i < |files| && files[i] == f;
      var j :| 0 <= j < |files| && files[j] == g;
    }
  }

  lemma CrashKeepsInv(st: State, st': State, m: nat, cut: SequenceNumber, files: seq<File>, out: seq<File>)
    requires Inv(st) && CrashStep(st, st', m, cut, files, out)
    ensures Inv(st')
  {
    CrashKeepsFaithful(st, st', m, cut, files, out);
    CrashKeepsLayers(st, st', m, cut, files, out);
    CrashKeepsLevelZero(st, m, files, out, st'.curLog);
    CrashKeepsRest(st, st', m, cut, files, out);
    CrashKeepsNumbers(st.levels, st.manifestNext, files, out, st'.nextFile);
  }

  /** A crash loses whole batches off the end of the newest log and nothing else that was ever committed. */
  lemma CrashLosesOnlyTheTornTail(st: State, st': State, m: nat, cut: SequenceNumber, files: seq<File>, out: seq<File>)
    requires Inv(st) && CrashStep(st, st', m, cut, files, out)
    ensures forall n :: n in st'.hist ==> n in st.hist && st'.hist[n] == st.hist[n]
    ensures forall n :: n in st.hist ==> (n in st'.hist <==> !InLog(st.logs[st.curLog][m..], st.hist[n]))
  {
    var log := st.logs[st.curLog];
    forall n | n in st.hist ensures n in st'.hist <==> !InLog(log[m..], st.hist[n]) {
      var x := st.hist[n];
      InLogSplit(log, m, x);
      if InLog(log[m..], x) {
        assert At(st, 0, x);
        TornIsNotReplayed(st, m, x);
        SurvivorsAreUpToCut(st, m, cut, 0, x);
      } else if n > st.flushedSeq {
        assert At(st, 0, x) || At(st, 1, x);
        SurvivorsAreUpToCut(st, m, cut, if At(st, 0, x) then 0 else 1, x);
      }
    }
  }

  lemma TornIsNotReplayed(st: State, m: nat, x: Entry)
    requires Logged(st) && FlushOrdered(st) && m <= |st.logs[st.curLog]|
    requires InLog(st.logs[st.curLog][m..], x) && At(st, 0, x)
    ensures !Replays(st, m, x)
  {
    if InLog(st.logs[st.curLog][..m], x) { TornIsNewer(st.logs[st.curLog], m, x, x); }
  }
}