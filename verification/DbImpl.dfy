/** The database object (db/db_impl.cc): its fields, updated in place, go through the steps of the store. */
module DbImpl {
  import opened InternalKeys
  import opened VersionSet
  import opened Compaction
  import opened OutputCuts
  import opened Picking
  import opened Store
  import opened StoreRuns
  import opened Iterators
  import opened StoreIterators
  import opened DbIter
  import opened Varints
  import opened Builders
  import opened Manifest
  import opened LogBatches
  import opened DiskImage
  import LogReplay
  import VersionEdits
  import VersionGet

  type VersionEdit = VersionEdits.VersionEdit

  /** WriteBatchInternal::InsertInto: the entries of a batch, one after the other. */
  method InsertInto(mem: seq<Entry>, es: seq<Entry>) returns (r: seq<Entry>)
    ensures r == InsertAll(mem, es)
  {
    r := mem;
    var i := 0;
    while i < |es|
      invariant 0 <= i <= |es|
      invariant r == InsertAll(mem, es[..i])
    {
      assert es[..i + 1][..i] == es[..i];
      r := Insert(r, es[i]);
      i := i + 1;
    }
    assert es[..i] == es;
  }

  /** The files and numbers that recovery comes up with, and the sequence number it reaches. */
  ghost predicate Recovered(st: State, m: nat, cut: SequenceNumber, files: seq<File>, saved: seq<File>,
                            last: SequenceNumber, next: nat)
    requires st.curLog in st.logs && m <= |st.logs[st.curLog]| && |st.levels| > 0
  {
    IsCut(st, m, cut) && last == Max(st.manifestSeq, cut) && ReplayedFiles(st, m, files, next) &&
    Saved(st.levels[0], {}, files, saved) && st.manifestNext <= next && st.curLog < next
  }

  /** The decoded logs are those that a crash has left and the manifest asks for. */
  ghost predicate PartOfTorn(logs: map<nat, seq<seq<Entry>>>, st: State, m: nat) {
    st.curLog in st.logs && m <= |st.logs[st.curLog]| &&
    (forall n: nat :: n in logs <==> n in st.logs && st.logNumber <= n < st.curLog + 1) &&
    forall n: nat :: n in logs ==> logs[n] == Torn(st, m)[n]
  }

  lemma DecodedIsPart(logs: map<nat, seq<seq<Entry>>>, lasts: map<nat, seq<SequenceNumber>>, st: State,
                      batches: map<nat, seq<Batch>>, m: nat)
    requires Logged(st) && Claims(batches, st) && DecodedUpTo(logs, lasts, st, batches, m, st.curLog + 1)
    ensures PartOfTorn(logs, st, m) && m <= |st.logs[st.curLog]| && st.curLog in logs && lasts.Keys == logs.Keys
    ensures forall n :: n in logs ==> |lasts[n]| == |logs[n]|
  {
    hide LogAscending, BatchIs, Behind, ClaimOk;
    assert LogDecoded(logs[st.curLog], lasts[st.curLog], st, batches, m, st.curLog);
    forall n: nat | n in logs ensures n in st.logs && logs[n] == Torn(st, m)[n] && |lasts[n]| == |logs[n]| {
      assert LogDecoded(logs[n], lasts[n], st, batches, m, n);
      assert LogIs(batches[n], st.logs[n]);
    }
  }

  lemma DecodedClaims(logs: map<nat, seq<seq<Entry>>>, lasts: map<nat, seq<SequenceNumber>>, st: State,
                      batches: map<nat, seq<Batch>>, m: nat)
    requires Logged(st) && Claims(batches, st) && DecodedUpTo(logs, lasts, st, batches, m, st.curLog + 1)
    ensures Decoded(batches, st, m, lasts) && AllDecoded(st, lasts)
  {
    hide LogAscending, Claims;
    assert LogDecoded(logs[st.curLog], lasts[st.curLog], st, batches, m, st.curLog);
    forall n: nat | n in lasts
      ensures n in batches && LastsAre(lasts[n], if n == st.curLog then batches[n][..m] else batches[n])
    {
      assert LogDecoded(logs[n], lasts[n], st, batches, m, n);
    }
  }

  lemma PartReplays(logs: map<nat, seq<seq<Entry>>>, st: State, m: nat)
    requires Logged(st) && LogsAscending(st.logs, st.logNumber) && PartOfTorn(logs, st, m)
    ensures LogsAscending(logs, st.logNumber) && LogReplay.SameReplay(logs, Torn(st, m), st.logNumber, st.curLog + 1)
  {
    hide LogAscending, LogBefore, Torn;
    LogReplay.TornLogsAscend(st, m);
    TornKeys(st, m);
  }

  lemma TablesOfTorn(logs: map<nat, seq<seq<Entry>>>, st: State, m: nat, sizes: Sizes, files: seq<File>)
    requires PartOfTorn(logs, st, m) && LogReplay.TablesOf(logs, st.logNumber, st.curLog + 1, sizes, files)
    ensures LogReplay.TablesOf(Torn(st, m), st.logNumber, st.curLog + 1, sizes, files)
  {
    hide Torn;
    TornKeys(st, m);
    LogReplay.SameTables(logs, Torn(st, m), st.logNumber, st.curLog + 1, sizes, files);
  }

  lemma TornKeys(st: State, m: nat)
    requires st.curLog in st.logs && m <= |st.logs[st.curLog]|
    ensures Torn(st, m).Keys == st.logs.Keys
  {
  }

  method ReadVersion(image: Image, name: Bytes, ghost nameOf: int -> Bytes, ghost st: State, ghost edits: seq<Edit>,
                     ghost vs: seq<VersionEdit>, ghost inFlight: VersionEdit, ghost batches: map<nat, seq<Batch>>)
    returns (levels: seq<seq<File>>, logNumber: nat, manifestNext: nat, manifestSeq: SequenceNumber)
    requires Inv(st) && Holds(image, nameOf, name, st, edits, vs, inFlight, batches)
    ensures SameLevels(levels, st.levels)
    ensures logNumber == st.logNumber && manifestNext == st.manifestNext && manifestSeq == st.manifestSeq
  {
    hide SameLevels, Described, Inv, LogsOnDisk, RecordsOf, InManifest;
    StoreParts(st);
    var es := ReadManifest(image.manifest, image.tables, name, nameOf, vs, inFlight, edits);
    var version := Rebuild(es.value, st);
    levels, logNumber, manifestNext, manifestSeq := version.value.0, version.value.1, version.value.2, version.value.3;
  }

  /** Replays the logs that the version still asks for. */
  method ReplayImage(image: Image, keyOf: Bytes -> int, sizes: Sizes, logNumber: nat, low: nat,
                     ghost nameOf: int -> Bytes, ghost st: State, ghost batches: map<nat, seq<Batch>>)
    returns (tables: seq<File>, maxSequence: SequenceNumber, next: nat, ghost m: nat, ghost cut: SequenceNumber)
    requires Inv(st) && Names(nameOf, keyOf) && LogsOnDisk(image, nameOf, batches, st) && logNumber == st.logNumber
    requires st.manifestNext <= low
    ensures st.curLog in image.logs && st.curLog in batches && m == WholeBatches(image, nameOf, batches, st.curLog)
    ensures st.curLog in st.logs && m <= |st.logs[st.curLog]|
    ensures IsCut(st, m, cut) && Max(st.manifestSeq, cut) == Max(st.manifestSeq, maxSequence)
    ensures ReplayedFiles(st, m, tables, next) && low <= next && st.curLog < next
    ensures LogReplay.TablesOf(Torn(st, m), st.logNumber, st.curLog + 1, sizes, tables)
  {
    hide LogReplay.TablesOf, IsCut, ReplayedFiles, LogReplay.Recovering, LogReplay.LargestInLogs, Inv, LogsOnDisk,
         DecodedUpTo, LogsAscending, Logged, Decoded, AllDecoded, LogReplay.SameReplay, WholeBatches, Torn,
         FlushOrdered, Claims, PartOfTorn;
    StoreParts(st);
    LogsParts(image, nameOf, st, batches);
    var newest := NewestLog(image.names);
    var logs, lasts := DecodeLogs(image, keyOf, logNumber, newest, nameOf, batches, st);
    m := WholeBatches(image, nameOf, batches, st.curLog);
    DecodedIsPart(logs, lasts, st, batches, m);
    DecodedClaims(logs, lasts, st, batches, m);
    PartReplays(logs, st, m);
    ghost var newestSeq;
    tables, maxSequence, next, newestSeq := LogReplay.RecoverLogs(logs, lasts, logNumber, newest, sizes, low);
    cut := ReplayIsCut(st, batches, m, logs, lasts, low, tables, newestSeq, maxSequence, next);
    TablesOfTorn(logs, st, m, sizes, tables);
  }

  /** Reads the version from the manifest and the rest from the logs. */
  method RecoverImage(image: Image, keyOf: Bytes -> int, name: Bytes, sizes: Sizes, ghost nameOf: int -> Bytes,
                      ghost st: State, ghost edits: seq<Edit>, ghost vs: seq<VersionEdit>, ghost inFlight: VersionEdit,
                      ghost batches: map<nat, seq<Batch>>)
    returns (levels: seq<seq<File>>, saved: seq<File>, last: SequenceNumber, next: nat, ghost m: nat,
             ghost cut: SequenceNumber, ghost files: seq<File>)
    requires Inv(st) && Names(nameOf, keyOf) && Holds(image, nameOf, name, st, edits, vs, inFlight, batches)
    ensures st.curLog in image.logs && st.curLog in batches && m == WholeBatches(image, nameOf, batches, st.curLog)
    ensures st.curLog in st.logs && m <= |st.logs[st.curLog]| && |st.levels| == NUM_LEVELS
    ensures Recovered(st, m, cut, files, saved, last, next) && SameLevels(levels, st.levels)
    ensures LogReplay.TablesOf(Torn(st, m), st.logNumber, st.curLog + 1, sizes, files)
  {
    hide LogReplay.TablesOf, Torn, IsCut, ReplayedFiles, Saved, RecordsOf, InManifest, SameLevels, Described, Inv,
         LogsOnDisk, WholeBatches, Names;
    StoreParts(st);
    var logNumber, manifestNext, manifestSeq;
    levels, logNumber, manifestNext, manifestSeq := ReadVersion(image, name, nameOf, st, edits, vs, inFlight, batches);
    // The manifest file itself takes the next file number.
    var low := if manifestNext < logNumber then logNumber + 1 else manifestNext + 1;
    var tables, maxSequence;
    tables, maxSequence, next, m, cut := ReplayImage(image, keyOf, sizes, logNumber, low, nameOf, st, batches);
    files := tables;
    LevelsOf(levels, st.levels);
    saved := SaveLevel(levels[0], {}, tables);
    SavedAlike(levels, st.levels, tables, saved);
    last := Max(manifestSeq, maxSequence);
  }

  lemma LevelsOf(levels: seq<seq<File>>, levels': seq<seq<File>>)
    requires SameLevels(levels, levels')
    ensures |levels| == |levels'| == NUM_LEVELS
  {
  }

  lemma StoreParts(st: State)
    requires Inv(st)
    ensures Logged(st) && FlushOrdered(st) && LogsAscending(st.logs, st.logNumber) && LevelsSorted(st.levels)
    ensures |st.levels| == NUM_LEVELS && st.curLog in st.logs && st.logNumber <= st.curLog && WellFormed(st)
    ensures forall n :: n in st.logs ==> n <= st.curLog
  {
  }

  lemma LogsParts(image: Image, nameOf: int -> Bytes, st: State, batches: map<nat, seq<Batch>>)
    requires LogsOnDisk(image, nameOf, batches, st) && st.curLog in st.logs &&
             forall n :: n in st.logs ==> n <= st.curLog
    ensures Claims(batches, st) && st.curLog in image.logs && st.curLog in batches && |image.names| > 0
    ensures st.curLog in image.names && forall n :: n in image.names ==> n <= st.curLog
  {
  }

  lemma SavedAlike(levels: seq<seq<File>>, levels': seq<seq<File>>, tables: seq<File>, saved: seq<File>)
    requires SameLevels(levels, levels') && Saved(levels[0], {}, tables, saved)
    ensures Saved(levels'[0], {}, tables, saved)
  {
    MembersOf(levels[0]);
    MembersOf(levels'[0]);
  }

  lemma ReplayIsCut(st: State, batches: map<nat, seq<Batch>>, m: nat, logs: map<nat, seq<seq<Entry>>>,
                    lasts: map<nat, seq<SequenceNumber>>, low: nat, files: seq<File>, newest: SequenceNumber,
                    max: SequenceNumber, next: nat) returns (cut: SequenceNumber)
    requires Logged(st) && FlushOrdered(st) && m <= |st.logs[st.curLog]| && st.manifestNext <= low
    requires Decoded(batches, st, m, lasts) && AllDecoded(st, lasts) && st.curLog in st.logs
    requires LogReplay.SameReplay(logs, Torn(st, m), st.logNumber, st.curLog + 1)
    requires LogReplay.Recovering(logs, st.logNumber, st.curLog + 1, low, files, newest, next)
    requires LogReplay.LargestInLogs(lasts, st.logNumber, st.curLog + 1, max)
    ensures IsCut(st, m, cut) && Max(st.manifestSeq, cut) == Max(st.manifestSeq, max) &&
            ReplayedFiles(st, m, files, next)
  {
    hide Decoded, AllDecoded, LogReplay.InLogs, LogReplay.LargestInLogs, FlushOrdered, IsCut, ReplayedFiles;
    assert LogReplay.NewestInLogs(Torn(st, m), st.logNumber, st.curLog + 1, newest);
    ClaimsLeadTo(batches, st, m, lasts, max, newest);
    cut := LogReplay.CutOf(st, m, files, newest, next);
  }

  lemma OpenedIsRecovered(st: State, st1: State, st': State, m: nat, cut: SequenceNumber, files: seq<File>,
                          saved: seq<File>, last: SequenceNumber, next: nat)
    requires Inv(st)
    requires m <= |st.logs[st.curLog]| && Recovered(st, m, cut, files, saved, last, next)
    requires st1 == Reopened(OnDisk(st, m), saved, last, next, next + 1, UpTo(st.hist, cut))
    requires st' == st1.(logs := map[next := []])
    ensures Inv(st') && Allowed(st, st1, Step.Crash(m, cut, files, saved))
    ensures Allowed(st1, st', Step.DropLogs(st.logs.Keys))
  {
    hide Inv, IsCut, ReplayedFiles, Saved;
    LevelCount(st);
    CrashKeepsInv(st, st1, m, cut, files, saved);
    OldLogsGo(st, st1, m, next);
    StepKeepsInv(st1, st', Step.DropLogs(st.logs.Keys));
  }

  /** None of the logs that were there is needed once it has been replayed. */
  lemma OldLogsGo(st: State, st1: State, m: nat, next: nat)
    requires Inv(st) && m <= |st.logs[st.curLog]| && st.curLog < next && st1.logs == Torn(st, m)[next := []]
    ensures (forall n :: n in st.logs.Keys ==> n < next) && st1.logs - st.logs.Keys == map[next := []]
  {
  }

  lemma LevelCount(st: State)
    requires Inv(st)
    ensures |st.levels| == NUM_LEVELS && st.curLog in st.logs
  {
  }

  lemma FlushedTo(st: State, level: nat, out: seq<File>)
    requires st.imm.Some? && level < |st.levels|
    ensures FlushTo(st, level, out) ==
            State(st.mem, None, st.levels[level := out], st.snapshots, st.lastSeq, st.nextFile + 1, st.job,
                  st.logs, st.curLog,
                  st.curLog, st.lastSeq, st.nextFile + 1, st.hist, MaxSn(st.imm.value, st.flushedSeq))
  {
  }

  lemma SomeInput(fs0: seq<File>, fs1: seq<File>, in0: seq<File>, in1: seq<File>, lo: int, hi: int)
    requires GoodInputs(fs0, fs1, in0, in1, lo, hi)
    ensures |in0| > 0
  {
  }

  lemma SameBelow(levels: seq<seq<File>>, levels': seq<seq<File>>, saved: seq<File>)
    requires SameLevels(levels, levels')
    ensures |levels| == |levels'| == NUM_LEVELS && levels[0 := saved] == levels'[0 := saved]
  {
  }

  /** A compaction of a level has started with these inputs. */
  ghost predicate Starts(st: State, st': State, level: nat, in0: seq<File>, in1: seq<File>, auto: bool) {
    exists j, lo, hi ::
      Allowed(st, st', Step.StartCompaction(j, lo, hi)) && j.auto == auto && j.level == level && j.in0 == in0 &&
      j.in1 == in1
  }

  /** seed has been moved down from its level. */
  ghost predicate MovesDown(st: State, st': State, level: nat, seed: File) {
    exists lo, hi, out0, out1 :: Allowed(st, st', Step.TrivialMove(level, seed, lo, hi, out0, out1))
  }

  /** A file that nothing one level down meets, and not too many bytes two levels down, can just be moved. */
  ghost predicate CanMove(levels: seq<seq<File>>, level: nat, in0: seq<File>, in1: seq<File>, most: nat) {
    |in0| == 1 && |in1| == 0 &&
    (level + 2 < |levels| ==>
       var f, fs := in0[0], levels[level + 2];
       BytesMet(fs, |fs|, f.data[0].key, f.data[|f.data| - 1].key) <= most)
  }

  lemma OneAndNone(levels: seq<seq<File>>, level: nat, in0: seq<File>, in1: seq<File>, most: nat)
    requires CanMove(levels, level, in0, in1, most)
    ensures |in0| == 1 && in0 == [in0[0]] && in1 == []
  {
  }

  /** An automatic compaction of these inputs of a level has started, or the only one of them has been moved. */
  ghost predicate StartsOrMoves(st: State, st': State, level: nat, in0: seq<File>, in1: seq<File>, most: nat) {
    if CanMove(st.levels, level, in0, in1, most) then MovesDown(st, st', level, in0[0])
    else Starts(st, st', level, in0, in1, true)
  }

  /** What an automatic compaction does that starts from a file, and where it leaves the pointers. */
  ghost predicate CompactsFrom(st: State, st': State, pointers: map<nat, Entry>, pointers': map<nat, Entry>,
                               level: nat, seed: File, expandedLimit: nat, most: nat)
  {
    level + 1 < |st.levels| &&
    exists picked, in0, in1 ::
      IsPicked(level, st.levels[level], seed, picked) && (forall f :: f in picked ==> f in in0) &&
      ChosenInputs(level, st.levels[level], st.levels[level + 1], picked, expandedLimit, in0, in1) &&
      StartsOrMoves(st, st', level, in0, in1, most) && PointsAtEnd(pointers, pointers', level, in0)
  }

  /** What a finished compaction has done: its outputs are cut as they should, and their level is in order exactly when
      none of them reaches over a file that stays. */
  ghost predicate Finishes(st: State, st': State, j: Job, limits: Limits) {
    j.level + 1 < |st.levels| &&
    exists input, outputs, out0, out1 ::
      InstallStep(st, st', input, outputs, out0, out1) && OutputsCut(j, limits, input, outputs) &&
      (Disjoint(out1) <==> NothingSpanned(st.levels[j.level + 1], j, outputs))
  }

  lemma InstalledLevel(st: State, st': State, input: seq<Entry>, outputs: seq<File>, out0: seq<File>, out1: seq<File>)
    requires Inv(st) && InstallStep(st, st', input, outputs, out0, out1)
    requires var j := st.job.value; FitTogether(st.levels[j.level + 1], Numbers(j.in1), outputs) ==> Disjoint(out1)
    ensures |st'.levels| == NUM_LEVELS && st.job.value.level + 1 < NUM_LEVELS && st'.job.None?
    ensures st'.levels[st.job.value.level + 1] == out1
    ensures Disjoint(out1) <==> NothingSpanned(st.levels[st.job.value.level + 1], st.job.value, outputs)
    ensures st.job.value.auto ==> Disjoint(out1)
  {
    hide Inv, NothingSpanned, FitTogether, Saved;
    var j, fs := st.job.value, st.levels[st.job.value.level + 1];
    JobAndOutputs(st, j, input, outputs, st'.nextFile);
    OutputsFit(fs, j, outputs);
    if Disjoint(out1) { SortedMeansNothingSpanned(fs, j, outputs, out1); }
  }

  lemma JobAndOutputs(st: State, j: Job, input: seq<Entry>, outputs: seq<File>, next: nat)
    requires Inv(st) && st.job == Some(j) && j.level + 1 < |st.levels| == NUM_LEVELS
    requires GoodOutputs(st, j, input, outputs, next)
    ensures Disjoint(st.levels[j.level + 1]) && LowerInputsOk(st.levels[j.level + 1], j) && Disjoint(outputs)
    ensures forall e :: InFiles(outputs, e) ==> IsInput(j, e)
    ensures forall f, g :: f in outputs && g in st.levels[j.level + 1] ==> f.number != g.number
    ensures forall f, g :: f in st.levels[j.level + 1] && g in j.in1 && f.number == g.number ==> f == g
  {
    hide Recorded, Layered, Faithful, FlushOrdered, Logged, LogsAscending, SnapshotsOrdered, LevelZeroOrdered,
         UpperInputsOk, BaseTestOk, Connected, NoOlderLeft;
  }

  lemma ChosenIsStored(levels: seq<seq<File>>, pointers: map<nat, Entry>, seek: Option<(nat, File)>, level: nat,
                       seed: File)
    requires |levels| == 7 && IsSeed(levels, pointers, seek, level, seed)
    ensures level < 6 && seed in levels[level]
  {
  }

  lemma ChosenLevel(st: State, level: nat, out: seq<File>, f: File)
    requires FlushChoice(st, level, out, f)
    ensures level < |st.levels|
  {
  }

  lemma FlushIsAllowed(st: State, st': State, level: nat, out: seq<File>, f: File)
    requires Inv(st) && FlushChoice(st, level, out, f) && level < |st.levels| && st' == FlushTo(st, level, out)
    ensures Inv(st') && st'.imm.None? && Allowed(st, st', Step.Flush(level, out, f))
  {
    hide Inv, FlushChoice;
    FlushKeepsInv(st, st', level, out, f);
  }

  /** The table of a memtable with entries, and the level it belongs to. */
  ghost predicate TableGoesTo(levels: seq<seq<File>>, data: seq<Entry>, most: nat, sizes: Sizes, f: File, level: nat) {
    |levels| == 7 &&
    (|data| > 0 ==>
       f.data == data && f.size == sizes.tableSize(data) &&
       GoesTo(levels, data[0].key, data[|data| - 1].key, most, level))
  }

  class DbImpl {
    var mem: seq<Entry>
    var imm: Option<seq<Entry>>
    var levels: seq<seq<File>>
    var snapshots: seq<SequenceNumber>
    var lastSeq: SequenceNumber
    var nextFile: nat
    var job: Option<Job>
    var logs: map<nat, seq<seq<Entry>>>
    var logNumber: nat
    var curLog: nat
    var manifestSeq: SequenceNumber
    var manifestNext: nat
    var compactPointers: map<nat, Entry>   // where the last automatic compaction of a level ended
    ghost var hist: map<nat, Entry>
    ghost var flushedSeq: SequenceNumber

    ghost function Abs(): State
      reads this
    {
      State(mem, imm, levels, snapshots, lastSeq, nextFile, job, logs, logNumber, curLog, manifestSeq, manifestNext,
            hist,
            flushedSeq)
    }

    ghost predicate Valid()
      reads this
    {
      Inv(Abs())
    }

    constructor (log: nat)
      ensures Valid() && Abs() == Init(log)
    {
      mem, imm, levels, snapshots := [], None, seq(NUM_LEVELS, _ => []), [];
      lastSeq, nextFile, job, logs := 0, log + 1, None, map[log := []];
      logNumber, curLog, manifestSeq, manifestNext, hist, flushedSeq := log, log, 0, log + 1, map[], 0;
      compactPointers := map[];
      new;
      InitInv(log);
    }

    /** DB::Open on the files that a crash in state st has left behind, the newest log cut off anywhere and the
        manifest with a part of an edit that was never installed.  The store loses the batches that are not completely
        in the newest log, and no others; then the old logs go. */
    constructor Open(image: Image, keyOf: Bytes -> int, name: Bytes, sizes: Sizes,
                     pointers: map<nat, Entry>, ghost nameOf: int -> Bytes,
                     ghost st: State, ghost edits: seq<Edit>, ghost vs: seq<VersionEdit>, ghost inFlight: VersionEdit,
                     ghost batches: map<nat, seq<Batch>>)
      requires Inv(st) && Names(nameOf, keyOf) && Holds(image, nameOf, name, st, edits, vs, inFlight, batches)
      ensures Valid() && st.curLog in image.logs && st.curLog in batches && st.curLog in st.logs
      ensures var m := WholeBatches(image, nameOf, batches, st.curLog);
              m <= |st.logs[st.curLog]| &&
              exists st1, cut, files, out ::
                Allowed(st, st1, Step.Crash(m, cut, files, out)) && Allowed(st1, Abs(), Step.DropLogs(st.logs.Keys)) &&
                LogReplay.TablesOf(Torn(st, m), st.logNumber, st.curLog + 1, sizes, files)
    {
      hide LogReplay.TablesOf, Torn, Inv, Recovered, Holds, SameLevels, WholeBatches, Saved;
      ghost var m, cut, files;
      var version, saved, last, next;
      version, saved, last, next, m, cut, files :=
        RecoverImage(image, keyOf, name, sizes, nameOf, st, edits, vs, inFlight, batches);
      SameBelow(version, st.levels, saved);
      mem, imm, snapshots, job := [], None, [], None;
      levels, logs := version[0 := saved], map[next := []];
      lastSeq, manifestSeq, flushedSeq, hist := last, last, last, UpTo(st.hist, cut);
      logNumber, curLog, nextFile, manifestNext := next, next, next + 1, next + 1;
      compactPointers := pointers;
      new;
      ghost var st1 := Reopened(OnDisk(st, m), saved, last, next, next + 1, UpTo(st.hist, cut));
      OpenedIsRecovered(st, st1, Abs(), m, cut, files, saved, last, next);
      assert Allowed(st, st1, Step.Crash(m, cut, files, saved)) && Allowed(st1, Abs(), Step.DropLogs(st.logs.Keys));
    }

    /** The part of Write that one leader does for its whole group: log record, memtable, last sequence. */
    method Write(ops: seq<(int, Op)>)
      requires Valid() && lastSeq + |ops| < MAX_SEQUENCE_NUMBER
      modifies this
      ensures compactPointers == old(compactPointers)
      ensures Valid() && Allowed(old(Abs()), Abs(), Step.Write(ops))
    {
      LogAndInsert(ops);
      WriteKeepsInv(old(Abs()), Abs(), ops);
    }

    method LogAndInsert(ops: seq<(int, Op)>)
      requires curLog in logs && lastSeq + |ops| < MAX_SEQUENCE_NUMBER
      modifies this
      ensures compactPointers == old(compactPointers)
      ensures WriteStep(old(Abs()), Abs(), ops)
    {
      hide InsertAll, Record;
      var es := BatchEntries(ops, lastSeq + 1);
      logs := logs[curLog := logs[curLog] + [es]];
      mem := InsertInto(mem, es);
      lastSeq := lastSeq + |ops|;
      hist := Record(hist, es);
    }

    /** The reader of one key at a snapshot, or at the last sequence number without one. */
    method Get(k: int, snapshot: Option<SequenceNumber>) returns (r: Option<UserValue>)
      requires Valid() && (snapshot.Some? ==> snapshot.value in snapshots)
      ensures r == ReadAt(hist, k, if snapshot.Some? then snapshot.value else lastSeq)
    {
      var s := if snapshot.Some? then snapshot.value else lastSeq;
      r := VersionGet.Get(mem, imm, levels, k, s, Abs());
      assert Bound(Abs()) <= s <= lastSeq;
      assert Answers(Abs(), k, s, ReadAt(hist, k, s));
      AnswersAgree(Abs(), k, s, r, ReadAt(hist, k, s));
    }

    /** An iterator at a snapshot, or at the last sequence number without one.  What it may show is exactly the
        snapshot; where its operations take it is for DBIter to say. */
    method NewIterator(snapshot: Option<SequenceNumber>) returns (r: DBIter)
      requires Valid() && (snapshot.Some? ==> snapshot.value in snapshots)
      ensures fresh(r) && fresh(r.iter) && (forall i :: 0 <= i < |r.iter.children| ==> fresh(r.iter.children[i]))
      ensures r.Ok() && !r.valid && r.sequence == if snapshot.Some? then snapshot.value else lastSeq
      ensures forall k, v :: ShownSomewhere(r.iter.merged, r.sequence, k, v) <==> ReadAt(hist, k, r.sequence) == Some(v)
    {
      var s := if snapshot.Some? then snapshot.value else lastSeq;
      var iter := NewInternalIterator(mem, imm, levels, Abs());
      forall k, v ensures ShownSomewhere(iter.merged, s, k, v) <==> ReadAt(hist, k, s) == Some(v) {
        ShownIsHistory(Abs(), iter.merged, s, k, v);
      }
      r := new DBIter(iter, s);
    }

    method GetSnapshot() returns (s: SequenceNumber)
      requires Valid()
      modifies this
      ensures compactPointers == old(compactPointers)
      ensures Valid() && Allowed(old(Abs()), Abs(), Step.GetSnapshot) && s == lastSeq
    {
      s := lastSeq;
      snapshots := snapshots + [s];
      StepKeepsInv(old(Abs()), Abs(), Step.GetSnapshot);
    }

    method ReleaseSnapshot(i: nat)
      requires Valid() && i < |snapshots|
      modifies this
      ensures compactPointers == old(compactPointers)
      ensures Valid() && Allowed(old(Abs()), Abs(), Step.ReleaseSnapshot(i))
    {
      snapshots := snapshots[..i] + snapshots[i + 1..];
      StepKeepsInv(old(Abs()), Abs(), Step.ReleaseSnapshot(i));
    }

    /** The branch of MakeRoomForWrite that starts a new log and a new memtable. */
    method SwitchMemtable()
      requires Valid() && imm.None?
      modifies this
      ensures compactPointers == old(compactPointers)
      ensures Valid() && Allowed(old(Abs()), Abs(), Step.SwitchMemtable)
    {
      hide Inv;
      logs := logs[nextFile := []];
      curLog, nextFile := nextFile, nextFile + 1;
      imm := Some(mem);
      mem := [];
      StepKeepsInv(old(Abs()), Abs(), Step.SwitchMemtable);
    }

    // -------------------------------------------------------------- flushing

    /** CompactMemTable: the immutable memtable becomes a table at the level PickLevelForMemTableOutput chooses. */
    method CompactMemTable(maxGrandparentOverlap: nat, sizes: Sizes)
      requires Valid() && imm.Some?
      modifies this
      ensures compactPointers == old(compactPointers)
      ensures Valid() && imm.None?
      ensures exists level, out, f ::
                Allowed(old(Abs()), Abs(), Step.Flush(level, out, f)) &&
                TableGoesTo(old(levels), old(imm).value, maxGrandparentOverlap, sizes, f, level)
    {
      hide Inv, TableGoesTo, FlushChoice, FlushTo, Allowed, WellFormed, Logged, FlushOrdered, LogsAscending;
      StoreParts(Abs());
      var level, out, f := BuildTable(maxGrandparentOverlap, sizes);
      ChosenLevel(Abs(), level, out, f);
      InstallTable(level, out);
      FlushIsAllowed(old(Abs()), Abs(), level, out, f);
    }

    method InstallTable(level: nat, saved: seq<File>)
      requires imm.Some? && level < |levels|
      modifies this
      ensures compactPointers == old(compactPointers)
      ensures Abs() == FlushTo(old(Abs()), level, saved)
    {
      hide MaxSn, FlushTo;
      FlushedTo(Abs(), level, saved);
      levels := levels[level := saved];
      flushedSeq := MaxSn(imm.value, flushedSeq);
      imm, nextFile, logNumber, manifestSeq := None, nextFile + 1, curLog, lastSeq;
      manifestNext := nextFile;
    }

    method BuildTable(maxGrandparentOverlap: nat, sizes: Sizes) returns (level: nat, saved: seq<File>, file: File)
      requires WellFormed(Abs()) && imm.Some?
      ensures FlushChoice(Abs(), level, saved, file)
      ensures TableGoesTo(levels, imm.value, maxGrandparentOverlap, sizes, file, level)
    {
      if |imm.value| == 0 { return 0, levels[0], File(0, 0, [Entry(0, 0, Delete)]); }
      file := File(nextFile, sizes.tableSize(imm.value), imm.value);
      level, saved := PlaceTable(file, maxGrandparentOverlap);
      StopsWhereItGoes(levels, file.Smallest().key, file.Largest().key, maxGrandparentOverlap, level);
    }

    method PlaceTable(file: File, maxGrandparentOverlap: nat) returns (level: nat, saved: seq<File>)
      requires |levels| == NUM_LEVELS && LevelsSorted(levels)
      ensures level <= 2 && Saved(levels[level], {}, [file], saved)
      ensures level > 0 ==> Disjoint(saved) && NothingOverlaps(levels[..level + 1], file)
      ensures StopsAt(levels, file.Smallest().key, file.Largest().key, maxGrandparentOverlap, level)
    {
      hide StopsAt;
      level := PickLevelForMemTableOutput(levels, file.Smallest().key, file.Largest().key, maxGrandparentOverlap);
      if level > 0 {
        StopsAmongNothing(levels, file.Smallest().key, file.Largest().key, maxGrandparentOverlap, level);
        UntouchedFits(levels[level], file);
      }
      saved := SaveLevel(levels[level], {}, [file]);
    }

    // -------------------------------------------------------------- compacting

    /** Picks the inputs of an automatic compaction, and either moves a file down or leaves the compaction to be run.
        seek is a file that too many reads had to search in vain; such a file is never on the last level. */
    method PickCompaction(seek: Option<(nat, File)>, expandedLimit: nat, maxGrandparentOverlap: nat)
      returns (choice: Option<(nat, File)>)
      requires Valid() && job.None?
      requires seek.Some? ==> seek.value.0 + 1 < NUM_LEVELS && seek.value.1 in levels[seek.value.0]
      modifies this
      ensures Valid()
      ensures choice.None? <==> !SomeLevelIsFull(old(levels)) && seek.None?
      ensures choice.None? ==> Abs() == old(Abs()) && compactPointers == old(compactPointers)
      ensures choice.Some? ==>
                var level, seed := choice.value.0, choice.value.1;
                IsSeed(old(levels), old(compactPointers), seek, level, seed) &&
                CompactsFrom(old(Abs()), Abs(), old(compactPointers), compactPointers, level, seed, expandedLimit,
                             maxGrandparentOverlap)
    {
      hide Inv, IsSeed, SomeLevelIsFull, CompactsFrom;
      LevelCount(Abs());
      choice := ChooseSeed(levels, compactPointers, seek);
      if choice.Some? {
        ChosenIsStored(levels, compactPointers, seek, choice.value.0, choice.value.1);
        StartOrMove(choice.value.0, choice.value.1, expandedLimit, maxGrandparentOverlap);
      }
    }

    method StartOrMove(level: nat, seed: File, expandedLimit: nat, maxGrandparentOverlap: nat)
      requires Valid() && job.None? && level + 1 < NUM_LEVELS && seed in levels[level]
      modifies this
      ensures Valid()
      ensures CompactsFrom(old(Abs()), Abs(), old(compactPointers), compactPointers, level, seed, expandedLimit,
                           maxGrandparentOverlap)
    {
      hide Inv, GoodInputs, GoodStart, Connected, StartsOrMoves, PointsAtEnd, WellFormed, Logged, FlushOrdered,
           LogsAscending, ChosenInputs, IsLargest;
      StoreParts(Abs());
      var picked := PickInputs(level, levels[level], seed);
      var in0, in1, lo, hi := SetupOtherInputs(level, levels[level], levels[level + 1], picked, expandedLimit);
      SomeInput(levels[level], levels[level + 1], in0, in1, lo, hi);
      PointToEnd(level, in0);
      RunOrMove(level, in0, in1, maxGrandparentOverlap, lo, hi);
    }

    /** Notes where the inputs of this level end, right away and not only when the compaction is done. */
    method PointToEnd(level: nat, in0: seq<File>)
      requires |in0| > 0
      modifies this`compactPointers
      ensures PointsAtEnd(old(compactPointers), compactPointers, level, in0)
    {
      hide IsLargest, IsSmallest;
      var smallest, largest := GetRange(in0);
      compactPointers := compactPointers[level := largest];
    }

    method RunOrMove(level: nat, in0: seq<File>, in1: seq<File>, maxGrandparentOverlap: nat, ghost lo: int,
                     ghost hi: int)
      requires Valid() && job.None? && |levels| == NUM_LEVELS && level + 1 < NUM_LEVELS
      requires GoodInputs(levels[level], levels[level + 1], in0, in1, lo, hi) && |in0| > 0
      requires GoodStart(level, levels[level], in0) && Connected(in0 + in1)
      modifies this
      ensures compactPointers == old(compactPointers)
      ensures Valid() && StartsOrMoves(old(Abs()), Abs(), level, in0, in1, maxGrandparentOverlap)
    {
      hide Inv, GoodInputs, GoodStart, Connected, Starts, MovesDown, BytesMet, WellFormed, Logged, FlushOrdered;
      hide LogsAscending;
      var trivial := IsTrivialMove(level, in0, in1, maxGrandparentOverlap);
      if trivial {
        OneAndNone(levels, level, in0, in1, maxGrandparentOverlap);
        MoveSeed(level, in0[0], lo, hi);
      } else {
        StartInputs(level, in0, in1, true, lo, hi);
      }
    }

    method MoveSeed(level: nat, seed: File, ghost lo: int, ghost hi: int)
      requires Valid() && job.None? && |levels| == NUM_LEVELS && level + 1 < NUM_LEVELS
      requires GoodInputs(levels[level], levels[level + 1], [seed], [], lo, hi)
      modifies this
      ensures compactPointers == old(compactPointers)
      ensures Valid() && MovesDown(old(Abs()), Abs(), level, seed)
    {
      hide Inv, GoodInputs, MoveStep, WellFormed, Logged, FlushOrdered, LogsAscending;
      StoreParts(Abs());
      ghost var out0, out1 := MoveDown(level, seed, lo, hi);
      MoveKeepsInv(old(Abs()), Abs(), level, seed, lo, hi, out0, out1);
      assert Allowed(old(Abs()), Abs(), Step.TrivialMove(level, seed, lo, hi, out0, out1));
    }

    method StartInputs(level: nat, in0: seq<File>, in1: seq<File>, auto: bool, ghost lo: int, ghost hi: int)
      requires Valid() && job.None? && |levels| == NUM_LEVELS && level + 1 < NUM_LEVELS
      requires GoodInputs(levels[level], levels[level + 1], in0, in1, lo, hi) && GoodStart(level, levels[level], in0)
      requires auto ==> Connected(in0 + in1)
      modifies this`job
      ensures Valid() && Starts(old(Abs()), Abs(), level, in0, in1, auto)
    {
      hide Inv, GoodInputs, GoodStart, Connected, StartStep, WellFormed, Logged, FlushOrdered, LogsAscending;
      StoreParts(Abs());
      var j := StartJob(level, in0, in1, auto, lo, hi);
      StartKeepsInv(old(Abs()), Abs(), j, lo, hi);
      assert Allowed(old(Abs()), Abs(), Step.StartCompaction(j, lo, hi));
    }

    /** Starts a manual compaction of the files of one level that overlap a range of user keys; there is nothing to do
        if none does. */
    method CompactRange(level: nat, begin: Option<int>, end: Option<int>, limit: nat, expandedLimit: nat)
      returns (done: bool)
      requires Valid() && job.None? && level + 1 < NUM_LEVELS
      modifies this
      ensures Valid()
      ensures done <==> forall f :: f in old(levels)[level] ==> !Overlaps(f, begin, end)
      ensures done ==> Abs() == old(Abs()) && compactPointers == old(compactPointers)
      ensures !done ==> exists picked, in0, in1 ::
                IsRangeOf(level, old(levels)[level], begin, end, limit, picked) &&
                (forall f :: f in picked ==> f in in0) &&
                ChosenInputs(level, old(levels)[level], old(levels)[level + 1], picked, expandedLimit, in0, in1) &&
                Starts(old(Abs()), Abs(), level, in0, in1, false) &&
                PointsAtEnd(old(compactPointers), compactPointers, level, in0)
    {
      hide Starts, Inv, GoodInputs, GoodStart, Connected, PointsAtEnd, WellFormed, Logged, FlushOrdered, LogsAscending;
      hide ChosenInputs, TotalFileSize, Overlapping, IsRangeOf;
      StoreParts(Abs());
      var picked := ManualInputs(level, levels[level], begin, end, limit);
      if |picked| == 0 { return true; }
      var in0, in1, lo, hi := SetupOtherInputs(level, levels[level], levels[level + 1], picked, expandedLimit);
      SomeInput(levels[level], levels[level + 1], in0, in1, lo, hi);
      PointToEnd(level, in0);
      StartInputs(level, in0, in1, false, lo, hi);
      done := false;
    }

    method StartJob(level: nat, in0: seq<File>, in1: seq<File>, auto: bool, ghost lo: int, ghost hi: int)
      returns (j: Job)
      requires |levels| == NUM_LEVELS && job.None? && level + 1 < NUM_LEVELS && LevelsSorted(levels)
      requires GoodInputs(levels[level], levels[level + 1], in0, in1, lo, hi) && GoodStart(level, levels[level], in0)
      requires auto ==> Connected(in0 + in1)
      modifies this`job
      ensures StartStep(old(Abs()), Abs(), j, lo, hi) && j.level == level && j.in0 == in0 && j.in1 == in1
      ensures j.auto == auto
    {
      hide GoodStart, Connected, GoodInputs;
      if level > 0 { GoodStartIsDisjoint(level, levels[level], in0); }
      j := Job(level, in0, in1, Oldest(), levels, auto);
      job := Some(j);
    }

    /** The smallest sequence number a reader may hold. */
    function Oldest(): (s: SequenceNumber)
      reads this
      ensures s == Floor(Abs())
    {
      if |snapshots| == 0 then lastSeq else snapshots[0]
    }

    method IsTrivialMove(level: nat, in0: seq<File>, in1: seq<File>, maxGrandparentOverlap: nat) returns (r: bool)
      requires |in0| > 0 && |levels| == NUM_LEVELS
      ensures r <==> |in0| == 1 && |in1| == 0 && (level + 2 < NUM_LEVELS ==>
                       BytesMet(levels[level + 2], |levels[level + 2]|, in0[0].Smallest().key, in0[0].Largest().key)
                       <= maxGrandparentOverlap)
    {
      hide TotalFileSize, BytesMet, Overlapping, MeetsNone, NothingIn;
      if |in0| == 1 && |in1| == 0 { assert in0 + in1 == [in0[0]]; }
      var grandparents := CollectGrandparents(levels, level, in0 + in1);
      if |in0| == 1 && |in1| == 0 {
        OneRange(in0[0]);
        if level + 2 < |levels| {
          MetOverlap(levels[level + 2], in0[0].Smallest().key, in0[0].Largest().key);
        } else {
          NoSize();
        }
      }
      r := |in0| == 1 && |in1| == 0 && TotalFileSize(grandparents) <= maxGrandparentOverlap;
    }

    method MoveDown(level: nat, f: File, ghost lo: int, ghost hi: int)
      returns (ghost out0: seq<File>, ghost out1: seq<File>)
      requires WellFormed(Abs()) && job.None? && level + 1 < NUM_LEVELS
      requires GoodInputs(levels[level], levels[level + 1], [f], [], lo, hi)
      modifies this
      ensures compactPointers == old(compactPointers)
      ensures MoveStep(old(Abs()), Abs(), level, f, lo, hi, out0, out1)
    {
      MovedFits(levels[level + 1], f, lo, hi);
      NoAdditionsFit(levels[level], {f.number});
      var saved0 := SaveLevel(levels[level], {f.number}, []);
      var saved1 := SaveLevel(levels[level + 1], {}, [f]);
      levels := levels[level := saved0][level + 1 := saved1];
      manifestSeq, manifestNext := lastSeq, nextFile;
      out0, out1 := saved0, saved1;
    }

    /** Runs the compaction in progress over the merged inputs and installs what it wrote.  The level of the outputs is
        in order afterwards if and only if no output reaches over a file that stays there; only a manual compaction can
        go wrong in this way. */
    method FinishCompaction(limits: Limits)
      requires Valid() && job.Some?
      modifies this
      ensures compactPointers == old(compactPointers)
      ensures job.None? && |levels| == NUM_LEVELS && old(job).value.level + 1 < NUM_LEVELS
      ensures Finishes(old(Abs()), Abs(), old(job).value, limits)
      ensures old(job).value.auto ==> Disjoint(levels[old(job).value.level + 1])
      ensures Disjoint(levels[old(job).value.level + 1]) ==>
                (DropSafe(old(Abs()), old(job).value) <==> PreservesReads(old(Abs()), Abs())) &&
                (DropSafe(old(Abs()), old(job).value) <==> Valid())
    {
      hide Inv, InstallStep, OutputsCut, DropSafe, PreservesReads, NothingSpanned;
      var j := job.value;
      ghost var input;
      var outputs;
      StoreParts(Abs());
      JobIsOk(Abs());
      JobLevel(Abs(), j);
      input, outputs := WriteOutputs(limits);
      ghost var out0, out1 := InstallCompactionResults(j, input, outputs);
      InstalledLevel(old(Abs()), Abs(), input, outputs, out0, out1);
      if Disjoint(out1) {
        CompactionPreservesReadsExactlyWhen(old(Abs()), Abs(), input, outputs, out0, out1);
        FinishKeepsInv(old(Abs()), Abs(), input, outputs, out0, out1);
      }
    }

    method WriteOutputs(limits: Limits) returns (ghost input: seq<Entry>, outputs: seq<File>)
      requires Valid() && job.Some?
      ensures GoodOutputs(Abs(), job.value, input, outputs, nextFile + |outputs|)
      ensures OutputsCut(job.value, limits, input, outputs)
    {
      InputsShareNothing(Abs(), job.value);
      input, outputs := CompactFiles(job.value, limits, nextFile);
      FreshNumbers(Abs(), outputs);
    }

    method InstallCompactionResults(j: Job, ghost input: seq<Entry>, outputs: seq<File>)
      returns (ghost out0: seq<File>, ghost out1: seq<File>)
      requires |levels| == NUM_LEVELS && LevelsSorted(levels) && job == Some(j) && j.level + 1 < NUM_LEVELS
      requires GoodOutputs(Abs(), j, input, outputs, nextFile + |outputs|)
      modifies this
      ensures compactPointers == old(compactPointers)
      ensures InstallStep(old(Abs()), Abs(), input, outputs, out0, out1)
      ensures FitTogether(old(levels)[j.level + 1], Numbers(j.in1), outputs) ==> Disjoint(out1)
    {
      hide GoodOutputs, Saved, FitTogether, Numbers, Disjoint;
      var saved0, saved1 := SaveBoth(j, outputs);
      levels := levels[j.level := saved0][j.level + 1 := saved1];
      job, nextFile, manifestSeq := None, nextFile + |outputs|, lastSeq;
      manifestNext := nextFile;
      out0, out1 := saved0, saved1;
    }

    method SaveBoth(j: Job, outputs: seq<File>) returns (saved0: seq<File>, saved1: seq<File>)
      requires |levels| == NUM_LEVELS && LevelsSorted(levels) && j.level + 1 < NUM_LEVELS
      ensures Saved(levels[j.level], Numbers(j.in0), [], saved0) && (j.level > 0 ==> Disjoint(saved0))
      ensures Saved(levels[j.level + 1], Numbers(j.in1), outputs, saved1)
      ensures FitTogether(levels[j.level + 1], Numbers(j.in1), outputs) ==> Disjoint(saved1)
    {
      NoAdditionsFit(levels[j.level], Numbers(j.in0));
      saved0 := SaveLevel(levels[j.level], Numbers(j.in0), []);
      saved1 := SaveLevel(levels[j.level + 1], Numbers(j.in1), outputs);
    }
  }

  /** gs are the files two levels down that overlap the inputs. */
  ghost predicate Grandparents(levels: seq<seq<File>>, level: nat, inputs: seq<File>, gs: seq<File>) {
    if level + 2 < |levels| then
      exists lo, hi :: UserRange(inputs, lo, hi) && gs == Overlapping(levels[level + 2], Some(lo), Some(hi))
    else gs == []
  }

  method CollectGrandparents(levels: seq<seq<File>>, level: nat, inputs: seq<File>) returns (gs: seq<File>)
    requires |inputs| > 0
    ensures Grandparents(levels, level, inputs, gs)
  {
    gs := [];
    if level + 2 < |levels| {
      var allStart, allLimit := GetRange(inputs);
      ghost var b, e;
      gs, b, e := GetOverlappingInputs(level + 2, levels[level + 2], Some(allStart.key), Some(allLimit.key));
      assert UserRange(inputs, allStart.key, allLimit.key);
    }
  }

  lemma OneRange(f: File)
    ensures forall lo, hi :: UserRange([f], lo, hi) ==> lo == f.Smallest().key && hi == f.Largest().key
  {
    forall lo, hi | UserRange([f], lo, hi) ensures lo == f.Smallest().key && hi == f.Largest().key {
      RangeIsOwn(f, lo, hi);
    }
  }

  function DataOf(files: seq<File>): seq<Table> { seq(|files|, i requires 0 <= i < |files| => files[i].data) }

  lemma OutputsAreHeld(j: Job, input: seq<Entry>, tables: seq<Table>, outputs: seq<File>)
    requires Sorted(input) && (forall e :: e in input <==> IsInput(j, e)) && Sorted(Concat(tables))
    requires forall e :: e in Concat(tables) <==> Survives(input, j.smallest, j.version, j.level + 2, e)
    requires |outputs| == |tables| && forall i :: 0 <= i < |tables| ==> outputs[i].data == tables[i]
    ensures OutputsHold(j, input, outputs)
  {
    ConcatIsDisjoint(tables);
    OutputsHoldTables(tables, outputs);
    forall e ensures InFiles(outputs, e) <==> e in Concat(tables) {}
  }

  lemma OutputsHoldTables(tables: seq<Table>, outputs: seq<File>)
    requires |outputs| == |tables| && forall i :: 0 <= i < |tables| ==> outputs[i].data == tables[i]
    requires forall i, j, a, b :: 0 <= i < j < |tables| && a in tables[i] && b in tables[j] ==> Before(a, b)
    ensures Disjoint(outputs)
    ensures forall e :: InFiles(outputs, e) <==> exists i :: 0 <= i < |tables| && e in tables[i]
  {
    forall i, k | 0 <= i < k < |outputs| ensures Before(outputs[i].Largest(), outputs[k].Smallest()) {
      assert outputs[i].Largest() in tables[i] && outputs[k].Smallest() in tables[k];
    }
    forall e, i | 0 <= i < |tables| && e in tables[i] ensures InFiles(outputs, e) { assert outputs[i] in outputs; }
  }

  lemma FreshNumbers(st: State, outputs: seq<File>)
    requires NumbersUnique(st.levels, st.manifestNext) && st.manifestNext <= st.nextFile
    requires forall i :: 0 <= i < |outputs| ==> outputs[i].number == st.nextFile + i
    ensures OutputsNumbered(st, outputs, st.nextFile + |outputs|)
  {
    forall f | f in outputs ensures st.nextFile <= f.number < st.nextFile + |outputs| {}
  }

  /** Runs one job; the outputs get file numbers from next on. */
  method CompactFiles(j: Job, limits: Limits, next: nat)
    returns (ghost input: seq<Entry>, outputs: seq<File>)
    requires ShareNothing(InputFiles(j)) && !ShareFiles(j.in0, j.in1) && InputsSorted(j) && |j.in0| > 0
    requires LevelsSorted(j.version) && j.smallest < MAX_SEQUENCE_NUMBER
    ensures OutputsHold(j, input, outputs) && OutputsCut(j, limits, input, outputs)
    ensures forall i :: 0 <= i < |outputs| ==> outputs[i].number == next + i
  {
    hide ShareNothing, ShareFiles, Disjoint, OutputsHold, RightlyCut, Grandparents;
    var grandparents := CollectGrandparents(j.version, j.level, j.in0 + j.in1);
    var stops := new OverlapCursor(limits.ToCut(grandparents));
    var iter := MakeInputIterator(j);
    input := iter.merged;
    var base := new BaseLevelCursor(j.version, j.level + 2);
    var tables := DoCompactionWork(iter, j.smallest, base, stops);
    outputs := NumberOutputs(tables, next, limits.tableSize);
    OutputsAreHeld(j, input, tables, outputs);
    assert DataOf(outputs) == tables;
  }

  /** What decides where outputs are cut, and how large the finished tables are. */
  datatype Limits = Limits(maxGrandparentOverlap: nat, fileSize: seq<Entry> -> nat, maxOutputFileSize: nat,
                           tableSize: seq<Entry> -> nat) {
    function ToCut(grandparents: seq<File>): Cut {
      Cut(grandparents, maxGrandparentOverlap, fileSize, maxOutputFileSize)
    }
  }

  /** The outputs are cut where they are full or would overlap too much two levels down, and nowhere else. */
  ghost predicate OutputsCut(j: Job, limits: Limits, input: seq<Entry>, outputs: seq<File>) {
    exists gs :: Grandparents(j.version, j.level, j.in0 + j.in1, gs) &&
      RightlyCut(DataOf(outputs), input, limits.ToCut(gs))
  }

  lemma UntouchedFits(fs: seq<File>, f: File)
    requires Disjoint(fs) && forall g :: g in fs ==> !Overlaps(g, Some(f.Smallest().key), Some(f.Largest().key))
    ensures FitTogether(fs, {}, [f])
  {
  }

  lemma NoAdditionsFit(fs: seq<File>, deleted: set<nat>)
    ensures Disjoint(fs) ==> FitTogether(fs, deleted, [])
  {
  }

  lemma MovedFits(fs: seq<File>, f: File, lo: int, hi: int)
    requires Disjoint(fs) && UserRange([f], lo, hi) && [] == Overlapping(fs, Some(lo), Some(hi))
    ensures FitTogether(fs, {}, [f])
  {
    RangeIsOwn(f, lo, hi);
    forall g | g in fs ensures Apart(g, f) {
      assert g !in Overlapping(fs, Some(lo), Some(hi));
    }
  }

  lemma RangeIsOwn(f: File, lo: int, hi: int)
    requires UserRange([f], lo, hi)
    ensures lo == f.Smallest().key && hi == f.Largest().key
  {
    assert f in [f];
    var s :| IsSmallest([f], s) && s.key == lo;
    var l :| IsLargest([f], l) && l.key == hi;
  }

  /** Gives the output tables consecutive file numbers. */
  method NumberOutputs(tables: seq<Table>, next: nat, tableSize: seq<Entry> -> nat) returns (outputs: seq<File>)
    ensures |outputs| == |tables|
    ensures forall i :: 0 <= i < |tables| ==> outputs[i] == File(next + i, tableSize(tables[i]), tables[i])
  {
    outputs := seq(|tables|, i requires 0 <= i < |tables| => File(next + i, tableSize(tables[i]), tables[i]));
  }
}
