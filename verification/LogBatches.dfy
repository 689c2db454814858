/** The batches that the log records hold, and the sequence numbers that they claim for themselves. */
module LogBatches {
  import opened InternalKeys
  import opened VersionSet
  import opened Compaction
  import opened Store
  import opened StoreRuns
  import opened LogReplay

  /** A batch with its header: the number of its first operation.  A batch may be empty. */
  datatype Batch = Batch(first: nat, ops: seq<(int, Op)>)

  ghost predicate BatchIs(b: Batch, es: seq<Entry>) {
    1 <= b.first && b.first + |b.ops| <= MAX_SEQUENCE_NUMBER && es == BatchEntries(b.ops, b.first)
  }

  ghost predicate LogIs(bs: seq<Batch>, log: seq<seq<Entry>>) {
    |bs| == |log| && forall i :: 0 <= i < |bs| ==> BatchIs(bs[i], log[i])
  }

  ghost predicate LogsAre(batches: map<nat, seq<Batch>>, logs: map<nat, seq<seq<Entry>>>) {
    batches.Keys == logs.Keys && forall n :: n in logs ==> LogIs(batches[n], logs[n])
  }

  /** Sequence number v is in the manifest, or was reached before record i of log n. */
  ghost predicate Behind(st: State, n: nat, i: nat, v: nat) {
    v <= st.manifestSeq || exists e: Entry :: Earlier(st, n, i, e) && e.sn >= v
  }

  ghost predicate Earlier(st: State, n: nat, i: nat, e: Entry) {
    InLogs(st.logs, st.logNumber, n, e) || (n in st.logs && i <= |st.logs[n]| && InLog(st.logs[n][..i], e))
  }

  ghost predicate ClaimOk(st: State, n: nat, i: nat, first: nat) {
    1 <= first <= st.lastSeq + 1 && Behind(st, n, i, first - 1)
  }

  /** Every batch claims the number after what had been reached before it. */
  ghost predicate Claims(batches: map<nat, seq<Batch>>, st: State) {
    st.curLog in st.logs && LogsAre(batches, st.logs) && Behind(st, st.curLog, |st.logs[st.curLog]|, st.lastSeq) &&
    forall n: nat, i: nat :: n in batches && n >= st.logNumber && i < |batches[n]| ==>
      ClaimOk(st, n, i, batches[n][i].first)
  }

  ghost function BatchesAfter(batches: map<nat, seq<Batch>>, st: State, st': State, step: Step): map<nat, seq<Batch>>
    requires Allowed(st, st', step) && Claims(batches, st)
  {
    match step
    case Write(ops) => batches[st.curLog := batches[st.curLog] + [Batch(st.lastSeq + 1, ops)]]
    case SwitchMemtable => batches[st.nextFile := []]
    case DropLogs(gone) => batches - gone
    case Crash(m, cut, files, out) => batches[st.curLog := batches[st.curLog][..m]][st'.curLog := []]
    case _ => batches
  }

  // ---------------------------------------------------------------- every step keeps the claims right

  lemma ClaimHolds(batches: map<nat, seq<Batch>>, st: State, n: nat, i: nat)
    requires Claims(batches, st) && n in batches && n >= st.logNumber && i < |batches[n]|
    ensures n in st.logs && |st.logs[n]| == |batches[n]| && ClaimOk(st, n, i, batches[n][i].first)
  {
    assert LogIs(batches[n], st.logs[n]);
  }

  /** Nothing has been lost that something was behind of. */
  lemma StillBehind(st: State, st': State, n: nat, i: nat, n': nat, i': nat, v: nat)
    requires Behind(st, n, i, v) && st.manifestSeq <= st'.manifestSeq
    requires forall e: Entry :: Earlier(st, n, i, e) ==> Earlier(st', n', i', e)
    ensures Behind(st', n', i', v)
  {
    hide Earlier;
  }

  lemma WriteKeepsClaims(batches: map<nat, seq<Batch>>, st: State, st': State, ops: seq<(int, Op)>)
    requires WriteStep(st, st', ops) && Claims(batches, st) && (forall n :: n in st.logs ==> n <= st.curLog)
    ensures Claims(BatchesAfter(batches, st, st', Step.Write(ops)), st')
  {
    var batches': map<nat, seq<Batch>> := BatchesAfter(batches, st, st', Step.Write(ops));
    var log, es := st.logs[st.curLog], BatchEntries(ops, st.lastSeq + 1);
    assert LogIs(batches[st.curLog], log);
    assert LogIs(batches'[st.curLog], log + [es]);
    forall n: nat, i: nat | n in batches' && n >= st.logNumber && i < |batches'[n]|
      ensures ClaimOk(st', n, i, batches'[n][i].first)
    {
      EarlierStays(st, st', es, n, i);
      if n == st.curLog && i == |log| {
        assert log[..i] == log;
        StillBehind(st, st', n, i, n, i, st.lastSeq);
      } else {
        ClaimHolds(batches, st, n, i);
        StillBehind(st, st', n, i, n, i, batches[n][i].first - 1);
      }
    }
    LastIsBehind(st, st', es);
  }

  lemma EarlierStays(st: State, st': State, es: seq<Entry>, n: nat, i: nat)
    requires st.curLog in st.logs && st'.logs == st.logs[st.curLog := st.logs[st.curLog] + [es]]
    requires st'.logNumber == st.logNumber && n <= st.curLog && n in st.logs && i <= |st.logs[n]|
    ensures forall e: Entry :: Earlier(st, n, i, e) ==> Earlier(st', n, i, e)
  {
    assert st'.logs[n][..i] == st.logs[n][..i];
    forall e: Entry | InLogs(st.logs, st.logNumber, n, e) ensures InLogs(st'.logs, st'.logNumber, n, e) {
      var k: nat :| st.logNumber <= k < n && k in st.logs && InLog(st.logs[k], e);
      assert InLog(st'.logs[k], e);
    }
  }

  /** A write ends with the newest number, unless it is empty. */
  lemma LastIsBehind(st: State, st': State, es: seq<Entry>)
    requires st.curLog in st.logs && st'.logs == st.logs[st.curLog := st.logs[st.curLog] + [es]]
    requires st'.logNumber == st.logNumber && st'.curLog == st.curLog && st'.manifestSeq == st.manifestSeq
    requires st'.lastSeq == st.lastSeq + |es| && (|es| > 0 ==> es[|es| - 1].sn == st'.lastSeq)
    requires Behind(st, st.curLog, |st.logs[st.curLog]|, st.lastSeq)
    ensures Behind(st', st.curLog, |st'.logs[st.curLog]|, st'.lastSeq)
  {
    var log := st.logs[st.curLog];
    var log' := log + [es];
    assert log'[..|log'|] == log' && log[..|log|] == log;
    if |es| > 0 {
      var e := es[|es| - 1];
      assert e in log'[|log|] && InLog(log', e);
      assert Earlier(st', st.curLog, |log'|, e);
    } else {
      EarlierStays(st, st', es, st.curLog, |log|);
      assert log'[..|log|] == log;
      forall e | InLog(log, e) ensures InLog(log', e) {
        var k: nat :| k < |log| && e in log[k];
        assert e in log'[k];
      }
      StillBehind(st, st', st.curLog, |log|, st.curLog, |log'|, st.lastSeq);
    }
  }

  lemma LogsStay(st: State, st': State, n: nat, i: nat)
    requires st'.logNumber == st.logNumber <= n
    requires forall k: nat :: k in st.logs && k >= st.logNumber ==> k in st'.logs && st'.logs[k] == st.logs[k]
    ensures forall e: Entry :: Earlier(st, n, i, e) ==> Earlier(st', n, i, e)
  {
    forall e: Entry | InLogs(st.logs, st.logNumber, n, e) ensures InLogs(st'.logs, st'.logNumber, n, e) {
      var k: nat :| st.logNumber <= k < n && k in st.logs && InLog(st.logs[k], e);
      assert InLog(st'.logs[k], e);
    }
  }

  /** What is in the old log is before the new one. */
  lemma OldLogIsEarlier(st: State, st': State)
    requires SwitchStep(st, st') && Logged(st)
    ensures forall e: Entry :: Earlier(st, st.curLog, |st.logs[st.curLog]|, e) ==> Earlier(st', st'.curLog, 0, e)
  {
    var log := st.logs[st.curLog];
    assert log[..|log|] == log;
    LogsStay(st, st', st.curLog, |log|);
    forall e: Entry | Earlier(st, st.curLog, |log|, e) ensures InLogs(st'.logs, st'.logNumber, st'.curLog, e) {
      if InLogs(st'.logs, st'.logNumber, st.curLog, e) {
        var k: nat :| st.logNumber <= k < st.curLog && k in st'.logs && InLog(st'.logs[k], e);
      } else {
        assert InLog(st'.logs[st.curLog], e);
      }
    }
  }

  lemma SwitchKeepsClaims(batches: map<nat, seq<Batch>>, st: State, st': State)
    requires SwitchStep(st, st') && Claims(batches, st) && Logged(st)
    ensures Claims(BatchesAfter(batches, st, st', Step.SwitchMemtable), st')
  {
    hide Behind, LogIs;
    EmptyLog();
    var batches': map<nat, seq<Batch>> := BatchesAfter(batches, st, st', Step.SwitchMemtable);
    forall n: nat, i: nat | n in batches' && n >= st.logNumber && i < |batches'[n]|
      ensures ClaimOk(st', n, i, batches'[n][i].first)
    {
      ClaimHolds(batches, st, n, i);
      LogsStay(st, st', n, i);
      StillBehind(st, st', n, i, n, i, batches[n][i].first - 1);
    }
    OldLogIsEarlier(st, st');
    StillBehind(st, st', st.curLog, |st.logs[st.curLog]|, st'.curLog, 0, st.lastSeq);
  }

  lemma EmptyLog()
    ensures LogIs([], [])
  {
  }

  /** When the manifest has caught up with the last sequence number, everything is behind. */
  lemma CaughtUpKeepsClaims(batches: map<nat, seq<Batch>>, st: State, st': State)
    requires Claims(batches, st) && st'.logs == st.logs && st'.curLog == st.curLog && st.logNumber <= st'.logNumber
    requires st'.lastSeq == st.lastSeq == st'.manifestSeq
    ensures Claims(batches, st')
  {
    hide LogIs;
    forall n: nat, i: nat | n in batches && n >= st'.logNumber && i < |batches[n]|
      ensures ClaimOk(st', n, i, batches[n][i].first)
    {
      ClaimHolds(batches, st, n, i);
    }
  }

  lemma SameKeepsClaims(batches: map<nat, seq<Batch>>, st: State, st': State)
    requires Claims(batches, st) && st'.logs == st.logs && st'.curLog == st.curLog && st.logNumber == st'.logNumber
    requires st'.lastSeq == st.lastSeq && st'.manifestSeq == st.manifestSeq
    ensures Claims(batches, st')
  {
    hide LogIs, Behind;
    forall n: nat, i: nat | n in batches && n >= st'.logNumber && i < |batches[n]|
      ensures ClaimOk(st', n, i, batches[n][i].first)
    {
      ClaimHolds(batches, st, n, i);
      StillBehind(st, st', n, i, n, i, batches[n][i].first - 1);
    }
    var k := |st.logs[st.curLog]|;
    StillBehind(st, st', st.curLog, k, st.curLog, k, st.lastSeq);
  }

  lemma DropKeepsClaims(batches: map<nat, seq<Batch>>, st: State, st': State, gone: set<nat>)
    requires DropLogsStep(st, st', gone) && Claims(batches, st) && st.logNumber <= st.curLog
    ensures Claims(batches - gone, st')
  {
    hide LogIs, Behind;
    forall n: nat, i: nat | n in batches - gone && n >= st'.logNumber && i < |batches[n]|
      ensures ClaimOk(st', n, i, batches[n][i].first)
    {
      ClaimHolds(batches, st, n, i);
      LogsStay(st, st', n, i);
      StillBehind(st, st', n, i, n, i, batches[n][i].first - 1);
    }
    var k := |st.logs[st.curLog]|;
    LogsStay(st, st', st.curLog, k);
    StillBehind(st, st', st.curLog, k, st.curLog, k, st.lastSeq);
  }

  lemma CutLogIs(bs: seq<Batch>, log: seq<seq<Entry>>, m: nat)
    requires LogIs(bs, log) && m <= |log|
    ensures LogIs(bs[..m], log[..m])
  {
  }

  lemma CrashKeepsClaims(batches: map<nat, seq<Batch>>, st: State, st': State, m: nat, cut: SequenceNumber,
                         files: seq<File>, out: seq<File>)
    requires CrashStep(st, st', m, cut, files, out) && Claims(batches, st) &&
             (forall n :: n in st.logs ==> n <= st.curLog)
    ensures Claims(BatchesAfter(batches, st, st', Step.Crash(m, cut, files, out)), st')
  {
    hide IsCut, ReplayedFiles, Saved, LogIs;
    assert LogIs(batches[st.curLog], st.logs[st.curLog]);
    LogLength(batches[st.curLog], st.logs[st.curLog]);
    CutLogIs(batches[st.curLog], st.logs[st.curLog], m);
    EmptyLog();
  }

  lemma LogLength(bs: seq<Batch>, log: seq<seq<Entry>>)
    requires LogIs(bs, log)
    ensures |bs| == |log|
  {
  }

  lemma StepKeepsClaims(batches: map<nat, seq<Batch>>, st: State, st': State, step: Step)
    requires Inv(st) && Allowed(st, st', step) && Claims(batches, st)
    ensures Claims(BatchesAfter(batches, st, st', step), st')
  {
    hide CoreInv, LogsAscending, Claims, DropSafe, OutputsHold, GoodOutputs;
    match step
    case Write(ops) => WriteKeepsClaims(batches, st, st', ops);
    case SwitchMemtable => SwitchKeepsClaims(batches, st, st');
    case DropLogs(gone) => DropKeepsClaims(batches, st, st', gone);
    case Crash(m, cut, files, out) => CrashKeepsClaims(batches, st, st', m, cut, files, out);
    case Flush(_, _, _) => CaughtUpKeepsClaims(batches, st, st');
    case FinishCompaction(_, _, _, _) => CaughtUpKeepsClaims(batches, st, st');
    case TrivialMove(_, _, _, _, _, _) => CaughtUpKeepsClaims(batches, st, st');
    case _ => SameKeepsClaims(batches, st, st');
  }

  lemma FirstClaims(log: nat)
    ensures Claims(map[log := []], Init(log))
  {
    EmptyLog();
  }

  /** A run of the store together with the batches in its log files. */
  ghost predicate BatchRun(states: seq<State>, steps: seq<Step>, batches: seq<map<nat, seq<Batch>>>) {
    Run(states, steps) && |batches| == |states| &&
    (exists log: nat :: states[0] == Init(log) && batches[0] == map[log := []]) &&
    forall i :: 0 <= i < |steps| ==>
      Claims(batches[i], states[i]) ==> batches[i + 1] == BatchesAfter(batches[i], states[i], states[i + 1], steps[i])
  }

  lemma {:induction false} RunKeepsClaims(states: seq<State>, steps: seq<Step>, batches: seq<map<nat, seq<Batch>>>,
                                          i: nat)
    requires BatchRun(states, steps, batches) && i < |states|
    ensures Claims(batches[i], states[i])
  {
    hide Claims, Inv;
    if i == 0 {
      var log: nat :| states[0] == Init(log) && batches[0] == map[log := []];
      FirstClaims(log);
    } else {
      RunKeepsClaims(states, steps, batches, i - 1);
      RunKeepsInv(states, steps, i - 1);
      StepKeepsClaims(batches[i - 1], states[i - 1], states[i], steps[i - 1]);
    }
  }

  // ---------------------------------------------------------------- what recovery makes of the claims

  /** The last sequence number of each batch; before its first one if it is empty. */
  ghost predicate LastsAre(lasts: seq<SequenceNumber>, bs: seq<Batch>) {
    |lasts| == |bs| && forall i :: 0 <= i < |bs| ==> lasts[i] == bs[i].first + |bs[i].ops| - 1
  }

  /** What of the logs a crash has left has been decoded. */
  ghost predicate Decoded(batches: map<nat, seq<Batch>>, st: State, m: nat, lasts: map<nat, seq<SequenceNumber>>) {
    Claims(batches, st) && m <= |batches[st.curLog]| &&
    forall n: nat :: n in lasts ==>
      n in batches && LastsAre(lasts[n], if n == st.curLog then batches[n][..m] else batches[n])
  }

  /** No log that is asked for has been left out. */
  ghost predicate AllDecoded(st: State, lasts: map<nat, seq<SequenceNumber>>) {
    forall n: nat :: n in st.logs && n >= st.logNumber ==> n in lasts
  }

  lemma EntryUnderClaim(b: Batch, es: seq<Entry>, e: Entry)
    requires BatchIs(b, es) && e in es
    ensures e.sn <= b.first + |b.ops| - 1
  {
  }

  /** Whatever is replayed is not newer than the largest claim. */
  lemma ReplayUnderClaims(batches: map<nat, seq<Batch>>, st: State, m: nat, lasts: map<nat, seq<SequenceNumber>>,
                          max: nat, e: Entry)
    requires Decoded(batches, st, m, lasts) && AllDecoded(st, lasts)
    requires LargestInLogs(lasts, st.logNumber, st.curLog + 1, max)
    requires st.curLog in st.logs && m <= |st.logs[st.curLog]|
    requires InLogs(Torn(st, m), st.logNumber, st.curLog + 1, e)
    ensures e.sn <= max
  {
    hide BatchIs;
    var torn := Torn(st, m);
    var n: nat :| st.logNumber <= n < st.curLog + 1 && n in torn && InLog(torn[n], e);
    var i: nat :| i < |torn[n]| && e in torn[n][i];
    assert LogIs(batches[n], st.logs[n]);
    assert torn[n][i] == st.logs[n][i];
    var bs := if n == st.curLog then batches[n][..m] else batches[n];
    assert LastsAre(lasts[n], bs);
    assert bs[i] == batches[n][i];
    EntryUnderClaim(batches[n][i], st.logs[n][i], e);
    assert lasts[n][i] in lasts[n];
    assert IsLast(lasts, st.logNumber, st.curLog + 1, lasts[n][i]);
  }

  /** A claim is in the manifest already, or of an entry that is replayed. */
  lemma ClaimIsReplayed(batches: map<nat, seq<Batch>>, st: State, m: nat, lasts: map<nat, seq<SequenceNumber>>,
                        max: nat)
    returns (e: Option<Entry>)
    requires Decoded(batches, st, m, lasts) && st.curLog in st.logs && m <= |st.logs[st.curLog]|
    requires IsLast(lasts, st.logNumber, st.curLog + 1, max)
    ensures if e.None? then max <= st.manifestSeq
            else e.value.sn >= max && InLogs(Torn(st, m), st.logNumber, st.curLog + 1, e.value)
  {
    hide BatchIs, ClaimOk;
    var n: nat :| st.logNumber <= n < st.curLog + 1 && n in lasts && max in lasts[n];
    var i: nat :| i < |lasts[n]| && lasts[n][i] == max;
    var bs := if n == st.curLog then batches[n][..m] else batches[n];
    assert LastsAre(lasts[n], bs);
    var b := batches[n][i];
    assert bs[i] == b && LogIs(batches[n], st.logs[n]);
    ClaimHolds(batches, st, n, i);
    var torn := Torn(st, m);
    if |b.ops| > 0 {
      var last := LastEntry(b, st.logs[n][i]);
      e := Some(last);
      assert torn[n][i] == st.logs[n][i];
      assert InLog(torn[n], e.value);
    } else {
      e := BeforeClaim(st, m, n, i, b.first);
    }
  }

  lemma LastEntry(b: Batch, es: seq<Entry>) returns (e: Entry)
    requires BatchIs(b, es) && |b.ops| > 0
    ensures e in es && e.sn == b.first + |b.ops| - 1
  {
    e := es[|es| - 1];
  }

  lemma BeforeClaim(st: State, m: nat, n: nat, i: nat, first: nat) returns (e: Option<Entry>)
    requires st.curLog in st.logs && m <= |st.logs[st.curLog]| && st.logNumber <= n <= st.curLog && n in st.logs
    requires ClaimOk(st, n, i, first) && i <= if n == st.curLog then m else |st.logs[n]|
    ensures if e.None? then first - 1 <= st.manifestSeq
            else e.value.sn >= first - 1 && InLogs(Torn(st, m), st.logNumber, st.curLog + 1, e.value)
  {
    if first - 1 <= st.manifestSeq { return None; }
    var x: Entry :| Earlier(st, n, i, x) && x.sn >= first - 1;
    e := Some(x);
    var torn := Torn(st, m);
    if InLogs(st.logs, st.logNumber, n, x) {
      var k: nat :| st.logNumber <= k < n && k in st.logs && InLog(st.logs[k], x);
      assert InLog(torn[k], x);
    } else {
      var k: nat :| k < i && x in st.logs[n][..i][k];
      assert x in torn[n][k];
      assert InLog(torn[n], x);
    }
  }

  /** Counting by the headers of the batches gives the same last sequence number as counting by their entries. */
  lemma ClaimsLeadTo(batches: map<nat, seq<Batch>>, st: State, m: nat, lasts: map<nat, seq<SequenceNumber>>, max: nat,
                     newest: nat)
    requires Decoded(batches, st, m, lasts) && AllDecoded(st, lasts)
    requires LargestInLogs(lasts, st.logNumber, st.curLog + 1, max)
    requires st.curLog in st.logs && m <= |st.logs[st.curLog]|
    requires NewestInLogs(Torn(st, m), st.logNumber, st.curLog + 1, newest)
    ensures newest <= max && (max <= newest || max <= st.manifestSeq)
  {
    hide Decoded, Torn;
    if newest > 0 {
      var e :| InLogs(Torn(st, m), st.logNumber, st.curLog + 1, e) && e.sn == newest;
      ReplayUnderClaims(batches, st, m, lasts, max, e);
    }
    if max > 0 { var x := ClaimIsReplayed(batches, st, m, lasts, max); }
  }
}
