/** Recovery (DBImpl::Recover and RecoverLogFile): log records go through memtables into level-0 tables. */
module LogReplay {
  import opened InternalKeys
  import opened VersionSet
  import opened Store

  /** These tables hold the records of log, each newer than the one before, under numbers from next on. */
  ghost predicate Replayed(log: seq<seq<Entry>>, files: seq<File>, next: nat) {
    (forall e :: InFiles(files, e) <==> InLog(log, e)) &&
    (forall i :: 0 <= i < |files| ==> files[i].number == next + i) &&
    (forall i, j :: 0 <= i < j < |files| ==> AllNewer(files[j], files[i]))
  }

  /** One record into the memtable. */
  method InsertBatch(mem: seq<Entry>, es: seq<Entry>) returns (r: seq<Entry>)
    requires Sorted(mem) && Ascending(es) && forall a, b :: a in mem && b in es ==> a.sn < b.sn
    ensures Sorted(r) && forall e :: e in r <==> e in mem || e in es
  {
    r := mem;
    var i := 0;
    while i < |es|
      invariant 0 <= i <= |es|
      invariant Sorted(r) && forall e :: e in r <==> e in mem || e in es[..i]
    {
      assert es[..i + 1] == es[..i] + [es[i]];
      InsertSorted(r, es[i]);
      r := Insert(r, es[i]);
      i := i + 1;
    }
    assert es[..i] == es;
  }

  /** mem holds the records from one position to another. */
  ghost predicate Buffered(log: seq<seq<Entry>>, done: nat, i: nat, mem: seq<Entry>)
    requires done <= i <= |log|
  {
    Sorted(mem) && forall e :: e in mem <==> InLog(log[done..i], e)
  }

  /** A table was written out at each of these positions of the log; it holds what came since the one before. */
  ghost predicate WrittenAt(log: seq<seq<Entry>>, sizes: Sizes, cuts: seq<nat>, files: seq<File>) {
    |cuts| == |files| + 1 && cuts[0] == 0 && cuts[|files|] <= |log| &&
    (forall i, j :: 0 <= i < j <= |files| ==> cuts[i] < cuts[j]) &&
    forall i :: 0 <= i < |files| ==>
      Buffered(log, cuts[i], cuts[i + 1], files[i].data) && files[i].size == sizes.tableSize(files[i].data)
  }

  /** A memtable with entries is over the size of the write buffer. */
  ghost predicate IsOver(sizes: Sizes, mem: seq<Entry>) {
    |mem| > 0 && sizes.memoryUsage(mem) > sizes.writeBuffer
  }

  /** No memtable that was filled from position from on was over the size before position to. */
  ghost predicate NeverOver(log: seq<seq<Entry>>, sizes: Sizes, from: nat, to: nat)
    requires to <= |log| + 1
  {
    forall i, mem :: from <= i < to && Buffered(log, from, i, mem) ==> !IsOver(sizes, mem)
  }

  /** Each of these tables was written as soon as its memtable was over the size, and not before. */
  ghost predicate WrittenInTime(log: seq<seq<Entry>>, sizes: Sizes, cuts: seq<nat>, files: seq<File>) {
    WrittenAt(log, sizes, cuts, files) &&
    (forall i :: 0 <= i < |files| ==> NeverOver(log, sizes, cuts[i], cuts[i + 1])) &&
    forall i :: 0 <= i < |files| ==> IsOver(sizes, files[i].data) || (i == |files| - 1 && cuts[i + 1] == |log|)
  }

  ghost predicate AllOver(sizes: Sizes, files: seq<File>) {
    forall i :: 0 <= i < |files| ==> IsOver(sizes, files[i].data)
  }

  /** The same for all tables of the log: only the last of them may be what was left at its end, and no entry stays
      behind. */
  ghost predicate WrittenWhenOver(log: seq<seq<Entry>>, sizes: Sizes, files: seq<File>) {
    exists cuts :: WrittenInTime(log, sizes, cuts, files) && forall i :: cuts[|files|] <= i < |log| ==> log[i] == []
  }

  /** last is the newest sequence number of the log, or from if that is newer. */
  ghost predicate NewestOf(log: seq<seq<Entry>>, from: nat, last: nat) {
    from <= last && (forall e :: InLog(log, e) ==> e.sn <= last) &&
    (last == from || exists e :: InLog(log, e) && e.sn == last)
  }

  /** last is the largest of from and these. */
  ghost predicate LargestOf(lasts: seq<SequenceNumber>, from: nat, last: nat) {
    from <= last && (forall x :: x in lasts ==> x <= last) && (last == from || last in lasts)
  }

  /** Replays one log; lasts are the last sequence numbers that the batches claim for themselves.  The memtable is
      written out as a level-0 table whenever it exceeds the write buffer, and at the end; without entries there is no
      table. */
  method RecoverLogFile(log: seq<seq<Entry>>, lasts: seq<SequenceNumber>, sizes: Sizes, next: nat,
                        from: SequenceNumber, ghost newestBefore: SequenceNumber)
    returns (files: seq<File>, maxSequence: SequenceNumber, ghost newest: SequenceNumber)
    requires LogAscending(log) && |lasts| == |log|
    ensures Replayed(log, files, next) && NewestOf(log, newestBefore, newest) && LargestOf(lasts, from, maxSequence)
    ensures WrittenWhenOver(log, sizes, files)
  {
    hide RecordBefore, AllNewer, NewestOf, LargestOf, WrittenInTime, NeverOver;
    files, maxSequence, newest := [], from, newestBefore;
    NothingRead(from, newestBefore);
    var mem: seq<Entry> := [];
    ghost var done := 0;
    ghost var cuts: seq<nat> := [0];
    NothingWritten(log, sizes);
    var i := 0;
    while i < |log|
      invariant 0 <= done <= i <= |log|
      invariant Replayed(log[..done], files, next)
      invariant Buffered(log, done, i, mem)
      invariant |cuts| == |files| + 1 && cuts[|files|] == done
      invariant WrittenInTime(log, sizes, cuts, files) && AllOver(sizes, files)
      invariant NeverOver(log, sizes, done, i + 1)
      invariant NewestOf(log[..i], newestBefore, newest) && LargestOf(lasts[..i], from, maxSequence)
    {
      BatchIsNewer(log, done, i);
      mem := InsertBatch(mem, log[i]);
      InLogGrows(log, done, i);
      NextNewest(log, i, newestBefore, newest);
      newest := MaxSn(log[i], newest);
      NextLargest(lasts, i, from, maxSequence);
      if lasts[i] > maxSequence { maxSequence := lasts[i]; }
      i := i + 1;
      if sizes.memoryUsage(mem) > sizes.writeBuffer && |mem| > 0 {
        WriteTable(log, sizes, cuts, files, i, File(next + |files|, sizes.tableSize(mem), mem));
        cuts := cuts + [i];
        TableIsNewer(log, done, i, files, next, sizes.tableSize(mem), mem);
        files := files + [File(next + |files|, sizes.tableSize(mem), mem)];
        mem, done := [], i;
        EmptyIsNotOver(log, sizes, i);
      } else {
        StillNotOver(log, sizes, done, i, mem);
      }
    }
    assert log[..i] == log && lasts[..i] == lasts;
    if |mem| > 0 {
      EntriesAreBehind(log, done, i, mem);
      OverEarlier(log, sizes, done, i);
      WriteTable(log, sizes, cuts, files, i, File(next + |files|, sizes.tableSize(mem), mem));
      cuts := cuts + [i];
      TableIsNewer(log, done, i, files, next, sizes.tableSize(mem), mem);
      files := files + [File(next + |files|, sizes.tableSize(mem), mem)];
    } else {
      NothingLeft(log, done, files, next);
      NoBatchLeft(log, done);
    }
    assert WrittenWhenOver(log, sizes, files);
  }

  lemma OverEarlier(log: seq<seq<Entry>>, sizes: Sizes, from: nat, to: nat)
    requires to <= |log| && NeverOver(log, sizes, from, to + 1)
    ensures NeverOver(log, sizes, from, to)
  {
  }

  lemma NothingWritten(log: seq<seq<Entry>>, sizes: Sizes)
    ensures WrittenInTime(log, sizes, [0], []) && NeverOver(log, sizes, 0, 1)
  {
    EmptyIsNotOver(log, sizes, 0);
  }

  lemma EmptyIsNotOver(log: seq<seq<Entry>>, sizes: Sizes, i: nat)
    requires i <= |log|
    ensures Buffered(log, i, i, []) && NeverOver(log, sizes, i, i + 1)
  {
    StillNotOver(log, sizes, i, i, []);
  }

  /** The memtable at position i is not over the size either. */
  lemma StillNotOver(log: seq<seq<Entry>>, sizes: Sizes, done: nat, i: nat, mem: seq<Entry>)
    requires done <= i <= |log| && Buffered(log, done, i, mem) && !IsOver(sizes, mem)
    requires NeverOver(log, sizes, done, i)
    ensures NeverOver(log, sizes, done, i + 1)
  {
    hide IsOver;
    forall mem' | Buffered(log, done, i, mem') ensures mem' == mem { SortedOnce(mem', mem); }
  }

  lemma {:induction false} SortedOnce(a: seq<Entry>, b: seq<Entry>)
    requires Sorted(a) && Sorted(b) && forall e :: e in a <==> e in b
    ensures a == b
  {
    if |a| == 0 {
      NoMembers(b);
    } else {
      assert a[0] in b;
      FirstIsFirst(a, b);
      TailsAlike(a, b);
      SortedOnce(a[1..], b[1..]);
      assert a == [a[0]] + a[1..] && b == [b[0]] + b[1..];
    }
  }

  lemma NoMembers(a: seq<Entry>)
    requires forall e :: e !in a
    ensures |a| == 0
  {
    if |a| > 0 { FirstIsMember(a); }
  }

  lemma FirstIsMember(a: seq<Entry>)
    requires |a| > 0
    ensures exists e :: e in a
  {
    assert a[0] in a;
  }

  lemma FirstIsFirst(a: seq<Entry>, b: seq<Entry>)
    requires Sorted(a) && Sorted(b) && |a| > 0 && |b| > 0 && a[0] in b && b[0] in a
    ensures a[0] == b[0]
  {
    var i :| 0 <= i < |a| && a[i] == b[0];
    var j :| 0 <= j < |b| && b[j] == a[0];
  }

  lemma TailsAlike(a: seq<Entry>, b: seq<Entry>)
    requires Sorted(a) && Sorted(b) && |a| > 0 && |b| > 0 && a[0] == b[0] && forall e :: e in a <==> e in b
    ensures forall e :: e in a[1..] <==> e in b[1..]
  {
    TailMembers(a);
    TailMembers(b);
  }

  lemma TailMembers(a: seq<Entry>)
    requires Sorted(a) && |a| > 0
    ensures forall e :: e in a[1..] <==> e in a && e != a[0]
  {
    assert a == [a[0]] + a[1..];
    forall e | e in a[1..] ensures e != a[0] {
      var i :| 0 <= i < |a| - 1 && a[1..][i] == e;
      assert a[i + 1] == e;
    }
  }

  lemma WriteTable(log: seq<seq<Entry>>, sizes: Sizes, cuts: seq<nat>, files: seq<File>, i: nat, f: File)
    requires WrittenInTime(log, sizes, cuts, files) && AllOver(sizes, files) && cuts[|files|] < i <= |log|
    requires Buffered(log, cuts[|files|], i, f.data) && f.size == sizes.tableSize(f.data)
    requires NeverOver(log, sizes, cuts[|files|], i) && (IsOver(sizes, f.data) || i == |log|)
    ensures WrittenInTime(log, sizes, cuts + [i], files + [f])
  {
    hide NeverOver, IsOver, Buffered;
  }

  lemma EntriesAreBehind(log: seq<seq<Entry>>, done: nat, i: nat, mem: seq<Entry>)
    requires done <= i <= |log| && Buffered(log, done, i, mem) && |mem| > 0
    ensures done < i
  {
    assert mem[0] in mem;
  }

  lemma InLogAt(log: seq<seq<Entry>>, done: nat, i: nat, e: Entry)
    requires done <= i < |log| && e in log[i]
    ensures InLog(log[done..|log|], e)
  {
    assert log[done..|log|][i - done] == log[i];
  }

  lemma NoBatchLeft(log: seq<seq<Entry>>, done: nat)
    requires done <= |log| && Buffered(log, done, |log|, [])
    ensures forall i :: done <= i < |log| ==> log[i] == []
  {
    forall i | done <= i < |log| ensures log[i] == [] {
      if |log[i]| > 0 { InLogAt(log, done, i, log[i][0]); }
    }
  }

  /** The same in bytes: all tables but the last come from memtables of more bytes than the write buffer has, and no
      memtable of the batches before had more. */
  lemma WrittenInBytes(log: seq<seq<Entry>>, sizes: Sizes, files: seq<File>) returns (cuts: seq<nat>)
    requires WrittenWhenOver(log, sizes, files)
    ensures WrittenAt(log, sizes, cuts, files)
    ensures forall i :: 0 <= i < |files| - 1 ==> sizes.memoryUsage(files[i].data) > sizes.writeBuffer
    ensures |files| > 0 && cuts[|files|] < |log| ==>
              sizes.memoryUsage(files[|files| - 1].data) > sizes.writeBuffer
    ensures forall i, j, mem ::
      0 <= i < |files| && cuts[i] <= j < cuts[i + 1] && |mem| > 0 && Buffered(log, cuts[i], j, mem) ==>
      sizes.memoryUsage(mem) <= sizes.writeBuffer
    ensures forall i :: cuts[|files|] <= i < |log| ==> log[i] == []
  {
    hide Buffered;
    cuts :| WrittenInTime(log, sizes, cuts, files) && forall i :: cuts[|files|] <= i < |log| ==> log[i] == [];
    forall i, j, mem | 0 <= i < |files| && cuts[i] <= j < cuts[i + 1] && |mem| > 0 && Buffered(log, cuts[i], j, mem)
      ensures sizes.memoryUsage(mem) <= sizes.writeBuffer
    {
      assert NeverOver(log, sizes, cuts[i], cuts[i + 1]);
      assert !IsOver(sizes, mem);
    }
  }

  lemma NothingRead(from: nat, newest: nat)
    ensures NewestOf([], newest, newest) && LargestOf([], from, from)
  {
  }

  lemma NextNewest(log: seq<seq<Entry>>, i: nat, from: nat, newest: SequenceNumber)
    requires i < |log| && NewestOf(log[..i], from, newest)
    ensures NewestOf(log[..i + 1], from, MaxSn(log[i], newest))
  {
    InLogGrows(log, 0, i);
    assert log[0..i] == log[..i] && log[0..i + 1] == log[..i + 1];
  }

  lemma NextLargest(lasts: seq<SequenceNumber>, i: nat, from: nat, max: nat)
    requires i < |lasts| && LargestOf(lasts[..i], from, max)
    ensures LargestOf(lasts[..i + 1], from, if lasts[i] > max then lasts[i] else max)
  {
    var before, now := lasts[..i], lasts[..i + 1];
    assert now == before + [lasts[i]];
  }

  lemma InLogGrows(log: seq<seq<Entry>>, from: nat, i: nat)
    requires from <= i < |log|
    ensures forall e :: InLog(log[from..i + 1], e) <==> InLog(log[from..i], e) || e in log[i]
  {
    var before, after := log[from..i], log[from..i + 1];
    assert after == before + [log[i]];
    forall e ensures InLog(after, e) <==> InLog(before, e) || e in log[i] {
      if InLog(before, e) { var k :| 0 <= k < |before| && e in before[k]; assert e in after[k]; }
      if e in log[i] { assert e in after[|before|]; }
    }
  }

  lemma BatchIsNewer(log: seq<seq<Entry>>, from: nat, i: nat)
    requires LogAscending(log) && from <= i < |log|
    ensures forall a, b :: InLog(log[from..i], a) && b in log[i] ==> a.sn < b.sn
  {
    forall a, b | InLog(log[from..i], a) && b in log[i] ensures a.sn < b.sn {
      var k :| 0 <= k < i - from && a in log[from..i][k];
      assert a in log[from + k];
    }
  }

  lemma PartsOfLog(log: seq<seq<Entry>>, m: nat, i: nat)
    requires m <= i <= |log|
    ensures forall e :: InLog(log[..i], e) <==> InLog(log[..m], e) || InLog(log[m..i], e)
  {
    forall e ensures InLog(log[..i], e) <==> InLog(log[..m], e) || InLog(log[m..i], e) {
      InLogSplit(log[..i], m, e);
      assert log[..i][..m] == log[..m] && log[..i][m..] == log[m..i];
    }
  }

  lemma NothingLeft(log: seq<seq<Entry>>, m: nat, files: seq<File>, next: nat)
    requires m <= |log| && Buffered(log, m, |log|, []) && Replayed(log[..m], files, next)
    ensures Replayed(log, files, next)
  {
    PartsOfLog(log, m, |log|);
    assert log[..|log|] == log;
  }

  lemma TableIsNewer(log: seq<seq<Entry>>, done: nat, i: nat, files: seq<File>, next: nat, size: nat, mem: seq<Entry>)
    requires LogAscending(log) && done <= i <= |log| && Replayed(log[..done], files, next)
    requires |mem| > 0 && Buffered(log, done, i, mem)
    ensures Replayed(log[..i], files + [File(next + |files|, size, mem)], next)
  {
    var f := File(next + |files|, size, mem);
    PartsOfLog(log, done, i);
    AppendHolds(files, f);
    forall k | 0 <= k < |files| ensures AllNewer(f, files[k]) {
      forall a, b | a in f.data && b in files[k].data ensures a.sn > b.sn {
        assert InFiles(files, b);
        assert log[..i][..done] == log[..done] && log[..i][done..] == log[done..i];
        TornIsNewer(log[..i], done, b, a);
      }
    }
  }

  lemma AppendHolds(files: seq<File>, f: File)
    ensures forall e :: InFiles(files + [f], e) <==> InFiles(files, e) || e in f.data
  {
    forall e ensures InFiles(files + [f], e) <==> InFiles(files, e) || e in f.data {
      if InFiles(files, e) { var g :| g in files && e in g.data; assert g in files + [f]; }
      if e in f.data { assert f in files + [f]; }
    }
  }

  // ---------------------------------------------------------------- all logs, oldest first

  ghost predicate InLogs(logs: map<nat, seq<seq<Entry>>>, from: nat, to: nat, e: Entry) {
    exists n :: from <= n < to && n in logs && InLog(logs[n], e)
  }

  ghost predicate SameReplay(logs: map<nat, seq<seq<Entry>>>, logs': map<nat, seq<seq<Entry>>>, from: nat, to: nat) {
    forall e :: InLogs(logs, from, to, e) <==> InLogs(logs', from, to, e)
  }

  lemma LogsInOrder(logs: map<nat, seq<seq<Entry>>>, from: nat, n: nat)
    requires LogsAscending(logs, from) && n in logs
    ensures forall a, b :: InLogs(logs, from, n, a) && InLog(logs[n], b) ==> a.sn < b.sn
  {
    forall a, b | InLogs(logs, from, n, a) && InLog(logs[n], b) ensures a.sn < b.sn {
      var k :| from <= k < n && k in logs && InLog(logs[k], a);
      assert LogBefore(logs[k], logs[n]);
    }
  }

  /** Tables numbered upwards from low and below next, each newer than the ones before. */
  ghost predicate InOrder(files: seq<File>, low: nat, next: nat) {
    (forall f :: f in files ==> low <= f.number < next) &&
    (forall i, j :: 0 <= i < j < |files| ==> files[i].number < files[j].number && AllNewer(files[j], files[i]))
  }

  /** The tables hold what the logs from one number up to another held. */
  ghost predicate HoldLogs(logs: map<nat, seq<seq<Entry>>>, from: nat, to: nat, files: seq<File>) {
    forall e :: InFiles(files, e) <==> InLogs(logs, from, to, e)
  }

  /** max is the newest sequence number read back, or 0. */
  ghost predicate NewestInLogs(logs: map<nat, seq<seq<Entry>>>, from: nat, to: nat, max: nat) {
    (forall e :: InLogs(logs, from, to, e) ==> e.sn <= max) &&
    (max == 0 || exists e :: InLogs(logs, from, to, e) && e.sn == max)
  }

  ghost predicate IsLast(lasts: map<nat, seq<SequenceNumber>>, from: nat, to: nat, last: nat) {
    exists n: nat :: from <= n < to && n in lasts && last in lasts[n]
  }

  /** max is the largest sequence number that a batch claims, or 0. */
  ghost predicate LargestInLogs(lasts: map<nat, seq<SequenceNumber>>, from: nat, to: nat, max: nat) {
    (forall last: nat :: IsLast(lasts, from, to, last) ==> last <= max) && (max == 0 || IsLast(lasts, from, to, max))
  }

  /** Where recovery stands when the logs below to have been replayed. */
  ghost predicate Recovering(logs: map<nat, seq<seq<Entry>>>, from: nat, to: nat, low: nat, files: seq<File>,
                             newest: nat, next: nat)
  {
    HoldLogs(logs, from, to, files) && InOrder(files, low, next) && NewestInLogs(logs, from, to, newest) && low <= next
  }

  /** The tables of one log after another, each log's in time. */
  ghost predicate TablesOf(logs: map<nat, seq<seq<Entry>>>, from: nat, end: nat, sizes: Sizes, files: seq<File>)
    decreases end
  {
    if end <= from then files == []
    else if end - 1 !in logs then TablesOf(logs, from, end - 1, sizes, files)
    else exists k ::
      0 <= k <= |files| && TablesOf(logs, from, end - 1, sizes, files[..k]) &&
      WrittenWhenOver(logs[end - 1], sizes, files[k..])
  }

  lemma TablesGrow(logs: map<nat, seq<seq<Entry>>>, from: nat, n: nat, sizes: Sizes, files: seq<File>, more: seq<File>)
    requires from <= n && n in logs && TablesOf(logs, from, n, sizes, files) && WrittenWhenOver(logs[n], sizes, more)
    ensures TablesOf(logs, from, n + 1, sizes, files + more)
  {
    hide WrittenWhenOver;
    var all, k := files + more, |files|;
    assert all[..k] == files && all[k..] == more;
  }

  lemma {:induction false} SameTables(logs: map<nat, seq<seq<Entry>>>, logs': map<nat, seq<seq<Entry>>>, from: nat,
                                      end: nat, sizes: Sizes, files: seq<File>)
    requires TablesOf(logs, from, end, sizes, files)
    requires forall n: nat :: from <= n < end ==> (n in logs <==> n in logs')
    requires forall n: nat :: from <= n < end && n in logs ==> logs[n] == logs'[n]
    ensures TablesOf(logs', from, end, sizes, files)
    decreases end
  {
    hide WrittenWhenOver;
    if end <= from {
    } else if end - 1 !in logs {
      SameTables(logs, logs', from, end - 1, sizes, files);
    } else {
      var k :| 0 <= k <= |files| && TablesOf(logs, from, end - 1, sizes, files[..k]) &&
               WrittenWhenOver(logs[end - 1], sizes, files[k..]);
      SameTables(logs, logs', from, end - 1, sizes, files[..k]);
    }
  }

  /** Replays the logs from one number on, in the order of their numbers.  A log's number is only marked as used
      once the log has been replayed. */
  method RecoverLogs(logs: map<nat, seq<seq<Entry>>>, lasts: map<nat, seq<SequenceNumber>>, from: nat, newest: nat,
                     sizes: Sizes, low: nat)
    returns (files: seq<File>, maxSequence: SequenceNumber, next: nat, ghost newestSeq: SequenceNumber)
    requires newest in logs && from <= newest && LogsAscending(logs, from)
    requires lasts.Keys == logs.Keys && forall n :: n in logs ==> |lasts[n]| == |logs[n]|
    ensures Recovering(logs, from, newest + 1, low, files, newestSeq, next)
    ensures LargestInLogs(lasts, from, newest + 1, maxSequence)
    ensures newest < next && low <= next && TablesOf(logs, from, newest + 1, sizes, files)
  {
    hide TablesOf, LogsAscending, Recovering, LargestInLogs;
    files, maxSequence, next, newestSeq := [], 0, low, 0;
    NothingRecovered(logs, lasts, from, low, sizes);
    var n := from;
    while n <= newest
      invariant from <= n <= newest + 1
      invariant Recovering(logs, from, n, low, files, newestSeq, next) && LargestInLogs(lasts, from, n, maxSequence)
      invariant low <= next && (n == newest + 1 ==> newest < next) && TablesOf(logs, from, n, sizes, files)
    {
      files, maxSequence, next, newestSeq :=
        RecoverOneLog(logs, lasts, from, n, sizes, low, files, maxSequence, next, newestSeq);
      n := n + 1;
    }
  }

  /** Replays log n, if there is one. */
  method RecoverOneLog(logs: map<nat, seq<seq<Entry>>>, lasts: map<nat, seq<SequenceNumber>>, ghost from: nat, n: nat,
                       sizes: Sizes, ghost low: nat, files: seq<File>, max: SequenceNumber, next: nat,
                       ghost newest: SequenceNumber)
    returns (files': seq<File>, max': SequenceNumber, next': nat, ghost newest': SequenceNumber)
    requires from <= n && LogsAscending(logs, from) && Recovering(logs, from, n, low, files, newest, next)
    requires lasts.Keys == logs.Keys && (n in logs ==> |lasts[n]| == |logs[n]|) && LargestInLogs(lasts, from, n, max)
    requires TablesOf(logs, from, n, sizes, files)
    ensures TablesOf(logs, from, n + 1, sizes, files')
    ensures Recovering(logs, from, n + 1, low, files', newest', next') && LargestInLogs(lasts, from, n + 1, max')
    ensures low <= next' && (n in logs ==> n < next')
  {
    hide Replayed, LargestInLogs, WrittenWhenOver;
    if n !in logs {
      NoLogHere(logs, lasts, from, n, low, files, max, next, newest);
      return files, max, next, newest;
    }
    var more, last;
    ghost var newestHere;
    more, last, newestHere := RecoverLogFile(logs[n], lasts[n], sizes, next, max, newest);
    files', max', next', newest' := files + more, last, next + |more|, newestHere;
    if next' <= n { next' := n + 1; }
    TablesGrow(logs, from, n, sizes, files, more);
    LargestStep(lasts, from, n, max, last);
    RecoveredStep(logs, from, n, files, low, next, more, newest, newestHere, next');
  }

  lemma NothingRecovered(logs: map<nat, seq<seq<Entry>>>, lasts: map<nat, seq<SequenceNumber>>, from: nat, low: nat,
                         sizes: Sizes)
    ensures Recovering(logs, from, from, low, [], 0, low) && LargestInLogs(lasts, from, from, 0)
    ensures TablesOf(logs, from, from, sizes, [])
  {
  }

  lemma NoLogHere(logs: map<nat, seq<seq<Entry>>>, lasts: map<nat, seq<SequenceNumber>>, from: nat, n: nat, low: nat,
                  files: seq<File>, max: nat, next: nat, newest: nat)
    requires from <= n && n !in logs && n !in lasts && Recovering(logs, from, n, low, files, newest, next)
    requires LargestInLogs(lasts, from, n, max)
    ensures Recovering(logs, from, n + 1, low, files, newest, next) && LargestInLogs(lasts, from, n + 1, max)
  {
    var to := n + 1;
    forall last: nat | IsLast(lasts, from, to, last) ensures last <= max {
      var k: nat :| from <= k < n + 1 && k in lasts && last in lasts[k];
      assert IsLast(lasts, from, n, last);
    }
    if max != 0 {
      var k: nat :| from <= k < n && k in lasts && max in lasts[k];
      assert IsLast(lasts, from, n + 1, max);
    }
    forall e ensures InLogs(logs, from, n + 1, e) <==> InLogs(logs, from, n, e) {}
  }

  lemma InLogsGrows(logs: map<nat, seq<seq<Entry>>>, from: nat, n: nat)
    requires from <= n && n in logs
    ensures forall e :: InLogs(logs, from, n + 1, e) <==> InLogs(logs, from, n, e) || InLog(logs[n], e)
  {
  }

  lemma MaxStep(logs: map<nat, seq<seq<Entry>>>, from: nat, n: nat, max: nat, last: nat)
    requires from <= n && n in logs && NewestInLogs(logs, from, n, max) && NewestOf(logs[n], max, last)
    ensures NewestInLogs(logs, from, n + 1, last)
  {
    InLogsGrows(logs, from, n);
  }

  lemma LargestStep(lasts: map<nat, seq<SequenceNumber>>, from: nat, n: nat, max: nat, max': nat)
    requires from <= n && n in lasts && LargestInLogs(lasts, from, n, max) && LargestOf(lasts[n], max, max')
    ensures LargestInLogs(lasts, from, n + 1, max')
  {
    var to := n + 1;
    forall last: nat | IsLast(lasts, from, to, last) ensures last <= max' {
      var k: nat :| from <= k < n + 1 && k in lasts && last in lasts[k];
      if k < n { assert IsLast(lasts, from, n, last); }
    }
    if max' in lasts[n] {
      assert IsLast(lasts, from, n + 1, max');
    } else if max != 0 {
      var k: nat :| from <= k < n && k in lasts && max in lasts[k];
      assert IsLast(lasts, from, n + 1, max');
    }
  }

  lemma RecoveredStep(logs: map<nat, seq<seq<Entry>>>, from: nat, n: nat, files: seq<File>, low: nat, next: nat,
                      more: seq<File>, max: nat, last: nat, next': nat)
    requires from <= n && n in logs && LogsAscending(logs, from) && next + |more| <= next'
    requires Recovering(logs, from, n, low, files, max, next)
    requires Replayed(logs[n], more, next) && NewestOf(logs[n], max, last)
    ensures Recovering(logs, from, n + 1, low, files + more, last, next')
  {
    MaxStep(logs, from, n, max, last);
    HoldMore(logs, from, n, files, next, more);
    LaterLogIsNewer(logs, from, n, files, next, more);
    OrdersJoin(files, low, next, more, next');
  }

  lemma HoldMore(logs: map<nat, seq<seq<Entry>>>, from: nat, n: nat, files: seq<File>, next: nat, more: seq<File>)
    requires from <= n && n in logs && HoldLogs(logs, from, n, files) && Replayed(logs[n], more, next)
    ensures HoldLogs(logs, from, n + 1, files + more)
  {
    InLogsGrows(logs, from, n);
    forall e ensures InFiles(files + more, e) <==> InFiles(files, e) || InFiles(more, e) {
      if InFiles(files, e) { var g :| g in files && e in g.data; assert g in files + more; }
      if InFiles(more, e) { var g :| g in more && e in g.data; assert g in files + more; }
    }
  }

  lemma OrdersJoin(files: seq<File>, low: nat, next: nat, more: seq<File>, next': nat)
    requires InOrder(files, low, next) && low <= next && next + |more| <= next'
    requires forall i :: 0 <= i < |more| ==> more[i].number == next + i
    requires forall i, j :: 0 <= i < j < |more| ==> AllNewer(more[j], more[i])
    requires forall f, g :: f in files && g in more ==> AllNewer(g, f)
    ensures InOrder(files + more, low, next')
  {
    var all := files + more;
    forall i, j | 0 <= i < j < |all| ensures all[i].number < all[j].number && AllNewer(all[j], all[i]) {
      if i < |files| <= j { assert all[i] in files && all[j] in more; }
    }
  }

  lemma LaterLogIsNewer(logs: map<nat, seq<seq<Entry>>>, from: nat, n: nat, files: seq<File>, next: nat,
                        more: seq<File>)
    requires from <= n && n in logs && LogsAscending(logs, from) && HoldLogs(logs, from, n, files)
    requires Replayed(logs[n], more, next)
    ensures forall f, g :: f in files && g in more ==> AllNewer(g, f)
  {
    LogsInOrder(logs, from, n);
    forall f, g, a, b | f in files && g in more && a in g.data && b in f.data ensures a.sn > b.sn {
      assert InFiles(more, a) && InFiles(files, b);
    }
  }

  // ---------------------------------------------------------------- what a crash leaves

  /** What recovery reads back is what the memtables held, up to the torn tail. */
  lemma TornLogsHoldReplays(st: State, m: nat)
    requires Logged(st) && m <= |st.logs[st.curLog]|
    ensures forall e :: InLogs(Torn(st, m), st.logNumber, st.curLog + 1, e) <==> Replays(st, m, e)
  {
    forall e ensures InLogs(Torn(st, m), st.logNumber, st.curLog + 1, e) <==> Replays(st, m, e) {
      if At(st, 1, e) {
        var n :| n in st.logs && st.logNumber <= n < st.curLog && InLog(st.logs[n], e);
        assert InLog(Torn(st, m)[n], e);
      }
      if InLog(st.logs[st.curLog][..m], e) { assert InLog(Torn(st, m)[st.curLog], e); }
    }
  }

  lemma TornLogsAscend(st: State, m: nat)
    requires Logged(st) && LogsAscending(st.logs, st.logNumber) && m <= |st.logs[st.curLog]|
    ensures LogsAscending(Torn(st, m), st.logNumber)
  {
    var log := st.logs[st.curLog];
    forall i, j | 0 <= i < j < m ensures RecordBefore(log[..m][i], log[..m][j]) { assert RecordBefore(log[i], log[j]); }
    forall e | InLog(log[..m], e) ensures InLog(log, e) { InLogSplit(log, m, e); }
    forall n | n in st.logs && st.logNumber <= n < st.curLog ensures LogBefore(st.logs[n], log[..m]) {
      assert LogBefore(st.logs[n], log);
    }
  }

  /** The newest sequence number on disk, once the logs have been read back. */
  lemma CutOf(st: State, m: nat, files: seq<File>, max: SequenceNumber, next: nat) returns (cut: SequenceNumber)
    requires Logged(st) && FlushOrdered(st) && m <= |st.logs[st.curLog]|
    requires Recovering(Torn(st, m), st.logNumber, st.curLog + 1, st.manifestNext, files, max, next)
    ensures IsCut(st, m, cut) && Max(st.manifestSeq, cut) == Max(st.manifestSeq, max)
    ensures ReplayedFiles(st, m, files, next)
  {
    TornLogsHoldReplays(st, m);
    CutIsNewest(st, m, max);
    cut := Max(st.flushedSeq, max);
    TablesAreReplays(st, m, files, next);
  }

  lemma TablesAreReplays(st: State, m: nat, files: seq<File>, next: nat)
    requires Logged(st) && m <= |st.logs[st.curLog]| && InOrder(files, st.manifestNext, next)
    requires HoldLogs(Torn(st, m), st.logNumber, st.curLog + 1, files)
    ensures ReplayedFiles(st, m, files, next)
  {
    TornLogsHoldReplays(st, m);
  }

  lemma CutIsNewest(st: State, m: nat, max: SequenceNumber)
    requires Logged(st) && FlushOrdered(st) && m <= |st.logs[st.curLog]|
    requires forall e :: Replays(st, m, e) ==> e.sn <= max
    requires max == 0 || exists e :: Replays(st, m, e) && e.sn == max
    ensures IsCut(st, m, Max(st.flushedSeq, max))
  {
    if e :| Replays(st, m, e) && e.sn == max { ReplaysAreUnflushed(st, m, e); }
  }
}
