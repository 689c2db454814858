/** The queue of writers (db/db_impl.cc Write and BuildBatchGroup): the writer at the front commits a group of batches
    for itself and for writers behind it, while others may join the end of the queue. */
module GroupCommit {
  import opened InternalKeys

  type Batch = seq<(int, Op)>

  /** A call of Write.  A null batch only waits its turn. */
  datatype Writer = Writer(batch: Option<Batch>, sync: bool, byteSize: nat)

  function Ops(w: Writer): Batch { if w.batch.Some? then w.batch.value else [] }

  function Size(w: Writer): nat { if w.batch.Some? then w.byteSize else 0 }

  /** The operations of writers i to j, in queue order. */
  function Combined(ws: seq<Writer>, i: nat, j: nat): Batch
    requires i <= j <= |ws|
  {
    if i == j then [] else Combined(ws, i, j - 1) + Ops(ws[j - 1])
  }

  function TotalSize(ws: seq<Writer>, i: nat, j: nat): nat
    requires i <= j <= |ws|
  {
    if i == j then 0 else TotalSize(ws, i, j - 1) + Size(ws[j - 1])
  }

  // ---------------------------------------------------------------- choosing a group

  function MaxSize(first: Writer): nat {
    if Size(first) <= 0x2_0000 then Size(first) + 0x2_0000 else 0x10_0000
  }

  /** Writer k must not join a group led by writer i: a sync write under a leader that does not sync, or too big. */
  predicate Blocked(ws: seq<Writer>, i: nat, k: nat)
    requires i < k < |ws|
  {
    (ws[k].sync && !ws[i].sync) || (ws[k].batch.Some? && TotalSize(ws, i, k + 1) > MaxSize(ws[i]))
  }

  /** Writers i to j are the longest group that writer i may lead. */
  ghost predicate IsGroup(ws: seq<Writer>, i: nat, j: nat) {
    i < j <= |ws| && (forall k :: i < k < j ==> !Blocked(ws, i, k)) && (j < |ws| ==> Blocked(ws, i, j))
  }

  /** The bytes, and the operations, of some writers, from the first one on. */
  function BytesOf(ws: seq<Writer>): nat {
    if |ws| == 0 then 0 else (if ws[0].batch.Some? then ws[0].byteSize else 0) + BytesOf(ws[1..])
  }

  function OperationsOf(ws: seq<Writer>): Batch {
    if |ws| == 0 then [] else (if ws[0].batch.Some? then ws[0].batch.value else []) + OperationsOf(ws[1..])
  }

  lemma {:induction false} SumsAgree(ws: seq<Writer>, i: nat, j: nat)
    requires i <= j <= |ws|
    ensures TotalSize(ws, i, j) == BytesOf(ws[i..j]) && Combined(ws, i, j) == OperationsOf(ws[i..j])
  {
    if i == j {
    } else {
      SumsAgree(ws, i, j - 1);
      assert ws[i..j] == ws[i..j - 1] + [ws[j - 1]];
      OneMoreWriter(ws[i..j - 1], ws[j - 1]);
    }
  }

  lemma {:induction false} OneMoreWriter(ws: seq<Writer>, w: Writer)
    ensures BytesOf(ws + [w]) == BytesOf(ws) + Size(w) && OperationsOf(ws + [w]) == OperationsOf(ws) + Ops(w)
  {
    if |ws| == 0 {
      assert [w][1..] == [];
    } else {
      assert (ws + [w])[1..] == ws[1..] + [w];
      OneMoreWriter(ws[1..], w);
    }
  }

  /** 128 kilobytes more for a small leader, one megabyte in all for a large one. */
  ghost predicate InBounds(leader: nat, others: nat) {
    if leader <= 131_072 then others <= 131_072 else leader + others <= 1_048_576
  }

  /** What makes a group the right one, said of byte counts: it keeps within the bounds and under the sync rule, and it
      ends only where the next writer would break one of them. */
  lemma GroupIsRightSize(ws: seq<Writer>, i: nat, j: nat)
    requires IsGroup(ws, i, j) && ws[i].batch.Some?
    ensures forall k :: i < k < j && ws[k].sync ==> ws[i].sync
    ensures forall k :: i < k < j && ws[k].batch.Some? ==> InBounds(ws[i].byteSize, BytesOf(ws[i + 1..k + 1]))
    ensures ws[i].byteSize <= 131_072 ==> BytesOf(ws[i + 1..j]) <= 131_072
    ensures ws[i].byteSize > 131_072 && (exists k :: i < k < j && ws[k].batch.Some?) ==> BytesOf(ws[i..j]) <= 1_048_576
    ensures j < |ws| ==>
              (ws[j].sync && !ws[i].sync) ||
              (ws[j].batch.Some? && !InBounds(ws[i].byteSize, BytesOf(ws[i + 1..j + 1])))
  {
    hide IsGroup, InBounds;
    GroupParts(ws, i, j);
    forall k | i < k < j && ws[k].batch.Some? ensures InBounds(ws[i].byteSize, BytesOf(ws[i + 1..k + 1])) {
      BlockedMeans(ws, i, k);
    }
    if j < |ws| { BlockedMeans(ws, i, j); }
    GroupFits(ws, i, j);
  }

  lemma GroupParts(ws: seq<Writer>, i: nat, j: nat)
    requires IsGroup(ws, i, j)
    ensures i < j <= |ws| && (forall k :: i < k < j ==> !Blocked(ws, i, k)) && (j < |ws| ==> Blocked(ws, i, j))
    ensures forall k :: i < k < j && ws[k].sync ==> ws[i].sync
  {
    forall k | i < k < j ensures ws[k].sync ==> ws[i].sync { assert !Blocked(ws, i, k); }
  }

  lemma BlockedMeans(ws: seq<Writer>, i: nat, k: nat)
    requires i < k < |ws| && ws[i].batch.Some?
    ensures Blocked(ws, i, k) <==>
              (ws[k].sync && !ws[i].sync) ||
              (ws[k].batch.Some? && !InBounds(ws[i].byteSize, BytesOf(ws[i + 1..k + 1])))
  {
    SumsAgree(ws, i, k + 1);
    assert ws[i..k + 1][1..] == ws[i + 1..k + 1];
  }

  /** Writers without a batch at the end of a group do not make it larger. */
  lemma {:induction false} GroupFits(ws: seq<Writer>, i: nat, j: nat)
    requires i < j <= |ws| && ws[i].batch.Some? && forall k :: i < k < j ==> !Blocked(ws, i, k)
    ensures ws[i].byteSize <= 131_072 ==> BytesOf(ws[i + 1..j]) <= 131_072
    ensures ws[i].byteSize > 131_072 && (exists k :: i < k < j && ws[k].batch.Some?) ==> BytesOf(ws[i..j]) <= 1_048_576
  {
    if j == i + 1 {
    } else {
      GroupFits(ws, i, j - 1);
      BlockedMeans(ws, i, j - 1);
      assert ws[i..j][1..] == ws[i + 1..j] && ws[i..j - 1][1..] == ws[i + 1..j - 1];
      assert ws[i + 1..j] == ws[i + 1..j - 1] + [ws[j - 1]];
      OneMoreWriter(ws[i + 1..j - 1], ws[j - 1]);
    }
  }

  method BuildBatchGroup(ws: seq<Writer>, front: nat) returns (end: nat, batch: Batch)
    requires front < |ws| && ws[front].batch.Some?
    ensures IsGroup(ws, front, end) && batch == Combined(ws, front, end)
    ensures front < end <= |ws| && batch == OperationsOf(ws[front..end])
    ensures forall k :: front < k < end && ws[k].sync ==> ws[front].sync
    ensures ws[front].byteSize <= 131_072 ==> BytesOf(ws[front + 1..end]) <= 131_072
    ensures ws[front].byteSize > 131_072 && (exists k :: front < k < end && ws[k].batch.Some?) ==>
              BytesOf(ws[front..end]) <= 1_048_576
    ensures end < |ws| ==>
              (ws[end].sync && !ws[front].sync) ||
              (ws[end].batch.Some? &&
               if ws[front].byteSize <= 131_072 then BytesOf(ws[front + 1..end + 1]) > 131_072
               else BytesOf(ws[front..end + 1]) > 1_048_576)
  {
    end, batch := TakeGroup(ws, front);
    GroupIsRightSize(ws, front, end);
    SumsAgree(ws, front, end);
    if end < |ws| { assert ws[front..end + 1][1..] == ws[front + 1..end + 1]; }
  }

  /** The loop of BuildBatchGroup. */
  method TakeGroup(ws: seq<Writer>, front: nat) returns (end: nat, batch: Batch)
    requires front < |ws| && ws[front].batch.Some?
    ensures IsGroup(ws, front, end) && batch == Combined(ws, front, end)
  {
    var first := ws[front];
    batch := first.batch.value;
    var size, maxSize := first.byteSize, MaxSize(first);
    end := front + 1;
    while end < |ws|
      invariant front < end <= |ws| && batch == Combined(ws, front, end) && size == TotalSize(ws, front, end)
      invariant forall k :: front < k < end ==> !Blocked(ws, front, k)
    {
      var w := ws[end];
      if w.sync && !first.sync { break; }
      if w.batch.Some? {
        size := size + w.byteSize;
        if size > maxSize { break; }
        batch := batch + w.batch.value;
      }
      end := end + 1;
    }
  }

  // ---------------------------------------------------------------- the protocol

  datatype Phase = Chosen | Logged | Inserted

  /** The front writer and those up to end are being committed together.  wrote says that there was room and something
      to write, logged that the record is in the log, and ok is the status so far. */
  datatype Group = Group(end: nat, wrote: bool, phase: Phase, logged: bool, ok: bool)

  /** A finished group: its writers, the sequence numbers it has used up, and the status that all of them got. */
  datatype Finished = Finished(from: nat, end: nat, first: nat, count: nat, wrote: bool, logged: bool, ok: bool)

  /** One log record, or what one group put into the memtable. */
  datatype Record = Record(first: nat, batch: Batch)

  /** All calls in the order in which they queued; those before front have returned. */
  datatype State = State(writers: seq<Writer>, front: nat, group: Option<Group>, lastSeq: nat, log: seq<Record>,
                         mem: seq<Record>, finished: seq<Finished>)

  datatype Step =
    | Submit(w: Writer)
    | Lead(roomOk: bool)
    | AppendToLog(appended: bool, ok: bool)
    | InsertIntoMemtable
    | Finish

  function Init(): State { State([], 0, None, 0, [], [], []) }

  /** A leader is at work, at the end of one of its phases. */
  predicate Working(s: State, phase: Phase) {
    s.group.Some? && s.group.value.phase == phase && s.front < s.group.value.end <= |s.writers|
  }

  function GroupRecord(s: State): Record
    requires s.group.Some? && s.front <= s.group.value.end <= |s.writers|
  {
    Record(s.lastSeq + 1, Combined(s.writers, s.front, s.group.value.end))
  }

  function Ended(s: State): Finished
    requires s.group.Some? && s.front <= s.group.value.end <= |s.writers|
  {
    var g := s.group.value;
    Finished(s.front, g.end, s.lastSeq + 1, if g.wrote then |GroupRecord(s).batch| else 0, g.wrote, g.logged, g.ok)
  }

  /** Log and memtable are written without the lock: Submit may come between any two steps of a leader.  An append may
      fail although the record has reached the file, when it cannot be synced.  Sequence numbers are used up even by
      groups that fail. */
  ghost predicate Allowed(s: State, s': State, step: Step) {
    match step
    case Submit(w) => s' == s.(writers := s.writers + [w])
    case Lead(roomOk) =>
      s.group.None? && s.front < |s.writers| && s'.group.Some? && s' == s.(group := s'.group) &&
      if roomOk && s.writers[s.front].batch.Some? then
        IsGroup(s.writers, s.front, s'.group.value.end) &&
        s'.group.value == Group(s'.group.value.end, true, Chosen, false, true)
      else s'.group.value == Group(s.front + 1, false, Inserted, false, roomOk)
    case AppendToLog(appended, ok) =>
      Working(s, Chosen) && (ok ==> appended) &&
      s' == s.(group := Some(s.group.value.(phase := Logged, logged := appended, ok := ok)),
               log := if appended then s.log + [GroupRecord(s)] else s.log)
    case InsertIntoMemtable =>
      Working(s, Logged) &&
      s' == s.(group := Some(s.group.value.(phase := Inserted)),
               mem := if s.group.value.ok then s.mem + [GroupRecord(s)] else s.mem)
    case Finish =>
      Working(s, Inserted) &&
      s' == s.(front := s.group.value.end, group := None, lastSeq := s.lastSeq + Ended(s).count,
               finished := s.finished + [Ended(s)])
  }

  ghost predicate Run(states: seq<State>, steps: seq<Step>) {
    |states| == |steps| + 1 && states[0] == Init() &&
    forall i :: 0 <= i < |steps| ==> Allowed(states[i], states[i + 1], steps[i])
  }

  // ---------------------------------------------------------------- the invariant

  /** Finished groups follow each other without gaps, in the queue and in their sequence numbers. */
  ghost predicate Tiled(finished: seq<Finished>, front: nat, lastSeq: nat) {
    (forall i :: 0 <= i < |finished| ==> finished[i].from < finished[i].end) &&
    (if |finished| == 0 then front == 0 && lastSeq == 0
     else finished[0].from == 0 && finished[0].first == 1 && front == finished[|finished| - 1].end &&
          lastSeq + 1 == finished[|finished| - 1].first + finished[|finished| - 1].count) &&
    forall i :: 0 < i < |finished| ==> finished[i].from == finished[i - 1].end &&
                                       finished[i].first == finished[i - 1].first + finished[i - 1].count
  }

  /** A group that wrote used up one number for each of its operations, and only such a group did. */
  ghost predicate Counted(ws: seq<Writer>, f: Finished) {
    f.from < f.end <= |ws| && f.count == (if f.wrote then |Combined(ws, f.from, f.end)| else 0) &&
    (!f.wrote ==> f.end == f.from + 1 && (f.ok ==> Ops(ws[f.from]) == [])) &&
    (f.ok && f.wrote ==> f.logged) && (f.logged ==> f.wrote)
  }

  /** The records of the finished groups that wrote one, in queue order. */
  function Logs(ws: seq<Writer>, finished: seq<Finished>): seq<Record>
    requires forall i :: 0 <= i < |finished| ==> finished[i].from <= finished[i].end <= |ws|
  {
    if |finished| == 0 then []
    else
      var f := finished[|finished| - 1];
      var rest := Logs(ws, finished[..|finished| - 1]);
      if f.logged then rest + [Record(f.first, Combined(ws, f.from, f.end))] else rest
  }

  /** What the successful groups wrote, in queue order. */
  function Commits(ws: seq<Writer>, finished: seq<Finished>): seq<Record>
    requires forall i :: 0 <= i < |finished| ==> finished[i].from <= finished[i].end <= |ws|
  {
    if |finished| == 0 then []
    else
      var f := finished[|finished| - 1];
      var rest := Commits(ws, finished[..|finished| - 1]);
      if f.ok && f.wrote then rest + [Record(f.first, Combined(ws, f.from, f.end))] else rest
  }

  ghost predicate GroupOk(s: State) {
    s.group.Some? ==>
      var g := s.group.value;
      s.front < g.end <= |s.writers| && (g.phase.Chosen? ==> !g.logged && g.ok) && (g.logged ==> g.wrote) &&
      (!g.wrote ==> g.phase.Inserted? && g.end == s.front + 1 && (g.ok ==> Ops(s.writers[s.front]) == [])) &&
      (g.ok && g.wrote && !g.phase.Chosen? ==> g.logged) &&
      (forall k :: s.front < k < g.end ==> !(s.writers[k].sync && !s.writers[s.front].sync))
  }

  ghost predicate Inv(s: State) {
    Tiled(s.finished, s.front, s.lastSeq) && s.front <= |s.writers| && GroupOk(s) &&
    (forall i :: 0 <= i < |s.finished| ==> Counted(s.writers, s.finished[i])) &&
    s.log == Logs(s.writers, s.finished) + (if s.group.Some? && s.group.value.logged then [GroupRecord(s)] else []) &&
    s.mem == Commits(s.writers, s.finished) +
             (if s.group.Some? && s.group.value.phase.Inserted? && s.group.value.ok && s.group.value.wrote
              then [GroupRecord(s)] else [])
  }

  lemma {:induction false} CombinedIgnoresLater(ws: seq<Writer>, w: Writer, i: nat, j: nat)
    requires i <= j <= |ws|
    ensures Combined(ws + [w], i, j) == Combined(ws, i, j)
  {
    if i == j {
    } else {
      CombinedIgnoresLater(ws, w, i, j - 1);
    }
  }

  lemma {:induction false} RecordsIgnoreLater(ws: seq<Writer>, w: Writer, finished: seq<Finished>)
    requires forall i :: 0 <= i < |finished| ==> finished[i].from <= finished[i].end <= |ws|
    ensures Logs(ws + [w], finished) == Logs(ws, finished) && Commits(ws + [w], finished) == Commits(ws, finished)
  {
    if |finished| == 0 {
    } else {
      var n := |finished| - 1;
      RecordsIgnoreLater(ws, w, finished[..n]);
      CombinedIgnoresLater(ws, w, finished[n].from, finished[n].end);
    }
  }

  lemma SubmitKeepsInv(s: State, s': State, w: Writer)
    requires Inv(s) && Allowed(s, s', Submit(w))
    ensures Inv(s')
  {
    RecordsIgnoreLater(s.writers, w, s.finished);
    forall i | 0 <= i < |s.finished| ensures Counted(s'.writers, s.finished[i]) {
      assert Counted(s.writers, s.finished[i]);
      CombinedIgnoresLater(s.writers, w, s.finished[i].from, s.finished[i].end);
    }
    if s.group.Some? { CombinedIgnoresLater(s.writers, w, s.front, s.group.value.end); }
  }

  lemma LeadKeepsInv(s: State, s': State, roomOk: bool)
    requires Inv(s) && Allowed(s, s', Lead(roomOk))
    ensures Inv(s')
  {
    if roomOk && s.writers[s.front].batch.Some? {
      forall k | s.front < k < s'.group.value.end ensures !(s.writers[k].sync && !s.writers[s.front].sync) {
        assert !Blocked(s.writers, s.front, k);
      }
    }
  }

  lemma FinishedFit(s: State)
    requires forall i :: 0 <= i < |s.finished| ==> Counted(s.writers, s.finished[i])
    ensures forall i :: 0 <= i < |s.finished| ==> s.finished[i].from <= s.finished[i].end <= |s.writers|
  {
    forall i | 0 <= i < |s.finished| ensures s.finished[i].from <= s.finished[i].end <= |s.writers| {
      assert Counted(s.writers, s.finished[i]);
    }
  }

  lemma AppendKeepsInv(s: State, s': State, appended: bool, ok: bool)
    requires Inv(s) && Allowed(s, s', AppendToLog(appended, ok))
    ensures Inv(s')
  {
    hide Tiled, Counted, Logs, Commits, Combined;
    FinishedFit(s);
  }

  lemma InsertKeepsInv(s: State, s': State)
    requires Inv(s) && Allowed(s, s', InsertIntoMemtable)
    ensures Inv(s')
  {
    hide Tiled, Counted, Logs, Commits, Combined;
    FinishedFit(s);
  }

  lemma FinishKeepsInv(s: State, s': State)
    requires Inv(s) && Allowed(s, s', Finish)
    ensures Inv(s')
  {
    hide Tiled, Counted, Logs, Commits;
    TileAdded(s.finished, s.front, s.lastSeq, Ended(s));
    RecordsAdded(s.writers, s.finished, Ended(s));
    EndedIsCounted(s);
  }

  lemma TileAdded(finished: seq<Finished>, front: nat, lastSeq: nat, f: Finished)
    requires Tiled(finished, front, lastSeq) && f.from == front < f.end && f.first == lastSeq + 1
    ensures Tiled(finished + [f], f.end, lastSeq + f.count)
  {
  }

  lemma EndedIsCounted(s: State)
    requires GroupOk(s) && s.group.Some? && s.group.value.phase.Inserted?
    ensures Counted(s.writers, Ended(s))
  {
  }

  lemma RecordsAdded(ws: seq<Writer>, finished: seq<Finished>, f: Finished)
    requires (forall i :: 0 <= i < |finished| ==> Counted(ws, finished[i])) && f.from <= f.end <= |ws|
    ensures forall i :: 0 <= i < |finished| ==> finished[i].from <= finished[i].end <= |ws|
    ensures var r := [Record(f.first, Combined(ws, f.from, f.end))];
            Logs(ws, finished + [f]) == Logs(ws, finished) + (if f.logged then r else []) &&
            Commits(ws, finished + [f]) == Commits(ws, finished) + if f.ok && f.wrote then r else []
  {
    var all := finished + [f];
    assert all[..|all| - 1] == finished && all[|all| - 1] == f;
    forall i | 0 <= i < |finished| ensures finished[i].from <= finished[i].end <= |ws| {
      assert Counted(ws, finished[i]);
    }
  }

  lemma StepKeepsInv(s: State, s': State, step: Step)
    requires Inv(s) && Allowed(s, s', step)
    ensures Inv(s')
  {
    hide Inv;
    match step
    case Submit(w) => SubmitKeepsInv(s, s', w);
    case Lead(roomOk) => LeadKeepsInv(s, s', roomOk);
    case AppendToLog(appended, ok) => AppendKeepsInv(s, s', appended, ok);
    case InsertIntoMemtable => InsertKeepsInv(s, s');
    case Finish => FinishKeepsInv(s, s');
  }

  lemma {:induction false} RunKeepsInv(states: seq<State>, steps: seq<Step>, i: nat)
    requires Run(states, steps) && i < |states|
    ensures Inv(states[i])
  {
    if i == 0 {
    } else {
      hide Inv, Allowed;
      RunKeepsInv(states, steps, i - 1);
      StepKeepsInv(states[i - 1], states[i], steps[i - 1]);
    }
  }

  // ---------------------------------------------------------------- whole runs

  /** In every state the memtable has been given exactly the batches of the successful groups, and the log has got
      them too, in the same order, each at its own sequence number. */
  lemma CommitsAreExact(states: seq<State>, steps: seq<Step>, i: nat)
    requires Run(states, steps) && i < |states| && states[i].group.None?
    ensures forall k :: 0 <= k < |states[i].finished| ==>
              states[i].finished[k].from <= states[i].finished[k].end <= |states[i].writers|
    ensures states[i].mem == Commits(states[i].writers, states[i].finished)
    ensures states[i].log == Logs(states[i].writers, states[i].finished)
  {
    RunKeepsInv(states, steps, i);
    var s := states[i];
    forall k | 0 <= k < |s.finished| ensures s.finished[k].from <= s.finished[k].end <= |s.writers| {
      assert Counted(s.writers, s.finished[k]);
    }
  }

  lemma {:induction false} TilesAscend(finished: seq<Finished>, front: nat, lastSeq: nat, i: nat, j: nat)
    requires Tiled(finished, front, lastSeq) && i < j < |finished|
    ensures finished[i].end <= finished[j].from && finished[i].first + finished[i].count <= finished[j].first
    decreases j
  {
    if i == j - 1 {
    } else {
      TilesAscend(finished, front, lastSeq, i, j - 1);
    }
  }

  /** The groups take their writers and their sequence numbers in queue order, without sharing any. */
  lemma GroupsAreDisjoint(states: seq<State>, steps: seq<Step>, s: nat, i: nat, j: nat)
    requires Run(states, steps) && s < |states| && i < j < |states[s].finished|
    ensures var f, g := states[s].finished[i], states[s].finished[j];
            f.end <= g.from && f.first + f.count <= g.first
  {
    RunKeepsInv(states, steps, s);
    TilesAscend(states[s].finished, states[s].front, states[s].lastSeq, i, j);
  }

  lemma {:induction false} TileOf(finished: seq<Finished>, front: nat, lastSeq: nat, n: nat, w: nat) returns (k: nat)
    requires Tiled(finished, front, lastSeq) && n <= |finished| && w < (if n == 0 then 0 else finished[n - 1].end)
    ensures k < n && finished[k].from <= w < finished[k].end
  {
    if w >= finished[n - 1].from { k := n - 1; } else { k := TileOf(finished, front, lastSeq, n - 1, w); }
  }

  /** Every writer that has returned was in exactly one group, and has that group's status. */
  lemma EveryWriterIsReleasedOnce(states: seq<State>, steps: seq<Step>, s: nat, w: nat) returns (k: nat)
    requires Run(states, steps) && s < |states| && w < states[s].front
    ensures k < |states[s].finished| && states[s].finished[k].from <= w < states[s].finished[k].end
    ensures forall j | 0 <= j < |states[s].finished| :: states[s].finished[j].from <= w < states[s].finished[j].end ==>
              j == k
  {
    RunKeepsInv(states, steps, s);
    var f := states[s].finished;
    k := TileOf(f, states[s].front, states[s].lastSeq, |f|, w);
    forall j | 0 <= j < |f| && f[j].from <= w < f[j].end ensures j == k {
      if j < k { TilesAscend(f, states[s].front, states[s].lastSeq, j, k); }
      if k < j { TilesAscend(f, states[s].front, states[s].lastSeq, k, j); }
    }
  }

  /** What stood somewhere still stands there when more is appended. */
  lemma SliceStays(s: Batch, more: Batch, a: nat, b: nat)
    requires a <= b <= |s|
    ensures (s + more)[a..b] == s[a..b]
  {
  }

  lemma SliceIsAppended(s: Batch, more: Batch)
    ensures (s + more)[|s|..|s| + |more|] == more
  {
  }

  lemma {:induction false} CombinedSplits(ws: seq<Writer>, i: nat, w: nat, j: nat)
    requires i <= w < j <= |ws|
    ensures var a := |Combined(ws, i, w)|;
            a + |Ops(ws[w])| <= |Combined(ws, i, j)| && Combined(ws, i, j)[a..a + |Ops(ws[w])|] == Ops(ws[w])
  {
    hide Ops;
    var before, last := Combined(ws, i, j - 1), Ops(ws[j - 1]);
    if w < j - 1 {
      CombinedSplits(ws, i, w, j - 1);
      SliceStays(before, last, |Combined(ws, i, w)|, |Combined(ws, i, w)| + |Ops(ws[w])|);
    } else {
      SliceIsAppended(before, last);
    }
  }

  /** A writer's operations stand together in its group's batch, so they get consecutive sequence numbers. */
  lemma BatchesStayTogether(states: seq<State>, steps: seq<Step>, s: nat, k: nat, w: nat)
    requires Run(states, steps) && s < |states| && k < |states[s].finished|
    requires states[s].finished[k].from <= w < states[s].finished[k].end && states[s].finished[k].wrote
    ensures var ws, f := states[s].writers, states[s].finished[k];
            f.end <= |ws| && f.count == |Combined(ws, f.from, f.end)| &&
            var a := |Combined(ws, f.from, w)|;
            a + |Ops(ws[w])| <= f.count && Combined(ws, f.from, f.end)[a..a + |Ops(ws[w])|] == Ops(ws[w])
  {
    RunKeepsInv(states, steps, s);
    assert Counted(states[s].writers, states[s].finished[k]);
    CombinedSplits(states[s].writers, states[s].finished[k].from, w, states[s].finished[k].end);
  }

  lemma FinishedOnlyGrows(s: State, s': State, step: Step)
    requires Allowed(s, s', step)
    ensures s.finished <= s'.finished
  {
  }

  lemma {:induction false} FinishedGrows(states: seq<State>, steps: seq<Step>, i: nat, j: nat)
    requires Run(states, steps) && i <= j < |states|
    ensures states[i].finished <= states[j].finished
    decreases j
  {
    if i == j {
    } else {
      FinishedGrows(states, steps, i, j - 1);
      FinishedOnlyGrows(states[j - 1], states[j], steps[j - 1]);
    }
  }

  /** The last sequence number moves by whole groups: whatever it is when somebody looks, no group, and so no batch,
      is ever visible only in part. */
  lemma NobodySeesPartOfAGroup(states: seq<State>, steps: seq<Step>, i: nat, j: nat, k: nat)
    requires Run(states, steps) && i <= j < |states| && k < |states[j].finished|
    ensures var f, seen := states[j].finished[k], states[i].lastSeq; seen < f.first || f.first + f.count <= seen + 1
  {
    RunKeepsInv(states, steps, i);
    RunKeepsInv(states, steps, j);
    FinishedGrows(states, steps, i, j);
    var f, n := states[j].finished, |states[i].finished|;
    assert forall m :: 0 <= m < n ==> states[i].finished[m] == f[m];
    if k > 0 { TilesAscend(f, states[j].front, states[j].lastSeq, 0, k); }
    if n > 0 {
      if k < n - 1 { TilesAscend(f, states[j].front, states[j].lastSeq, k, n - 1); }
      if n - 1 < k { TilesAscend(f, states[j].front, states[j].lastSeq, n - 1, k); }
    }
  }
}
