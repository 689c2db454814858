/** The threads behind the queue of writers (db/db_impl.cc Write): each waits on a condition variable of its own until
    another thread has finished its write or it has come to the front, and the leader pops and wakes one writer at a
    time.  The commits themselves are those of GroupCommit. */
module WriterQueue {
  import opened GroupCommit
  import opened InternalKeys

  /** Where a call of Write is: about to look at its waiting condition, blocked on its condition variable, at work for
      its group, or back in its caller. */
  datatype Pc = Awake | Asleep | Leading | Returned

  /** One call of Write.  done and ok are set by the leader of its group, and ok is also what the call returns. */
  datatype Thread = Thread(pc: Pc, done: bool, ok: bool)

  /** The calls in the order in which they queued, the queue itself as their numbers, and whether the leader holds the
      lock in its last loop. */
  datatype Threads = Threads(commit: GroupCommit.State, threads: seq<Thread>, queue: seq<nat>, locked: bool)

  datatype Move =
    | Join(w: Writer)
    | Look(i: nat)
    | WakeForNothing(i: nat)
    | Work(step: GroupCommit.Step)
    | Pop

  function Start(): Threads { Threads(GroupCommit.Init(), [], [], false) }

  /** A signal to a thread that is not blocked is lost. */
  function Signalled(t: Thread): Thread { if t.pc.Asleep? then t.(pc := Awake) else t }

  /** What a thread finds when it holds the lock and looks at its condition. */
  function Looked(t: Thread, atFront: bool): Thread {
    t.(pc := if t.done then Returned else if atFront then Leading else Asleep)
  }

  /** The popped writer, unless it is the leader itself, learns the status of its group and is woken. */
  function Released(threads: seq<Thread>, ready: nat, leader: nat, ok: bool): (r: seq<Thread>)
    requires ready < |threads|
    ensures |r| == |threads|
  {
    if ready == leader then threads else threads[ready := Signalled(threads[ready]).(done := true, ok := ok)]
  }

  /** After the last pop the leader wakes the new front and returns. */
  function Left(threads: seq<Thread>, queue: seq<nat>, leader: nat, ok: bool): (r: seq<Thread>)
    requires leader < |threads| && (|queue| > 0 ==> queue[0] < |threads|)
    ensures |r| == |threads|
  {
    var woken := if |queue| == 0 then threads else threads[queue[0] := Signalled(threads[queue[0]])];
    woken[leader := woken[leader].(pc := Returned, ok := ok)]
  }

  /** The leader works without the lock in between, so others join, look and go to sleep meanwhile; but it pops its
      whole group in one go.  A blocked thread may also wake without a signal. */
  ghost predicate Moves(s: Threads, s': Threads, move: Move) {
    match move
    case Join(w) =>
      !s.locked && Allowed(s.commit, s'.commit, Submit(w)) &&
      s' == Threads(s'.commit, s.threads + [Thread(Awake, false, false)], s.queue + [|s.threads|], false)
    case Look(i) =>
      !s.locked && i < |s.threads| && s.threads[i].pc.Awake? &&
      s' == s.(threads := s.threads[i := Looked(s.threads[i], |s.queue| > 0 && s.queue[0] == i)])
    case WakeForNothing(i) =>
      i < |s.threads| && s.threads[i].pc.Asleep? && s' == s.(threads := s.threads[i := s.threads[i].(pc := Awake)])
    case Work(step) =>
      !step.Submit? && !step.Finish? && !s.locked && |s.queue| > 0 && s.queue[0] < |s.threads| &&
      s.threads[s.queue[0]].pc.Leading? && Allowed(s.commit, s'.commit, step) && s' == s.(commit := s'.commit)
    case Pop =>
      Working(s.commit, Inserted) && |s.queue| > 0 && s.queue[0] < |s.threads| && s.commit.front < |s.threads| &&
      s.threads[s.commit.front].pc.Leading? &&
      var g, leader, rest := s.commit.group.value, s.commit.front, s.queue[1..];
      var threads := Released(s.threads, s.queue[0], leader, g.ok);
      if s.queue[0] == g.end - 1 then
        (|rest| > 0 ==> rest[0] < |threads|) && Allowed(s.commit, s'.commit, Finish) &&
        s' == Threads(s'.commit, Left(threads, rest, leader, g.ok), rest, false)
      else s' == Threads(s.commit, threads, rest, true)
  }

  ghost predicate IsRun(states: seq<Threads>, moves: seq<Move>) {
    |states| == |moves| + 1 && states[0] == Start() &&
    forall i :: 0 <= i < |moves| ==> Moves(states[i], states[i + 1], moves[i])
  }

  // ---------------------------------------------------------------- the invariant

  /** How many writers have been popped. */
  function Popped(s: Threads): int { |s.threads| - |s.queue| }

  /** The queue holds the writers that have not been popped; the lock is held only between two pops of a group. */
  ghost predicate QueueOk(s: Threads) {
    |s.threads| == |s.commit.writers| && |s.queue| <= |s.threads| &&
    (forall k :: 0 <= k < |s.queue| ==> s.queue[k] == Popped(s) + k) &&
    if s.locked then Working(s.commit, Inserted) && s.commit.front < Popped(s) < s.commit.group.value.end
    else Popped(s) == s.commit.front
  }

  /** Only the writer at the front leads, from before it chooses a group until it returns. */
  ghost predicate LeaderOk(s: Threads) {
    (forall i :: 0 <= i < |s.threads| && s.threads[i].pc.Leading? ==> i == s.commit.front && !s.threads[i].done) &&
    (s.commit.group.Some? ==> s.commit.front < |s.threads| && s.threads[s.commit.front].pc.Leading?)
  }

  /** Writer i has been told, or has returned, exactly when it has been popped; the leader tells itself last, and
      nobody returns before it. */
  ghost predicate ToldOk(s: Threads) {
    forall i :: 0 <= i < |s.threads| ==>
      ((s.threads[i].done || s.threads[i].pc.Returned?) <==> (i < Popped(s) && i != s.commit.front)) &&
      (s.threads[i].pc.Returned? ==> i < s.commit.front)
  }

  /** Nobody sleeps who should not: a sleeper has not been told, and unless the leader is just popping its group it is
      not at the front. */
  ghost predicate SleepersOk(s: Threads) {
    forall i :: 0 <= i < |s.threads| && s.threads[i].pc.Asleep? ==>
      i >= Popped(s) && (!s.locked ==> i > s.commit.front)
  }

  /** Every popped writer has the status of its group. */
  ghost predicate AnswersOk(s: Threads) {
    (forall k, i ::
       (0 <= k < |s.commit.finished| && 0 <= i < |s.threads| &&
        s.commit.finished[k].from <= i < s.commit.finished[k].end) ==>
         s.threads[i].ok == s.commit.finished[k].ok) &&
    (s.commit.group.Some? ==>
       forall i :: s.commit.front < i < Popped(s) && i < |s.threads| ==> s.threads[i].ok == s.commit.group.value.ok)
  }

  ghost predicate ThreadsOk(s: Threads) {
    Inv(s.commit) && QueueOk(s) && LeaderOk(s) && ToldOk(s) && SleepersOk(s) && AnswersOk(s)
  }

  /** Everything about the threads but the answers. */
  ghost predicate ShapeOk(s: Threads) { QueueOk(s) && LeaderOk(s) && ToldOk(s) && SleepersOk(s) }

  lemma FinishedAreBehind(c: GroupCommit.State)
    requires Inv(c)
    ensures forall k :: 0 <= k < |c.finished| ==> c.finished[k].end <= c.front
  {
    forall k | 0 <= k < |c.finished| ensures c.finished[k].end <= c.front {
      if k < |c.finished| - 1 { TilesAscend(c.finished, c.front, c.lastSeq, k, |c.finished| - 1); }
    }
  }

  lemma JoinKeepsOk(s: Threads, s': Threads, w: Writer)
    requires ThreadsOk(s) && Moves(s, s', Join(w))
    ensures ThreadsOk(s')
  {
    hide Inv;
    StepKeepsInv(s.commit, s'.commit, Submit(w));
    FinishedAreBehind(s.commit);
  }

  lemma LookKeepsOk(s: Threads, s': Threads, i: nat)
    requires ThreadsOk(s) && Moves(s, s', Look(i))
    ensures ThreadsOk(s')
  {
    hide Inv;
  }

  lemma WakeKeepsOk(s: Threads, s': Threads, i: nat)
    requires ThreadsOk(s) && Moves(s, s', WakeForNothing(i))
    ensures ThreadsOk(s')
  {
    hide Inv;
  }

  lemma WorkKeepsOk(s: Threads, s': Threads, step: GroupCommit.Step)
    requires ThreadsOk(s) && Moves(s, s', Work(step))
    ensures ThreadsOk(s')
  {
    hide Inv;
    StepKeepsInv(s.commit, s'.commit, step);
    assert s'.commit.finished == s.commit.finished && s'.commit.front == s.commit.front &&
           s'.commit.writers == s.commit.writers && s'.commit.group.Some? by { hide Blocked; }
    assert s.queue[0] == s.commit.front;
  }

  lemma PopKeepsShape(s: Threads, s': Threads)
    requires ShapeOk(s) && Moves(s, s', Pop)
    ensures ShapeOk(s')
  {
    hide Combined;
    assert s.queue[0] == Popped(s);
    assert forall k :: 0 <= k < |s'.queue| ==> s'.queue[k] == s.queue[k + 1];
  }

  lemma PopKeepsAnswers(s: Threads, s': Threads)
    requires ThreadsOk(s) && Moves(s, s', Pop)
    ensures AnswersOk(s')
  {
    hide Inv, Combined, LeaderOk, ToldOk, SleepersOk;
    FinishedAreBehind(s.commit);
    assert s.queue[0] == Popped(s);
  }

  lemma PopKeepsOk(s: Threads, s': Threads)
    requires ThreadsOk(s) && Moves(s, s', Pop)
    ensures ThreadsOk(s')
  {
    hide Inv, QueueOk, LeaderOk, ToldOk, SleepersOk, AnswersOk;
    PopKeepsShape(s, s');
    PopKeepsAnswers(s, s');
    if s.queue[0] == s.commit.group.value.end - 1 { StepKeepsInv(s.commit, s'.commit, Finish); }
  }

  lemma {:induction false} EveryStateIsOk(states: seq<Threads>, moves: seq<Move>, i: nat)
    requires IsRun(states, moves) && i < |states|
    ensures ThreadsOk(states[i])
  {
    if i == 0 {
    } else {
      hide ThreadsOk, Moves;
      EveryStateIsOk(states, moves, i - 1);
      var s, s' := states[i - 1], states[i];
      match moves[i - 1]
      case Join(w) => JoinKeepsOk(s, s', w);
      case Look(t) => LookKeepsOk(s, s', t);
      case WakeForNothing(t) => WakeKeepsOk(s, s', t);
      case Work(step) => WorkKeepsOk(s, s', step);
      case Pop => PopKeepsOk(s, s');
    }
  }

  // ---------------------------------------------------------------- whole runs

  /** A call of Write returns the status of the one group that its writer was in. */
  lemma EveryCallIsAnswered(states: seq<Threads>, moves: seq<Move>, i: nat, w: nat) returns (k: nat)
    requires IsRun(states, moves) && i < |states| && w < |states[i].threads|
    requires states[i].threads[w].pc.Returned?
    ensures var c := states[i].commit;
            k < |c.finished| && c.finished[k].from <= w < c.finished[k].end &&
            states[i].threads[w].ok == c.finished[k].ok
  {
    EveryStateIsOk(states, moves, i);
    var c := states[i].commit;
    assert w < c.front by { hide Inv; }
    k := TileOf(c.finished, c.front, c.lastSeq, |c.finished|, w);
  }

  /** No wake-up is lost: when nobody is in the middle of popping a group, whoever is blocked is neither told nor at the
      front, so somebody will still pop or signal it. */
  lemma NobodySleepsOn(states: seq<Threads>, moves: seq<Move>, i: nat, w: nat)
    requires IsRun(states, moves) && i < |states| && w < |states[i].threads| && states[i].threads[w].pc.Asleep?
    ensures !states[i].threads[w].done && w in states[i].queue
    ensures !states[i].locked ==> states[i].queue[0] != w
  {
    EveryStateIsOk(states, moves, i);
    hide Inv;
    assert states[i].queue[w - Popped(states[i])] == w;
  }

  function Weight(t: Thread): nat { if t.pc.Awake? then 2 else if t.pc.Returned? then 0 else 1 }

  function Weights(threads: seq<Thread>): nat {
    if |threads| == 0 then 0 else Weights(threads[..|threads| - 1]) + Weight(threads[|threads| - 1])
  }

  lemma {:induction false} WeightsChange(threads: seq<Thread>, i: nat, t: Thread)
    requires i < |threads|
    ensures Weights(threads[i := t]) == Weights(threads) - Weight(threads[i]) + Weight(t)
  {
    var n := |threads| - 1;
    if i == n {
      assert threads[i := t][..n] == threads[..n];
    } else {
      assert threads[i := t][..n] == threads[..n][i := t];
      WeightsChange(threads[..n], i, t);
    }
  }

  function Rank(c: GroupCommit.State): nat {
    if c.group.None? then 4 else match c.group.value.phase case Chosen => 3 case Logged => 2 case Inserted => 1
  }

  /** An upper bound of the moves that are left to the writers that are there. */
  function Effort(s: Threads): nat { 6 * |s.queue| + Rank(s.commit) + Weights(s.threads) }

  predicate Spontaneous(move: Move) { move.Join? || move.WakeForNothing? }

  lemma PopIsProgress(s: Threads, s': Threads)
    requires ThreadsOk(s) && Moves(s, s', Pop)
    ensures Effort(s') < Effort(s)
  {
    hide Inv, Weights, Combined;
    var g, leader, rest := s.commit.group.value, s.commit.front, s.queue[1..];
    var ready := s.queue[0];
    var t1 := Released(s.threads, ready, leader, g.ok);
    if ready != leader {
      WeightsChange(s.threads, ready, Signalled(s.threads[ready]).(done := true, ok := g.ok));
    }
    if ready == g.end - 1 {
      assert t1[leader].pc.Leading?;
      var t2 := if |rest| == 0 then t1 else t1[rest[0] := Signalled(t1[rest[0]])];
      if |rest| > 0 { WeightsChange(t1, rest[0], Signalled(t1[rest[0]])); }
      WeightsChange(t2, leader, t2[leader].(pc := Returned, ok := g.ok));
    }
  }

  /** Every move of a thread but an arrival and a wake-up without a signal is a step towards the end. */
  lemma EveryMoveIsProgress(s: Threads, s': Threads, move: Move)
    requires ThreadsOk(s) && Moves(s, s', move) && !Spontaneous(move)
    ensures Effort(s') < Effort(s)
  {
    match move
    case Look(i) =>
      hide Inv;
      WeightsChange(s.threads, i, Looked(s.threads[i], |s.queue| > 0 && s.queue[0] == i));
    case Work(step) =>
      hide Inv, Weights, Blocked, Combined;
    case Pop =>
      hide ThreadsOk, Moves, Effort;
      PopIsProgress(s, s');
  }

  /** Unless others arrive, the writers are through after a bounded number of moves, whoever moves when. */
  lemma {:induction false} TheQueueDrains(states: seq<Threads>, moves: seq<Move>, i: nat, j: nat)
    requires IsRun(states, moves) && i <= j < |states|
    requires forall k :: i <= k < j ==> !Spontaneous(moves[k])
    ensures j - i + Effort(states[j]) <= Effort(states[i])
    decreases j
  {
    if i == j {
    } else {
      hide Effort, Moves, ThreadsOk;
      TheQueueDrains(states, moves, i, j - 1);
      EveryStateIsOk(states, moves, j - 1);
      EveryMoveIsProgress(states[j - 1], states[j], moves[j - 1]);
    }
  }

  lemma GroupEnd(ws: seq<Writer>, i: nat, j: nat) returns (end: nat)
    requires i < j <= |ws| && forall k :: i < k < j ==> !Blocked(ws, i, k)
    ensures IsGroup(ws, i, end)
    decreases |ws| - j
  {
    if j == |ws| || Blocked(ws, i, j) { end := j; } else { end := GroupEnd(ws, i, j + 1); }
  }

  /** With nobody about to look at its condition, a writer that is left means that the front is at work. */
  lemma FrontIsLeading(s: Threads, w: nat)
    requires ThreadsOk(s) && !s.locked && w < |s.threads| && !s.threads[w].pc.Returned?
    requires forall i :: 0 <= i < |s.threads| ==> !s.threads[i].pc.Awake?
    ensures |s.queue| > 0 && s.queue[0] == s.commit.front < |s.threads| && s.threads[s.queue[0]].pc.Leading?
  {
    hide Inv;
    assert w >= s.commit.front;
  }

  lemma LeaderCanMove(s: Threads) returns (s': Threads, move: Move)
    requires ThreadsOk(s) && (if s.locked then true
      else |s.queue| > 0 && s.queue[0] == s.commit.front < |s.threads| && s.threads[s.queue[0]].pc.Leading?)
    ensures Moves(s, s', move) && !Spontaneous(move)
  {
    hide Combined, Blocked, Tiled, Counted, Logs, Commits;
    var c := s.commit;
    if c.group.None? {
      var end := GroupEnd(c.writers, c.front, c.front + 1);
      var g := if c.writers[c.front].batch.Some? then Group(end, true, Chosen, false, true)
               else Group(c.front + 1, false, Inserted, false, true);
      s', move := s.(commit := c.(group := Some(g))), Work(Lead(true));
    } else if c.group.value.phase.Chosen? {
      var g := c.group.value.(phase := Logged, logged := true, ok := true);
      s', move := s.(commit := c.(group := Some(g), log := c.log + [GroupRecord(c)])), Work(AppendToLog(true, true));
    } else if c.group.value.phase.Logged? {
      var mem := if c.group.value.ok then c.mem + [GroupRecord(c)] else c.mem;
      var g := c.group.value.(phase := Inserted);
      s', move := s.(commit := c.(group := Some(g), mem := mem)), Work(InsertIntoMemtable);
    } else {
      s', move := AfterPop(s), Pop;
    }
  }

  /** The state that a pop leads to. */
  ghost function AfterPop(s: Threads): Threads
    requires Working(s.commit, Inserted) && |s.queue| > 0 && s.queue[0] < |s.threads| && s.commit.front < |s.threads|
    requires |s.queue| > 1 ==> s.queue[1] < |s.threads|
  {
    var c, g, leader, rest := s.commit, s.commit.group.value, s.commit.front, s.queue[1..];
    var threads := Released(s.threads, s.queue[0], leader, g.ok);
    if s.queue[0] == g.end - 1 then
      var done := c.(front := g.end, group := None, lastSeq := c.lastSeq + Ended(c).count,
                     finished := c.finished + [Ended(c)]);
      Threads(done, Left(threads, rest, leader, g.ok), rest, false)
    else Threads(c, threads, rest, true)
  }

  /** The protocol never gets stuck: as long as a call has not returned, some thread can make a step of its own.  So
      with TheQueueDrains every call returns. */
  lemma SomebodyCanMove(states: seq<Threads>, moves: seq<Move>, i: nat, w: nat) returns (s': Threads, move: Move)
    requires IsRun(states, moves) && i < |states| && w < |states[i].threads| && !states[i].threads[w].pc.Returned?
    ensures Moves(states[i], s', move) && !Spontaneous(move)
  {
    EveryStateIsOk(states, moves, i);
    var s := states[i];
    hide ThreadsOk;
    if s.locked {
      s', move := LeaderCanMove(s);
    } else if t: nat :| t < |s.threads| && s.threads[t].pc.Awake? {
      move := Look(t);
      s' := s.(threads := s.threads[t := Looked(s.threads[t], |s.queue| > 0 && s.queue[0] == t)]);
    } else {
      FrontIsLeading(s, w);
      s', move := LeaderCanMove(s);
    }
  }
}
