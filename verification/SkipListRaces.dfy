/** One writer and any number of readers on a skip list, interleaved at every load and store of a pointer
    (db/skiplist.h).  Every load and store is one atomic step. */
module SkipListRaces {
  import opened InternalKeys
  import opened SkipLists

  /** Where the writer stands in Insert: the height may have been raised; below level the node is linked in; staged
      says whether its own pointer on that level has been set. */
  datatype Writer = Idle | Inserting(key: int, height: nat, raised: bool, level: nat, staged: bool, prev: seq<Node>)

  datatype Reader =
    | Searching(target: Target, x: Node, level: nat)
    | Stopped(target: Target, x: Node, found: Option<int>)

  datatype State = State(list: List, writer: Writer, readers: map<nat, Reader>)

  datatype Step =
    | BeginInsert(key: int, height: nat, prev: seq<Node>)
    | RaiseHeight
    | SetOwnPointer
    | SetPrevPointer
    | BeginRead(id: nat, target: Target, height: nat)
    | LoadPointer(id: nat)
    | EndRead(id: nat)

  // ---------------------------------------------------------------- steps

  /** The writer's search for the places to link at.  Nobody else writes, so it is as good as one step. */
  ghost predicate PrevFound(l: List, key: int, height: nat, prev: seq<Node>) {
    |prev| == height && |l.on| == MAX_HEIGHT && height <= MAX_HEIGHT &&
    forall i :: 0 <= i < height ==> if i < l.maxHeight then IsPrev(l.on[i], prev[i], key) else prev[i] == None
  }

  ghost predicate WriterStep(s: State, s': State, step: Step) {
    s'.readers == s.readers && |s.list.on| == MAX_HEIGHT &&
    match step
    case BeginInsert(key, height, prev) =>
      s.writer.Idle? && key !in Keys(s.list) && 1 <= height <= MAX_HEIGHT && PrevFound(s.list, key, height, prev) &&
      s'.list == s.list && s'.writer == Inserting(key, height, false, 0, false, prev)
    case RaiseHeight =>
      s.writer.Inserting? && !s.writer.raised && s'.writer == s.writer.(raised := true) &&
      s'.list == if s.writer.height > s.list.maxHeight then s.list.(maxHeight := s.writer.height) else s.list
    case SetOwnPointer =>
      s.writer.Inserting? && s.writer.raised && !s.writer.staged && s.writer.level < |s.writer.prev| &&
      (s.writer.prev[s.writer.level], s.writer.level) in s.list.next &&
      s'.list == Staged(s.list, s.writer.level, s.writer.prev[s.writer.level], s.writer.key) &&
      s'.writer == s.writer.(staged := true)
    case SetPrevPointer =>
      s.writer.Inserting? && s.writer.staged && s.writer.level < |s.writer.prev| && s.writer.level < MAX_HEIGHT &&
      s'.list == Published(s.list, s.writer.level, s.writer.prev[s.writer.level], s.writer.key) &&
      s'.writer == if s.writer.level + 1 == s.writer.height then Idle
                   else s.writer.(level := s.writer.level + 1, staged := false)
    case _ => false
  }

  /** One load of a next pointer, and what the search makes of it. */
  function AfterLoad(l: List, r: Reader): Reader
    requires r.Searching? && (r.x, r.level) in l.next
  {
    var next := l.next[(r.x, r.level)];
    if GoesOn(r.target, next) then Searching(r.target, next, r.level)
    else if r.level > 0 then Searching(r.target, r.x, r.level - 1)
    else Stopped(r.target, r.x, next)
  }

  /** A reader may see any height the list has ever had. */
  ghost predicate ReaderStep(s: State, s': State, step: Step) {
    s'.list == s.list && s'.writer == s.writer &&
    match step
    case BeginRead(id, target, height) =>
      id !in s.readers && 1 <= height <= s.list.maxHeight &&
      s'.readers == s.readers[id := Searching(target, None, height - 1)]
    case LoadPointer(id) =>
      id in s.readers && s.readers[id].Searching? && (s.readers[id].x, s.readers[id].level) in s.list.next &&
      s'.readers == s.readers[id := AfterLoad(s.list, s.readers[id])]
    case EndRead(id) =>
      id in s.readers && s.readers[id].Stopped? && s'.readers == s.readers - {id}
    case _ => false
  }

  ghost predicate Allowed(s: State, s': State, step: Step) { WriterStep(s, s', step) || ReaderStep(s, s', step) }

  ghost predicate Run(states: seq<State>, steps: seq<Step>) {
    |states| == |steps| + 1 && states[0] == State(Empty(), Idle, map[]) &&
    forall i :: 0 <= i < |steps| ==> Allowed(states[i], states[i + 1], steps[i])
  }

  // ---------------------------------------------------------------- the invariant

  /** What the writer has found and done still holds: nobody else writes. */
  ghost predicate WriterOk(l: List, w: Writer) {
    w.Inserting? ==>
      |l.on| == MAX_HEIGHT && w.level < w.height <= MAX_HEIGHT && |w.prev| == w.height &&
      (w.raised ==> w.height <= l.maxHeight) && (!w.raised ==> w.level == 0 && !w.staged) &&
      (forall i :: w.level <= i < w.height ==> IsPrev(l.on[i], w.prev[i], w.key)) &&
      (forall i :: 0 <= i < MAX_HEIGHT ==> (w.key in l.on[i] <==> i < w.level)) &&
      (w.staged ==> StagedAt(l, w.level, w.prev[w.level], w.key))
  }

  ghost predicate ReadersOk(l: List, readers: map<nat, Reader>) {
    forall id :: id in readers && readers[id].Searching? ==> ReaderOk(l, readers[id])
  }

  ghost predicate ReaderOk(l: List, r: Reader)
    requires r.Searching?
  {
    SearchOk(l, r.target, r.x, r.level)
  }

  ghost predicate Inv(s: State) { Ok(s.list) && WriterOk(s.list, s.writer) && ReadersOk(s.list, s.readers) }

  /** Nothing is ever unlinked. */
  ghost predicate Grows(l: List, m: List) {
    |l.on| == |m.on| == MAX_HEIGHT && forall i :: 0 <= i < MAX_HEIGHT ==> l.on[i] <= m.on[i]
  }

  lemma GrowingKeepsReaders(l: List, m: List, readers: map<nat, Reader>)
    requires ReadersOk(l, readers) && Grows(l, m)
    ensures ReadersOk(m, readers)
  {
    forall id | id in readers && readers[id].Searching? ensures ReaderOk(m, readers[id]) {
      assert ReaderOk(l, readers[id]);
      assert readers[id].level < MAX_HEIGHT ==> l.on[readers[id].level] <= m.on[readers[id].level];
    }
  }

  lemma BeginInsertKeepsInv(s: State, s': State, key: int, height: nat, prev: seq<Node>)
    requires Inv(s) && WriterStep(s, s', BeginInsert(key, height, prev))
    ensures Inv(s') && Grows(s.list, s'.list)
  {
    KeyIsNowhere(s.list, key);
    forall i | 0 <= i < height ensures IsPrev(s.list.on[i], prev[i], key) {
      if i >= s.list.maxHeight { NothingAbove(s.list, key, i); }
    }
  }

  lemma RaiseKeepsInv(s: State, s': State)
    requires Inv(s) && WriterStep(s, s', RaiseHeight)
    ensures Inv(s') && Grows(s.list, s'.list)
  {
    if s.writer.height > s.list.maxHeight { RaisingKeepsOk(s.list, s.writer.height); }
    GrowingKeepsReaders(s.list, s'.list, s.readers);
  }

  lemma StageKeepsInv(s: State, s': State)
    requires Inv(s) && WriterStep(s, s', SetOwnPointer)
    ensures Inv(s') && Grows(s.list, s'.list)
  {
    var w := s.writer;
    StagingIsInvisible(s.list, w.level, w.prev[w.level], w.key);
    GrowingKeepsReaders(s.list, s'.list, s.readers);
  }

  lemma PublishKeepsInv(s: State, s': State)
    requires Inv(s) && WriterStep(s, s', SetPrevPointer)
    ensures Inv(s') && Grows(s.list, s'.list)
  {
    var w := s.writer;
    PublishingKeepsOk(s.list, w.level, w.prev[w.level], w.key);
    GrowingKeepsReaders(s.list, s'.list, s.readers);
  }

  lemma ReadKeepsInv(s: State, s': State, step: Step)
    requires Inv(s) && ReaderStep(s, s', step)
    ensures Inv(s') && Grows(s.list, s'.list)
  {
    match step
    case BeginRead(id, target, height) =>
      assert ReaderOk(s.list, Searching(target, None, height - 1));
    case LoadPointer(id) =>
      assert ReaderOk(s.list, s.readers[id]);
      SearchStep(s.list, s.readers[id].target, s.readers[id].x, s.readers[id].level);
    case EndRead(id) =>
  }

  lemma StepKeepsInv(s: State, s': State, step: Step)
    requires Inv(s) && Allowed(s, s', step)
    ensures Inv(s') && Grows(s.list, s'.list)
  {
    hide Inv, ReaderStep, Grows;
    if ReaderStep(s, s', step) {
      ReadKeepsInv(s, s', step);
    } else {
      match step
      case BeginInsert(key, height, prev) => BeginInsertKeepsInv(s, s', key, height, prev);
      case RaiseHeight => RaiseKeepsInv(s, s');
      case SetOwnPointer => StageKeepsInv(s, s');
      case SetPrevPointer => PublishKeepsInv(s, s');
      case _ =>
    }
  }

  // ---------------------------------------------------------------- whole runs

  /** In every state of every interleaving all levels are sorted and nested, and every reader stands on a node that
      is linked into the level it searches. */
  lemma {:induction false} RunKeepsInv(states: seq<State>, steps: seq<Step>, i: nat)
    requires Run(states, steps) && i < |states|
    ensures Inv(states[i])
  {
    if i == 0 {
      EmptyOk();
    } else {
      RunKeepsInv(states, steps, i - 1);
      StepKeepsInv(states[i - 1], states[i], steps[i - 1]);
    }
  }

  lemma {:induction false} RunGrows(states: seq<State>, steps: seq<Step>, i: nat, j: nat)
    requires Run(states, steps) && i <= j < |states|
    ensures Grows(states[i].list, states[j].list)
    decreases j
  {
    RunKeepsInv(states, steps, i);
    if i == j {
    } else {
      RunGrows(states, steps, i, j - 1);
      RunKeepsInv(states, steps, j - 1);
      StepKeepsInv(states[j - 1], states[j], steps[j - 1]);
    }
  }

  /** A reader that stops has found exactly what a search of the whole list would find at that moment, although it
      took many loads to get there and the list changed in between: its last load is its linearization point. */
  lemma SearchIsExact(states: seq<State>, steps: seq<Step>, i: nat, id: nat)
    requires Run(states, steps) && i < |steps| && steps[i] == LoadPointer(id)
    requires id in states[i + 1].readers && states[i + 1].readers[id].Stopped?
    ensures |states[i].list.on| == |states[i + 1].list.on| == MAX_HEIGHT
    ensures var r := states[i + 1].readers[id];
            Found(Keys(states[i].list), r.target, r.x, r.found) && Keys(states[i + 1].list) == Keys(states[i].list)
  {
    RunKeepsInv(states, steps, i);
    var s := states[i];
    assert Allowed(s, states[i + 1], steps[i]);
    assert ReaderOk(s.list, s.readers[id]);
    SearchStep(s.list, s.readers[id].target, s.readers[id].x, s.readers[id].level);
  }

  /** A read for a key finds it if it was in the list when the read began, and what it finds is in the list. */
  lemma ReadsFindInsertedKeys(states: seq<State>, steps: seq<Step>, b: nat, e: nat, id: nat, k: int, height: nat)
    requires Run(states, steps) && b <= e < |steps|
    requires steps[b] == BeginRead(id, AtOrAfter(k), height) && steps[e] == LoadPointer(id)
    requires id in states[e + 1].readers && states[e + 1].readers[id].Stopped? &&
             states[e + 1].readers[id].target == AtOrAfter(k)
    ensures |states[b].list.on| == |states[e].list.on| == MAX_HEIGHT
    ensures k in Keys(states[b].list) ==> states[e + 1].readers[id].found == Some(k)
    ensures states[e + 1].readers[id].found.Some? ==> states[e + 1].readers[id].found.value in Keys(states[e].list)
  {
    SearchIsExact(states, steps, e, id);
    RunGrows(states, steps, b, e);
    assert Keys(states[b].list) <= Keys(states[e].list);
  }

  /** Each load takes a search closer to its end, as long as nothing is inserted ahead of it. */
  lemma LoadIsProgress(l: List, r: Reader)
    requires Ok(l) && r.Searching? && ReaderOk(l, r)
    ensures (r.x, r.level) in l.next
    ensures var r' := AfterLoad(l, r);
            r'.Stopped? || |Ahead(Keys(l), r'.x)| < |Ahead(Keys(l), r.x)| || (r'.x == r.x && r'.level < r.level)
  {
    SearchStep(l, r.target, r.x, r.level);
    if GoesOn(r.target, l.next[(r.x, r.level)]) { GoingOnIsProgress(l, r.target, r.x, r.level); }
  }
}
