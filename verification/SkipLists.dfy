/** The skip list (db/skiplist.h): pointers, searches and insertion. */
module SkipLists {
  import opened InternalKeys

  const MAX_HEIGHT: nat := 12

  /** A node, known by its key; None is the head, which comes before every key. */
  type Node = Option<int>

  /** The next pointers by node and level, null being None; memory that nobody has set yet is not in the map.  What
      the proofs remember besides is which keys have been linked into which level. */
  datatype List = List(next: map<(Node, nat), Option<int>>, maxHeight: nat, on: seq<set<int>>)

  predicate Less(n: Node, k: int) { n.None? || n.value < k }

  // ---------------------------------------------------------------- the invariant

  /** r is the first key of s behind n, if there is one. */
  ghost predicate IsNext(s: set<int>, n: Node, r: Option<int>) {
    if r.None? then forall k :: k in s ==> !Less(n, k)
    else r.value in s && Less(n, r.value) && forall k :: k in s && Less(n, k) ==> r.value <= k
  }

  /** n is the last node of s before k; the head if there is none. */
  ghost predicate IsPrev(s: set<int>, n: Node, k: int) {
    (n.Some? ==> n.value in s) && Less(n, k) && forall j :: j in s && j < k ==> !Less(n, j)
  }

  predicate OnLevel(l: List, i: nat, n: Node)
    requires i < |l.on|
  {
    n.None? || n.value in l.on[i]
  }

  /** Every pointer on level i leads to the next key linked into that level: the level is sorted. */
  ghost predicate LevelOk(l: List, i: nat)
    requires i < |l.on|
  {
    forall n: Node :: OnLevel(l, i, n) ==> (n, i) in l.next && IsNext(l.on[i], n, l.next[(n, i)])
  }

  /** All levels are sorted, each is a part of the one below, and those above the height are empty. */
  ghost predicate Ok(l: List) {
    |l.on| == MAX_HEIGHT && 1 <= l.maxHeight <= MAX_HEIGHT && (forall i :: 0 <= i < MAX_HEIGHT ==> LevelOk(l, i)) &&
    (forall i, j :: 0 <= i <= j < MAX_HEIGHT ==> l.on[j] <= l.on[i]) &&
    (forall i :: l.maxHeight <= i < MAX_HEIGHT ==> l.on[i] == {})
  }

  /** The keys in the list. */
  function Keys(l: List): set<int>
    requires |l.on| > 0
  {
    l.on[0]
  }

  function Empty(): List {
    List(map i | 0 <= i < MAX_HEIGHT :: (None, i) := None, 1, seq(MAX_HEIGHT, _ => {}))
  }

  lemma EmptyOk()
    ensures Ok(Empty()) && Keys(Empty()) == {}
  {
  }

  // ---------------------------------------------------------------- one search step

  /** What a search is for: the first key not before k, the last before k, or the last of all. */
  datatype Target = AtOrAfter(k: int) | Before(k: int) | Last

  /** The search goes on to this node on the level it is on. */
  predicate GoesOn(t: Target, next: Option<int>) { next.Some? && (t.Last? || next.value < t.k) }

  /** Every node a search stands on has been linked into the level it searches, and lies before what it looks for. */
  ghost predicate SearchOk(l: List, t: Target, x: Node, level: nat) {
    |l.on| == MAX_HEIGHT && level < MAX_HEIGHT && OnLevel(l, level, x) && (x.None? || GoesOn(t, x))
  }

  /** What the search has found when it stops on level 0 at x with this next pointer. */
  ghost predicate Found(keys: set<int>, t: Target, x: Node, next: Option<int>) {
    match t
    case AtOrAfter(k) =>
      if next.None? then forall j :: j in keys ==> j < k
      else next.value in keys && k <= next.value && forall j :: j in keys && k <= j ==> next.value <= j
    case Before(k) => IsPrev(keys, x, k)
    case Last =>
      if x.None? then (forall j :: j !in keys) else x.value in keys && forall j :: j in keys ==> j <= x.value
  }

  /** One load of a next pointer keeps the search on track. */
  lemma SearchStep(l: List, t: Target, x: Node, level: nat)
    requires Ok(l) && SearchOk(l, t, x, level)
    ensures (x, level) in l.next
    ensures GoesOn(t, l.next[(x, level)]) ==> SearchOk(l, t, l.next[(x, level)], level)
    ensures !GoesOn(t, l.next[(x, level)]) && level > 0 ==> SearchOk(l, t, x, level - 1)
    ensures !GoesOn(t, l.next[(x, level)]) && level == 0 ==> Found(Keys(l), t, x, l.next[(x, level)])
  {
    assert LevelOk(l, level);
    if level > 0 { assert l.on[level] <= l.on[level - 1]; }
  }

  // ---------------------------------------------------------------- one link

  /** x->NoBarrier_SetNext(i, prev[i]->NoBarrier_Next(i)): nobody can reach this pointer yet. */
  function Staged(l: List, level: nat, prev: Node, key: int): List
    requires (prev, level) in l.next
  {
    l.(next := l.next[(Some(key), level) := l.next[(prev, level)]])
  }

  /** prev[i]->SetNext(i, x): from now on every search on this level passes the node. */
  function Published(l: List, level: nat, prev: Node, key: int): List
    requires |l.on| == MAX_HEIGHT && level < MAX_HEIGHT
  {
    l.(next := l.next[(prev, level) := Some(key)], on := l.on[level := l.on[level] + {key}])
  }

  lemma StagingIsInvisible(l: List, level: nat, prev: Node, key: int)
    requires Ok(l) && level < MAX_HEIGHT && (prev, level) in l.next && key !in l.on[level]
    ensures Ok(Staged(l, level, prev, key))
  {
    var m := Staged(l, level, prev, key);
    forall i | 0 <= i < MAX_HEIGHT ensures LevelOk(m, i) {
      assert LevelOk(l, i);
      assert forall n: Node :: OnLevel(m, i, n) <==> OnLevel(l, i, n);
    }
  }

  /** The node's own pointer on the level has been set to what follows prev there. */
  ghost predicate StagedAt(l: List, level: nat, prev: Node, key: int)
    requires level < |l.on|
  {
    (prev, level) in l.next && (Some(key), level) in l.next && IsPrev(l.on[level], prev, key) && key !in l.on[level] &&
    l.next[(Some(key), level)] == l.next[(prev, level)]
  }

  lemma PublishingKeepsOk(l: List, level: nat, prev: Node, key: int)
    requires Ok(l) && level < l.maxHeight && StagedAt(l, level, prev, key)
    requires forall j :: 0 <= j < level ==> key in l.on[j]
    ensures Ok(Published(l, level, prev, key))
  {
    var m := Published(l, level, prev, key);
    forall i | 0 <= i < MAX_HEIGHT ensures LevelOk(m, i) {
      assert LevelOk(l, i);
      if i == level { PublishedLevelOk(l, level, prev, key); }
    }
    forall i, j | 0 <= i <= j < MAX_HEIGHT ensures m.on[j] <= m.on[i] { assert l.on[j] <= l.on[i]; }
  }

  lemma PublishedLevelOk(l: List, level: nat, prev: Node, key: int)
    requires |l.on| == MAX_HEIGHT && level < MAX_HEIGHT && LevelOk(l, level) && StagedAt(l, level, prev, key)
    ensures LevelOk(Published(l, level, prev, key), level)
  {
    var m := Published(l, level, prev, key);
    var s, s' := l.on[level], m.on[level];
    forall n: Node | OnLevel(m, level, n) ensures (n, level) in m.next && IsNext(s', n, m.next[(n, level)]) {
      if n == prev {
      } else if n == Some(key) {
        assert IsNext(s, prev, l.next[(prev, level)]);
      } else {
        assert OnLevel(l, level, n) && IsNext(s, n, l.next[(n, level)]);
      }
    }
  }

  /** Raising the height opens levels on which the head still points nowhere. */
  lemma RaisingKeepsOk(l: List, height: nat)
    requires Ok(l) && l.maxHeight <= height <= MAX_HEIGHT
    ensures Ok(l.(maxHeight := height))
  {
    var m := l.(maxHeight := height);
    forall i | 0 <= i < MAX_HEIGHT ensures LevelOk(m, i) { assert LevelOk(l, i); }
  }

  // ---------------------------------------------------------------- the program, undisturbed

  /** The keys still ahead of a search. */
  ghost function Ahead(keys: set<int>, x: Node): set<int> { set j | j in keys && Less(x, j) }

  lemma AheadShrinks(keys: set<int>, x: Node, y: int)
    requires y in keys && Less(x, y)
    ensures |Ahead(keys, Some(y))| < |Ahead(keys, x)|
  {
    SmallerSet(Ahead(keys, Some(y)), Ahead(keys, x), y);
  }

  lemma SmallerSet(a: set<int>, b: set<int>, y: int)
    requires a <= b && y in b && y !in a
    ensures |a| < |b|
  {
    assert b * a == a && y in b - a;
    assert |b - a| == |b| - |b * a|;
  }

  class SkipList {
    var next: map<(Node, nat), Option<int>>
    var maxHeight: nat
    ghost var on: seq<set<int>>

    ghost function Abs(): List
      reads this
    {
      List(next, maxHeight, on)
    }

    ghost predicate Valid()
      reads this
    {
      Ok(Abs())
    }

    constructor ()
      ensures Valid() && Abs() == Empty()
    {
      next := map i | 0 <= i < MAX_HEIGHT :: (None, i) := None;
      maxHeight, on := 1, seq(MAX_HEIGHT, _ => {});
      new;
      EmptyOk();
    }

    /** The loop of FindGreaterOrEqual, FindLessThan and FindLast; prev is filled in for the first. */
    method Find(t: Target, prev: array<Node>) returns (x: Node, after: Option<int>)
      requires Valid() && prev.Length == MAX_HEIGHT
      modifies prev
      ensures Found(on[0], t, x, after)
      ensures t.AtOrAfter? ==> forall i :: 0 <= i < maxHeight ==> IsPrev(on[i], prev[i], t.k)
    {
      hide Ok, LevelOk;
      x := None;
      StartOk(Abs(), t);
      var level: nat := maxHeight - 1;
      while true
        invariant level < maxHeight && SearchOk(Abs(), t, x, level)
        invariant maxHeight <= MAX_HEIGHT == |on|
        invariant t.AtOrAfter? ==> forall i :: level < i < maxHeight ==> IsPrev(on[i], prev[i], t.k)
        decreases |Ahead(on[0], x)|, level
      {
        SearchStep(Abs(), t, x, level);
        after := next[(x, level)];
        if GoesOn(t, after) {
          GoingOnIsProgress(Abs(), t, x, level);
          x := after;
        } else {
          prev[level] := x;
          if t.AtOrAfter? { StopsAtPrev(Abs(), t.k, x, level); }
          if level == 0 { return; }
          level := level - 1;
        }
      }
    }

    /** Inserts a key that is not in the list yet, at a height that the random numbers choose. */
    method Insert(key: int, height: nat)
      requires Valid() && key !in on[0] && 1 <= height <= MAX_HEIGHT
      modifies this
      ensures Valid() && on[0] == old(on[0]) + {key}
      ensures forall i :: 0 <= i < MAX_HEIGHT ==> on[i] == if i < height then old(on[i]) + {key} else old(on[i])
    {
      hide Ok, LevelOk;
      var prev := new Node[MAX_HEIGHT](_ => None);
      var x, after := Find(AtOrAfter(key), prev);
      if height > maxHeight {
        HeightBounds(Abs());
        var i: nat := maxHeight;
        while i < height
          invariant maxHeight <= i <= height && Abs() == old(Abs()) && |on| == MAX_HEIGHT
          invariant forall j :: 0 <= j < i ==> IsPrev(on[j], prev[j], key)
        {
          prev[i] := None;
          NothingAbove(Abs(), key, i);
          i := i + 1;
        }
        RaisingKeepsOk(Abs(), height);
        maxHeight := height;
      }
      HeightBounds(Abs());
      KeyIsNowhere(Abs(), key);
      LinkAll(key, height, prev);
    }

    /** Links the new node level by level from the bottom. */
    method LinkAll(key: int, height: nat, prev: array<Node>)
      requires Valid() && prev.Length == MAX_HEIGHT && height <= maxHeight && |on| == MAX_HEIGHT
      requires forall i :: 0 <= i < MAX_HEIGHT ==> key !in on[i]
      requires forall i :: 0 <= i < height ==> IsPrev(on[i], prev[i], key)
      requires maxHeight <= MAX_HEIGHT
      modifies this
      ensures Valid() && |on| == MAX_HEIGHT
      ensures forall i :: 0 <= i < MAX_HEIGHT ==> on[i] == if i < height then old(on[i]) + {key} else old(on[i])
    {
      hide Ok, LevelOk;
      var i: nat := 0;
      while i < height
        invariant i <= height && Valid() && |on| == MAX_HEIGHT && maxHeight == old(maxHeight)
        invariant forall j :: 0 <= j < MAX_HEIGHT ==> on[j] == if j < i then old(on[j]) + {key} else old(on[j])
      {
        PrevHasPointer(Abs(), i, prev[i], key);
        StagingIsInvisible(Abs(), i, prev[i], key);
        next := next[(Some(key), i) := next[(prev[i], i)]];
        PublishingKeepsOk(Abs(), i, prev[i], key);
        next := next[(prev[i], i) := Some(key)];
        on := on[i := on[i] + {key}];
        i := i + 1;
      }
    }

    method Contains(key: int) returns (r: bool)
      requires Valid()
      ensures r <==> key in on[0]
    {
      var prev := new Node[MAX_HEIGHT](_ => None);
      var x, after := Find(AtOrAfter(key), prev);
      r := after == Some(key);
    }
  }

  lemma StartOk(l: List, t: Target)
    requires Ok(l)
    ensures 1 <= l.maxHeight <= MAX_HEIGHT == |l.on| && SearchOk(l, t, None, l.maxHeight - 1)
  {
  }

  lemma HeightBounds(l: List)
    requires Ok(l)
    ensures 1 <= l.maxHeight <= MAX_HEIGHT == |l.on|
  {
  }

  lemma NothingAbove(l: List, key: int, i: nat)
    requires Ok(l) && l.maxHeight <= i < MAX_HEIGHT
    ensures IsPrev(l.on[i], None, key)
  {
  }

  lemma KeyIsNowhere(l: List, key: int)
    requires Ok(l) && key !in l.on[0]
    ensures forall i :: 0 <= i < MAX_HEIGHT ==> key !in l.on[i]
  {
    forall i | 0 <= i < MAX_HEIGHT ensures l.on[i] <= l.on[0] {}
  }

  lemma PrevHasPointer(l: List, level: nat, prev: Node, key: int)
    requires Ok(l) && level < MAX_HEIGHT && IsPrev(l.on[level], prev, key)
    ensures (prev, level) in l.next
  {
    assert LevelOk(l, level);
  }

  lemma GoingOnIsProgress(l: List, t: Target, x: Node, level: nat)
    requires Ok(l) && SearchOk(l, t, x, level) && (x, level) in l.next && GoesOn(t, l.next[(x, level)])
    ensures |Ahead(l.on[0], l.next[(x, level)])| < |Ahead(l.on[0], x)|
  {
    assert LevelOk(l, level) && l.on[level] <= l.on[0];
    AheadShrinks(l.on[0], x, l.next[(x, level)].value);
  }

  lemma StopsAtPrev(l: List, k: int, x: Node, level: nat)
    requires Ok(l) && SearchOk(l, AtOrAfter(k), x, level) && (x, level) in l.next &&
             !GoesOn(AtOrAfter(k), l.next[(x, level)])
    ensures IsPrev(l.on[level], x, k)
  {
    assert LevelOk(l, level);
  }
}
