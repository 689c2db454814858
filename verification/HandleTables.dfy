/** The hash table of the cache (util/cache.cc): buckets of chained handles, rehashed as it grows. */
module HandleTables {
  import opened InternalKeys

  datatype Handle = Handle(id: nat, key: int, hash: nat)

  predicate PowerOfTwo(n: nat) { n == 1 || (n > 1 && n % 2 == 0 && PowerOfTwo(n / 2)) }

  /** A chain holds exactly the handles of its bucket, once each. */
  ghost predicate BucketOk(chain: seq<Handle>, b: nat, length: nat, entries: map<int, nat>, hashOf: int -> nat)
    requires length > 0
  {
    (forall i :: 0 <= i < |chain| ==> InPlace(chain[i], b, length, entries, hashOf)) &&
    (forall i, j :: 0 <= i < j < |chain| ==> chain[i].key != chain[j].key) &&
    (forall k :: k in entries && hashOf(k) % length == b ==> Handle(entries[k], k, hashOf(k)) in chain)
  }

  ghost predicate InPlace(h: Handle, b: nat, length: nat, entries: map<int, nat>, hashOf: int -> nat)
    requires length > 0
  {
    h.hash == hashOf(h.key) && h.hash % length == b && h.key in entries && entries[h.key] == h.id
  }

  ghost predicate BucketsOk(list: seq<seq<Handle>>, entries: map<int, nat>, hashOf: int -> nat) {
    |list| > 0 && forall b: nat :: b < |list| ==> BucketOk(list[b], b, |list|, entries, hashOf)
  }

  /** The entries are the same, but for one key. */
  ghost predicate AgreeBut(key: int, a: map<int, nat>, b: map<int, nat>) {
    (forall k :: k in a && k != key ==> k in b && b[k] == a[k]) && forall k :: k in b && k != key ==> k in a
  }

  /** Replacing one chain, when entries change for one of its keys only. */
  lemma OneBucketChanges(list: seq<seq<Handle>>, entries: map<int, nat>, hashOf: int -> nat, b: nat, chain: seq<Handle>,
                         entries': map<int, nat>, key: int)
    requires BucketsOk(list, entries, hashOf) && b < |list| && b == hashOf(key) % |list|
    requires BucketOk(chain, b, |list|, entries', hashOf) && AgreeBut(key, entries, entries')
    ensures BucketsOk(list[b := chain], entries', hashOf)
  {
    hide BucketOk;
    var list' := list[b := chain];
    forall c: nat | c < |list'| ensures BucketOk(list'[c], c, |list|, entries', hashOf) {
      if c != b {
        assert BucketOk(list[c], c, |list|, entries, hashOf);
        OtherBucketStays(list[c], c, |list|, entries, hashOf, entries', key);
      }
    }
  }

  lemma OtherBucketStays(chain: seq<Handle>, c: nat, length: nat, entries: map<int, nat>, hashOf: int -> nat,
                         entries': map<int, nat>, key: int)
    requires length > 0 && BucketOk(chain, c, length, entries, hashOf) && hashOf(key) % length != c
    requires AgreeBut(key, entries, entries')
    ensures BucketOk(chain, c, length, entries', hashOf)
  {
    forall i | 0 <= i < |chain| ensures InPlace(chain[i], c, length, entries', hashOf) {
      assert InPlace(chain[i], c, length, entries, hashOf);
    }
  }

  /** A new handle at the end of its chain, or in place of the one with the same key. */
  lemma ChainGains(chain: seq<Handle>, b: nat, length: nat, entries: map<int, nat>, hashOf: int -> nat, p: nat,
                   h: Handle)
    requires length > 0 && BucketOk(chain, b, length, entries, hashOf) && h.hash == hashOf(h.key) &&
             h.hash % length == b
    requires p <= |chain| && (forall i :: 0 <= i < p ==> chain[i].key != h.key) &&
             (p < |chain| ==> chain[p].key == h.key)
    ensures BucketOk(if p < |chain| then chain[p := h] else chain + [h], b, length, entries[h.key := h.id], hashOf)
  {
    var chain' := if p < |chain| then chain[p := h] else chain + [h];
    var entries' := entries[h.key := h.id];
    forall i | 0 <= i < |chain'| ensures InPlace(chain'[i], b, length, entries', hashOf) {
      if i != p { assert InPlace(chain[i], b, length, entries, hashOf); }
    }
    forall k | k in entries' && hashOf(k) % length == b ensures Handle(entries'[k], k, hashOf(k)) in chain' {
      if k == h.key {
        assert chain'[p] == h;
      } else {
        var i :| 0 <= i < |chain| && chain[i] == Handle(entries[k], k, hashOf(k));
        assert chain'[i] == chain[i];
      }
    }
  }

  lemma ChainLoses(chain: seq<Handle>, b: nat, length: nat, entries: map<int, nat>, hashOf: int -> nat, p: nat)
    requires length > 0 && BucketOk(chain, b, length, entries, hashOf) && p < |chain|
    ensures BucketOk(chain[..p] + chain[p + 1..], b, length, entries - {chain[p].key}, hashOf)
  {
    var chain', entries' := chain[..p] + chain[p + 1..], entries - {chain[p].key};
    forall i | 0 <= i < |chain'| ensures InPlace(chain'[i], b, length, entries', hashOf) {
      var j := if i < p then i else i + 1;
      assert chain'[i] == chain[j] && InPlace(chain[j], b, length, entries, hashOf);
    }
    forall k | k in entries' && hashOf(k) % length == b ensures Handle(entries'[k], k, hashOf(k)) in chain' {
      var i :| 0 <= i < |chain| && chain[i] == Handle(entries[k], k, hashOf(k));
      assert chain'[if i < p then i else i - 1] == chain[i];
    }
  }

  /** A chain where a key is not found has no such key. */
  lemma NotInChain(chain: seq<Handle>, b: nat, length: nat, entries: map<int, nat>, hashOf: int -> nat, key: int)
    requires length > 0 && BucketOk(chain, b, length, entries, hashOf) && hashOf(key) % length == b
    requires forall i :: 0 <= i < |chain| ==> chain[i].key != key
    ensures key !in entries
  {
  }

  class HandleTable {
    const hashOf: int -> nat
    var length: nat
    var elems: nat
    var list: seq<seq<Handle>>
    ghost var entries: map<int, nat>

    ghost predicate Valid()
      reads this
    {
      |list| == length && PowerOfTwo(length) && BucketsOk(list, entries, hashOf) && elems == |entries| <= length
    }

    constructor (hashOf: int -> nat)
      ensures Valid() && entries == map[] && this.hashOf == hashOf
    {
      this.hashOf := hashOf;
      length, elems, list, entries := 0, 0, [], map[];
      new;
      Resize();
    }

    /** The place in its bucket of the handle with this key, or else the end of the chain. */
    method FindPointer(key: int, hash: nat) returns (p: nat)
      requires Valid() && hash == hashOf(key)
      ensures hash % length < |list| && p <= |list[hash % length]|
      ensures forall i :: 0 <= i < p ==> list[hash % length][i].key != key
      ensures p < |list[hash % length]| <==> key in entries
      ensures key in entries ==> list[hash % length][p] == Handle(entries[key], key, hash)
    {
      var chain := list[hash % length];
      assert BucketOk(chain, hash % length, length, entries, hashOf);
      p := 0;
      while p < |chain| && (chain[p].hash != hash || chain[p].key != key)
        invariant p <= |chain| && forall i :: 0 <= i < p ==> chain[i].key != key
      {
        assert InPlace(chain[p], hash % length, length, entries, hashOf);
        p := p + 1;
      }
      if p < |chain| {
        assert InPlace(chain[p], hash % length, length, entries, hashOf);
      } else {
        NotInChain(chain, hash % length, length, entries, hashOf, key);
      }
    }

    method Lookup(key: int, hash: nat) returns (r: Option<nat>)
      requires Valid() && hash == hashOf(key)
      ensures r == if key in entries then Some(entries[key]) else None
    {
      var p := FindPointer(key, hash);
      var chain := list[hash % length];
      r := if p < |chain| then Some(chain[p].id) else None;
    }

    /** Returns the handle that has been replaced. */
    method Insert(h: Handle) returns (replaced: Option<nat>)
      requires Valid() && h.hash == hashOf(h.key)
      modifies this
      ensures Valid() && entries == old(entries)[h.key := h.id]
      ensures replaced == if h.key in old(entries) then Some(old(entries)[h.key]) else None
      ensures if |entries| <= old(length) then length == old(length)
              else length >= 4 && (length > 4 ==> length / 2 < |entries|)
    {
      var p := FindPointer(h.key, h.hash);
      var b := h.hash % length;
      var chain := list[b];
      assert BucketOk(chain, b, length, entries, hashOf);
      ChainGains(chain, b, length, entries, hashOf, p, h);
      var chain' := if p < |chain| then chain[p := h] else chain + [h];
      ghost var entries' := entries[h.key := h.id];
      OneBucketChanges(list, entries, hashOf, b, chain', entries', h.key);
      list, entries := list[b := chain'], entries';
      if p < |chain| {
        replaced := Some(chain[p].id);
      } else {
        replaced := None;
        elems := elems + 1;
        if elems > length { Resize(); }
      }
    }

    method Remove(key: int, hash: nat) returns (removed: Option<nat>)
      requires Valid() && hash == hashOf(key)
      modifies this
      ensures Valid() && entries == old(entries) - {key} && length == old(length)
      ensures removed == if key in old(entries) then Some(old(entries)[key]) else None
    {
      var p := FindPointer(key, hash);
      var b := hash % length;
      var chain := list[b];
      if p < |chain| {
        removed := Some(chain[p].id);
        assert BucketOk(chain, b, length, entries, hashOf);
        ChainLoses(chain, b, length, entries, hashOf, p);
        ghost var entries' := entries - {key};
        OneBucketChanges(list, entries, hashOf, b, chain[..p] + chain[p + 1..], entries', key);
        assert |entries'| == |entries| - 1 by { assert entries == entries'[key := entries[key]]; }
        list, entries := list[b := chain[..p] + chain[p + 1..]], entries';
        elems := elems - 1;
      } else {
        removed := None;
        assert entries - {key} == entries;
      }
    }

    /** Moves every handle into a larger list. */
    method Resize()
      requires |list| == length && elems == |entries|
      requires if length == 0 then entries == map[] else BucketsOk(list, entries, hashOf)
      modifies this`list, this`length
      ensures Valid() && length >= 4 && (length > 4 ==> length / 2 < |entries|)
    {
      hide BucketsOk, MovedUpTo;
      var newLength := LengthFor(elems);
      var newList: seq<seq<Handle>> := seq(newLength, _ => []);
      ghost var moved: map<int, nat> := map[];
      EmptyBuckets(newList, hashOf);
      NothingMoved(entries, hashOf, length);
      var count, i := 0, 0;
      while i < length
        invariant i <= length && |newList| == newLength && BucketsOk(newList, moved, hashOf) && count == |moved|
        invariant MovedUpTo(moved, entries, hashOf, length, i) && list == old(list) && length == old(length)
      {
        newList, count, moved := MoveChain(newList, count, i, moved);
        i := i + 1;
      }
      AllMoved(moved, entries, hashOf, length);
      assert count == elems;
      list := newList;
      length := newLength;
    }

    /** Pushes the handles of one chain to the fronts of their new chains. */
    method MoveChain(before: seq<seq<Handle>>, count0: nat, i: nat, ghost moved0: map<int, nat>)
      returns (newList: seq<seq<Handle>>, count: nat, ghost moved: map<int, nat>)
      requires |list| == length && i < length && BucketsOk(list, entries, hashOf)
      requires BucketsOk(before, moved0, hashOf) && count0 == |moved0| && MovedUpTo(moved0, entries, hashOf, length, i)
      ensures |newList| == |before| && BucketsOk(newList, moved, hashOf) && count == |moved|
      ensures MovedUpTo(moved, entries, hashOf, length, i + 1)
    {
      hide BucketsOk, MovedUpTo, BucketOk, MovedFrom;
      newList, count, moved := before, count0, moved0;
      var chain := list[i];
      BucketIsOk(list, entries, hashOf, i);
      BucketIsOk(before, moved0, hashOf, 0);
      NoneMoved(moved0, chain);
      var j := 0;
      while j < |chain|
        invariant j <= |chain| && |newList| == |before| && BucketsOk(newList, moved, hashOf) && count == |moved|
        invariant MovedFrom(moved, moved0, chain, j)
      {
        var h := chain[j];
        OneMoved(moved, moved0, chain, j, i, length, entries, hashOf);
        var b := h.hash % |newList|;
        BucketIsOk(newList, moved, hashOf, b);
        ChainPushed(newList[b], b, |newList|, moved, hashOf, h);
        OneBucketChanges(newList, moved, hashOf, b, [h] + newList[b], moved[h.key := h.id], h.key);
        newList, moved := newList[b := [h] + newList[b]], moved[h.key := h.id];
        j, count := j + 1, count + 1;
      }
      ChainIsMoved(chain, i, length, entries, hashOf, moved0, moved);
    }
  }

  method LengthFor(elems: nat) returns (n: nat)
    ensures n >= 4 && n >= elems && PowerOfTwo(n) && (n > 4 ==> n / 2 < elems)
  {
    n := 4;
    assert PowerOfTwo(2) && PowerOfTwo(4);
    while n < elems
      invariant n >= 4 && PowerOfTwo(n) && (n > 4 ==> n / 2 < elems)
      decreases elems - n
    {
      n := n * 2;
    }
  }

  // ---------------------------------------------------------------- what has been moved

  ghost predicate MovedUpTo(moved: map<int, nat>, entries: map<int, nat>, hashOf: int -> nat, length: nat, i: nat) {
    (forall k :: k in moved <==> k in entries && length > 0 && hashOf(k) % length < i) &&
    forall k :: k in moved ==> k in entries && moved[k] == entries[k]
  }

  /** What moved0 and the first j handles of a chain make together. */
  ghost predicate MovedFrom(moved: map<int, nat>, moved0: map<int, nat>, chain: seq<Handle>, j: nat)
    requires j <= |chain|
  {
    (forall k :: k in moved0 ==> k in moved && moved[k] == moved0[k]) &&
    (forall m :: 0 <= m < j ==> chain[m].key in moved && moved[chain[m].key] == chain[m].id) &&
    forall k :: k in moved ==> k in moved0 || exists m :: 0 <= m < j && chain[m].key == k
  }

  lemma EmptyBuckets(list: seq<seq<Handle>>, hashOf: int -> nat)
    requires |list| > 0 && forall b :: 0 <= b < |list| ==> list[b] == []
    ensures BucketsOk(list, map[], hashOf)
  {
  }

  lemma BucketIsOk(list: seq<seq<Handle>>, entries: map<int, nat>, hashOf: int -> nat, b: nat)
    requires BucketsOk(list, entries, hashOf)
    ensures |list| > 0 && (b < |list| ==> BucketOk(list[b], b, |list|, entries, hashOf))
  {
  }

  lemma NothingMoved(entries: map<int, nat>, hashOf: int -> nat, length: nat)
    ensures MovedUpTo(map[], entries, hashOf, length, 0)
  {
  }

  lemma AllMoved(moved: map<int, nat>, entries: map<int, nat>, hashOf: int -> nat, length: nat)
    requires MovedUpTo(moved, entries, hashOf, length, length) && (length == 0 ==> entries == map[])
    ensures moved == entries
  {
    forall k | k in entries ensures k in moved { assert hashOf(k) % length < length; }
    assert forall k :: k in moved <==> k in entries;
    assert forall k :: k in moved.Keys <==> k in entries.Keys;
    assert moved.Keys == entries.Keys;
    assert forall k :: k in moved ==> moved[k] == entries[k];
  }

  lemma NoneMoved(moved: map<int, nat>, chain: seq<Handle>)
    ensures MovedFrom(moved, moved, chain, 0)
  {
  }

  /** The next handle of a chain has not been moved before. */
  lemma NextIsNew(moved: map<int, nat>, moved0: map<int, nat>, chain: seq<Handle>, j: nat, i: nat, length: nat,
                  entries: map<int, nat>, hashOf: int -> nat)
    requires j < |chain| && MovedFrom(moved, moved0, chain, j) && MovedUpTo(moved0, entries, hashOf, length, i)
    requires length > 0 && BucketOk(chain, i, length, entries, hashOf)
    ensures chain[j].key !in moved && chain[j].hash == hashOf(chain[j].key)
  {
    assert InPlace(chain[j], i, length, entries, hashOf);
    assert chain[j].key !in moved0;
  }

  lemma MovedOneMore(moved: map<int, nat>, moved0: map<int, nat>, chain: seq<Handle>, j: nat)
    requires j < |chain| && MovedFrom(moved, moved0, chain, j) && chain[j].key !in moved
    ensures MovedFrom(moved[chain[j].key := chain[j].id], moved0, chain, j + 1)
  {
    var moved' := moved[chain[j].key := chain[j].id];
    forall k | k in moved' && k !in moved0 ensures exists m :: 0 <= m < j + 1 && chain[m].key == k {
      if k == chain[j].key {
        assert chain[j].key == k;
      } else {
        var m :| 0 <= m < j && chain[m].key == k;
        assert m < j + 1 && chain[m].key == k;
      }
    }
  }

  lemma OneMoved(moved: map<int, nat>, moved0: map<int, nat>, chain: seq<Handle>, j: nat, i: nat, length: nat,
                 entries: map<int, nat>, hashOf: int -> nat)
    requires j < |chain| && MovedFrom(moved, moved0, chain, j) && MovedUpTo(moved0, entries, hashOf, length, i)
    requires length > 0 && BucketOk(chain, i, length, entries, hashOf)
    ensures chain[j].key !in moved && chain[j].hash == hashOf(chain[j].key)
    ensures MovedFrom(moved[chain[j].key := chain[j].id], moved0, chain, j + 1)
  {
    hide MovedFrom, MovedUpTo, BucketOk;
    NextIsNew(moved, moved0, chain, j, i, length, entries, hashOf);
    MovedOneMore(moved, moved0, chain, j);
  }

  lemma ChainPushed(chain: seq<Handle>, b: nat, length: nat, entries: map<int, nat>, hashOf: int -> nat, h: Handle)
    requires length > 0 && BucketOk(chain, b, length, entries, hashOf) && h.hash == hashOf(h.key) &&
             h.hash % length == b
    requires h.key !in entries
    ensures BucketOk([h] + chain, b, length, entries[h.key := h.id], hashOf)
  {
    var chain', entries' := [h] + chain, entries[h.key := h.id];
    forall i | 0 <= i < |chain'| ensures InPlace(chain'[i], b, length, entries', hashOf) {
      if i > 0 { assert InPlace(chain[i - 1], b, length, entries, hashOf); }
    }
    forall i, j | 0 <= i < j < |chain'| ensures chain'[i].key != chain'[j].key {
      assert InPlace(chain[j - 1], b, length, entries, hashOf);
    }
    forall k | k in entries' && hashOf(k) % length == b ensures Handle(entries'[k], k, hashOf(k)) in chain' {
      if k == h.key { assert chain'[0] == h; }
    }
  }

  /** The keys of one bucket have been moved when its chain has been walked. */
  lemma ChainIsMoved(chain: seq<Handle>, b: nat, length: nat, entries: map<int, nat>, hashOf: int -> nat,
                     moved0: map<int, nat>, moved: map<int, nat>)
    requires length > 0 && BucketOk(chain, b, length, entries, hashOf) && MovedUpTo(moved0, entries, hashOf, length, b)
    requires MovedFrom(moved, moved0, chain, |chain|)
    ensures MovedUpTo(moved, entries, hashOf, length, b + 1)
  {
    forall k | k in entries && hashOf(k) % length == b ensures k in moved {
      var m :| 0 <= m < |chain| && chain[m] == Handle(entries[k], k, hashOf(k));
      assert chain[m].key == k;
    }
    forall k | k in moved ensures k in entries && hashOf(k) % length < b + 1 && moved[k] == entries[k] {
      if k !in moved0 {
        var m :| 0 <= m < |chain| && chain[m].key == k;
        assert InPlace(chain[m], b, length, entries, hashOf);
      }
    }
  }
}
