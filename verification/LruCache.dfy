/** One shard of the block and table cache (util/cache.cc): reference counts, the two lists, and eviction. */
module LruCache {
  import opened InternalKeys
  import opened HandleTables

  datatype Info = Info(key: int, charge: nat)

  // ---------------------------------------------------------------- lists

  ghost predicate NoDuplicates(s: seq<nat>) { forall i, j :: 0 <= i < j < |s| ==> s[i] != s[j] }

  function Charges(info: map<nat, Info>, s: seq<nat>): nat {
    if |s| == 0 then 0 else (if s[0] in info then info[s[0]].charge else 0) + Charges(info, s[1..])
  }

  /** LRU_Remove: unlinks an entry from the list it is on. */
  function Without(s: seq<nat>, h: nat): (r: seq<nat>)
    ensures forall x :: x in r <==> x in s && x != h
  {
    if |s| == 0 then [] else if s[0] == h then Without(s[1..], h) else [s[0]] + Without(s[1..], h)
  }

  lemma {:induction false} WithoutAbsent(s: seq<nat>, h: nat)
    requires h !in s
    ensures Without(s, h) == s
  {
    if |s| == 0 {
    } else {
      WithoutAbsent(s[1..], h);
    }
  }

  lemma {:induction false} WithoutKeeps(info: map<nat, Info>, s: seq<nat>, h: nat)
    requires NoDuplicates(s) && h in s && h in info
    ensures NoDuplicates(Without(s, h)) && Charges(info, Without(s, h)) + info[h].charge == Charges(info, s)
  {
    if s[0] == h {
      forall i | 0 <= i < |s[1..]| ensures s[1..][i] != h { assert s[i + 1] != s[0]; }
      WithoutAbsent(s[1..], h);
    } else {
      WithoutKeeps(info, s[1..], h);
      var rest := Without(s[1..], h);
      forall i | 0 <= i < |rest| ensures rest[i] != s[0] {
        assert rest[i] in rest;
        assert rest[i] in s[1..];
      }
    }
  }

  lemma {:induction false} ChargesAppend(info: map<nat, Info>, s: seq<nat>, h: nat)
    requires h in info
    ensures Charges(info, s + [h]) == Charges(info, s) + info[h].charge
  {
    if |s| == 0 {
      assert s + [h] == [h];
    } else {
      assert (s + [h])[1..] == s[1..] + [h];
      ChargesAppend(info, s[1..], h);
    }
  }

  lemma {:induction false} ChargesIgnoreNew(info: map<nat, Info>, s: seq<nat>, h: nat, i: Info)
    requires h !in s
    ensures Charges(info[h := i], s) == Charges(info, s)
  {
    if |s| == 0 {
    } else {
      ChargesIgnoreNew(info, s[1..], h, i);
    }
  }

  // ---------------------------------------------------------------- the invariant, part by part

  /** A count is what clients hold, and one more for the cache. */
  ghost predicate CountedOne(refs: map<nat, nat>, held: map<nat, nat>, inCache: set<nat>, h: nat) {
    h in refs && h in held && refs[h] >= 1 && refs[h] == held[h] + if h in inCache then 1 else 0
  }

  ghost predicate Counted(refs: map<nat, nat>, held: map<nat, nat>, inCache: set<nat>) {
    held.Keys == refs.Keys && inCache <= refs.Keys && forall h :: h in refs ==> CountedOne(refs, held, inCache, h)
  }

  /** Cached entries are on one list: lru if only the cache holds them, in_use otherwise. */
  ghost predicate Listed(refs: map<nat, nat>, inCache: set<nat>, lru: seq<nat>, inUse: seq<nat>) {
    NoDuplicates(lru) && NoDuplicates(inUse) &&
    (forall h :: h in lru <==> h in inCache && h in refs && refs[h] == 1) &&
    (forall h :: h in inUse <==> h in inCache && h in refs && refs[h] >= 2)
  }

  ghost predicate Charged(info: map<nat, Info>, lru: seq<nat>, inUse: seq<nat>, usage: nat) {
    usage == Charges(info, lru) + Charges(info, inUse)
  }

  /** Every handle is live, or its deleter has run, once. */
  ghost predicate Freed(info: map<nat, Info>, refs: map<nat, nat>, deleted: seq<nat>, next: nat) {
    NoDuplicates(deleted) && (forall h :: h in info ==> h < next) &&
    (forall h :: h in refs || h in deleted ==> h in info) &&
    (forall h :: h in info ==> (h in refs <==> h !in deleted))
  }

  /** The table finds exactly the cached entries by their keys; but for one that is being erased. */
  ghost predicate Tabled(table: map<int, nat>, info: map<nat, Info>, inCache: set<nat>, except: set<nat>) {
    (forall k :: k in table ==>
        table[k] in inCache && table[k] in info && info[table[k]].key == k && table[k] !in except) &&
    (forall h :: h in inCache && h !in except ==> h in info && info[h].key in table && table[info[h].key] == h)
  }

  // ---------------------------------------------------------------- moving between the lists

  lemma GainingAReference(info: map<nat, Info>, refs: map<nat, nat>, inCache: set<nat>, lru: seq<nat>, inUse: seq<nat>,
                          e: nat)
    requires Listed(refs, inCache, lru, inUse) && e in inCache && e in refs && refs[e] >= 1 && e in info
    ensures var inUse' := if refs[e] == 1 then inUse + [e] else inUse;
            var lru' := if refs[e] == 1 then Without(lru, e) else lru;
            Listed(refs[e := refs[e] + 1], inCache, lru', inUse') &&
            Charges(info, lru') + Charges(info, inUse') == Charges(info, lru) + Charges(info, inUse)
  {
    if refs[e] == 1 {
      WithoutKeeps(info, lru, e);
      ChargesAppend(info, inUse, e);
    }
  }

  lemma LosingAReference(info: map<nat, Info>, refs: map<nat, nat>, inCache: set<nat>, lru: seq<nat>, inUse: seq<nat>,
                         e: nat)
    requires Listed(refs, inCache, lru, inUse) && e in inCache && e in refs && refs[e] >= 2 && e in info
    ensures var inUse' := if refs[e] == 2 then Without(inUse, e) else inUse;
            var lru' := if refs[e] == 2 then lru + [e] else lru;
            Listed(refs[e := refs[e] - 1], inCache, lru', inUse') &&
            Charges(info, lru') + Charges(info, inUse') == Charges(info, lru) + Charges(info, inUse)
  {
    if refs[e] == 2 {
      WithoutKeeps(info, inUse, e);
      ChargesAppend(info, lru, e);
    }
  }

  /** LRU_Remove does not ask which list the entry is on. */
  lemma Unlinking(info: map<nat, Info>, refs: map<nat, nat>, inCache: set<nat>, lru: seq<nat>, inUse: seq<nat>, e: nat)
    requires Listed(refs, inCache, lru, inUse) && e in inCache && e in refs && refs[e] >= 1 && e in info
    ensures Listed(refs, inCache - {e}, Without(lru, e), Without(inUse, e))
    ensures Charges(info, Without(lru, e)) + Charges(info, Without(inUse, e)) + info[e].charge
         == Charges(info, lru) + Charges(info, inUse)
    ensures refs[e] == 1 ==> Without(inUse, e) == inUse
    ensures refs[e] >= 2 ==> Without(lru, e) == lru
  {
    if refs[e] == 1 {
      WithoutKeeps(info, lru, e);
      WithoutAbsent(inUse, e);
    } else {
      WithoutKeeps(info, inUse, e);
      WithoutAbsent(lru, e);
    }
  }

  lemma UncachedIsUnlisted(refs: map<nat, nat>, inCache: set<nat>, lru: seq<nat>, inUse: seq<nat>, e: nat, n: nat)
    requires Listed(refs, inCache, lru, inUse) && e !in inCache
    ensures Listed(refs[e := n], inCache, lru, inUse) && Listed(refs - {e}, inCache, lru, inUse)
  {
  }

  class LruCache {
    var capacity: nat
    var info: map<nat, Info>       // every handle ever made; its key and charge never change
    var refs: map<nat, nat>        // the reference counts of those not yet freed
    var inCache: set<nat>          // the in_cache flags
    var lru: seq<nat>              // oldest first
    var inUse: seq<nat>
    const handles: HandleTable     // where the cached entries are found by their keys
    var usage: nat
    var nextHandle: nat
    ghost var held: map<nat, nat>  // how often clients hold each handle
    ghost var deleted: seq<nat>    // the deleter's calls

    /** What the table finds. */
    ghost function Table(): map<int, nat>
      reads handles
    {
      handles.entries
    }

    /** Everything but what the table finds. */
    ghost predicate Core()
      reads this, handles
    {
      handles.Valid() &&
      Counted(refs, held, inCache) && Listed(refs, inCache, lru, inUse) && Charged(info, lru, inUse, usage) &&
      Freed(info, refs, deleted, nextHandle)
    }

    ghost predicate Valid()
      reads this, handles
    {
      Core() && Tabled(Table(), info, inCache, {})
    }

    constructor (capacity: nat, hashOf: int -> nat)
      ensures Valid() && this.capacity == capacity && info == map[] && usage == 0 && fresh(handles)
    {
      this.capacity := capacity;
      handles := new HandleTable(hashOf);
      info, refs, inCache, lru, inUse, usage, nextHandle := map[], map[], {}, [], [], 0, 0;
      held, deleted := map[], [];
    }

    /** Takes one more reference for a client. */
    method Ref(e: nat)
      requires Core() && e in inCache
      modifies this`refs, this`lru, this`inUse, this`held
      ensures Core() && e in old(refs) && e in old(held)
      ensures refs == old(refs)[e := old(refs)[e] + 1] && held == old(held)[e := old(held)[e] + 1]
      ensures lru == if old(refs)[e] == 1 then Without(old(lru), e) else old(lru)
      ensures inUse == if old(refs)[e] == 1 then old(inUse) + [e] else old(inUse)
    {
      hide Listed;
      assert CountedOne(refs, held, inCache, e);
      GainingAReference(info, refs, inCache, lru, inUse, e);
      if refs[e] == 1 {
        lru := Without(lru, e);
        inUse := inUse + [e];
      }
      refs := refs[e := refs[e] + 1];
      held := held[e := held[e] + 1];
      CountsMove(old(refs), old(held), inCache, refs, held, e);
    }

    /** Gives one reference up: the count of e is one too many, and nobody claims that one any more.  Without
        references left the entry is freed, and its deleter runs. */
    method Unref(e: nat)
      requires OneTooMany(refs, held, inCache, e) && Listed(refs, inCache, lru, inUse) &&
               Charged(info, lru, inUse, usage)
      requires Freed(info, refs, deleted, nextHandle) && handles.Valid()
      modifies this`refs, this`lru, this`inUse, this`held, this`deleted
      ensures Core()
      ensures refs == if old(refs)[e] == 1 then old(refs) - {e} else old(refs)[e := old(refs)[e] - 1]
      ensures held == if old(refs)[e] == 1 then old(held) - {e} else old(held)
      ensures deleted == if old(refs)[e] == 1 then old(deleted) + [e] else old(deleted)
      ensures lru == if e in inCache && old(refs)[e] == 2 then old(lru) + [e] else old(lru)
      ensures inUse == if e in inCache && old(refs)[e] == 2 then Without(old(inUse), e) else old(inUse)
    {
      hide Listed, Counted, Freed;
      LastIsUnclaimed(refs, held, inCache, e);
      LiveIsKnown(info, refs, deleted, nextHandle, e);
      if refs[e] == 1 {
        UncachedIsUnlisted(refs, inCache, lru, inUse, e, 1);
        FreeingOnce(info, refs, deleted, nextHandle, e);
        FreedIsCounted(refs, held, inCache, e);
        refs, held, deleted := refs - {e}, held - {e}, deleted + [e];
      } else {
        FewerIsCounted(refs, held, inCache, e);
        RecountingIsNoFreeing(info, refs, deleted, nextHandle, e, refs[e] - 1);
        if e in inCache {
          LosingAReference(info, refs, inCache, lru, inUse, e);
        } else {
          UncachedIsUnlisted(refs, inCache, lru, inUse, e, refs[e] - 1);
        }
        refs := refs[e := refs[e] - 1];
        if e in inCache && refs[e] == 1 {
          inUse := Without(inUse, e);
          lru := lru + [e];
        }
      }
    }

    /** Finishes removing an entry that the table does not find any more. */
    method FinishErase(e: nat)
      requires Core() && e in inCache && Tabled(Table(), info, inCache, {e})
      modifies this`refs, this`lru, this`inUse, this`held, this`deleted, this`inCache, this`usage
      ensures Valid() && e in old(refs) && e in info && inCache == old(inCache) - {e}
      ensures lru == Without(old(lru), e) && inUse == Without(old(inUse), e) && usage + info[e].charge == old(usage)
      ensures if old(refs)[e] == 1 then held == old(held) - {e} && deleted == old(deleted) + [e]
              else held == old(held) && deleted == old(deleted)
    {
      hide Listed, Freed;
      assert CountedOne(refs, held, inCache, e);
      LiveIsKnown(info, refs, deleted, nextHandle, e);
      Unlinking(info, refs, inCache, lru, inUse, e);
      UncachingLeavesOne(refs, held, inCache, e);
      lru, inUse := Without(lru, e), Without(inUse, e);
      inCache := inCache - {e};
      usage := usage - info[e].charge;
      Unref(e);
    }

    // -------------------------------------------------------------- what clients call

    method Lookup(key: int) returns (r: Option<nat>)
      requires Valid()
      modifies this`refs, this`lru, this`inUse, this`held
      ensures Valid() && r == if key in Table() then Some(Table()[key]) else None
      ensures r.Some? ==> r.value in old(held) && held == old(held)[r.value := old(held)[r.value] + 1]
      ensures r.None? ==> held == old(held) && lru == old(lru)
    {
      r := handles.Lookup(key, handles.hashOf(key));
      if r.Some? { Ref(r.value); }
    }

    method Release(e: nat)
      requires Valid() && e in held && held[e] > 0
      modifies this`refs, this`lru, this`inUse, this`held, this`deleted
      ensures Valid()
      ensures var n := old(held)[e] - 1;
              if n == 0 && e !in inCache then held == old(held) - {e} && deleted == old(deleted) + [e]
              else held == old(held)[e := n] && deleted == old(deleted)
    {
      hide Listed, Freed, Tabled;
      assert CountedOne(refs, held, inCache, e);
      ReleasingLeavesOne(refs, held, inCache, e);
      held := held[e := held[e] - 1];
      Unref(e);
    }

    method Erase(key: int)
      requires Valid()
      modifies this`refs, this`lru, this`inUse, this`held, this`deleted, this`inCache, this`usage, handles
      ensures Valid() && Table() == old(Table()) - {key}
      ensures HandlesOutStay(old(held), held)
      ensures key !in old(Table()) ==> deleted == old(deleted) && lru == old(lru) && inCache == old(inCache)
      ensures key in old(Table()) ==>
                var e := old(Table())[key];
                e in old(held) && inCache == old(inCache) - {e} && lru == Without(old(lru), e) &&
                deleted == if old(held)[e] == 0 then old(deleted) + [e] else old(deleted)
    {
      hide Listed, Freed, Counted, Charged, Tabled, HandlesOutStay;
      HandlesOutStayTwice(held, held, held);
      ghost var before := Table();
      var removed := handles.Remove(key, handles.hashOf(key));
      TableForgets(before, info, inCache, key);
      if removed.None? { return; }
      var e := removed.value;
      CachedIsCounted(refs, held, inCache, e);
      ErasedKeepsHandles(held, e);
      FinishErase(e);
    }

    /** The part of Insert before anything is evicted. */
    method AddEntry(key: int, charge: nat) returns (e: nat)
      requires Valid()
      modifies this, handles
      ensures Valid() && e == old(nextHandle) && e in held && held[e] == 1 && info == old(info)[e := Info(key, charge)]
      ensures capacity == old(capacity) && if capacity > 0 then e in inUse else e !in inCache
      ensures inCache == if capacity > 0 then old(inCache) + {e} - Replaced(old(Table()), key) else old(inCache)
      ensures lru == if capacity > 0 && key in old(Table()) then Without(old(lru), old(Table())[key]) else old(lru)
      ensures HandlesOutStay(old(held), held)
    {
      e := nextHandle;
      if capacity > 0 {
        AddCached(key, charge, e);
      } else {
        AddUncached(key, charge, e);
      }
    }

    /** Puts a new entry on the in-use list; the table does not find it yet. */
    method AppendNew(key: int, charge: nat, e: nat)
      requires Valid() && e == nextHandle
      modifies this
      ensures Core() && Tabled(Table(), info, inCache, {e}) && capacity == old(capacity)
      ensures info == old(info)[e := Info(key, charge)] && e in inUse && lru == old(lru)
      ensures inCache == old(inCache) + {e}
      ensures e !in old(held) && held == old(held)[e := 1]
    {
      hide Listed, Freed, Tabled, Counted;
      CachedAreLive(refs, held, inCache);
      NewIsUnknown(info, refs, inCache, lru, inUse, deleted, e);
      NewEntryIsNotFound(Table(), info, inCache, e, Info(key, charge));
      NewEntryIsCounted(refs, held, inCache, e, true);
      NewEntryIsListed(info, refs, inCache, lru, inUse, e, Info(key, charge));
      NewEntryIsLive(info, refs, deleted, e, Info(key, charge), 2);
      nextHandle := nextHandle + 1;
      info, refs, held := info[e := Info(key, charge)], refs[e := 2], held[e := 1];
      inCache, inUse, usage := inCache + {e}, inUse + [e], usage + charge;
    }

    method AddCached(key: int, charge: nat, e: nat)
      requires Valid() && e == nextHandle
      modifies this, handles
      ensures Valid() && e in held && held[e] == 1 && info == old(info)[e := Info(key, charge)] && e in inUse
      ensures inCache == old(inCache) + {e} - Replaced(old(Table()), key)
      ensures lru == if key in old(Table()) then Without(old(lru), old(Table())[key]) else old(lru)
      ensures capacity == old(capacity) && HandlesOutStay(old(held), held)
    {
      hide Listed, Freed, Tabled, Counted, HandlesOutStay;
      AppendNew(key, charge, e);
      NewHandleKeepsOthers(old(held), e);
      TableGains(Table(), info, inCache, key, e);
      var before := handles.Insert(Handle(e, key, handles.hashOf(key)));
      ghost var held1 := held;
      if before.Some? { EraseReplaced(before.value, e); }
      HandlesOutStayTwice(old(held), held1, held);
    }

    method AddUncached(key: int, charge: nat, e: nat)
      requires Valid() && e == nextHandle
      modifies this`nextHandle, this`info, this`refs, this`held
      ensures Valid() && e in held && held[e] == 1 && info == old(info)[e := Info(key, charge)] && e !in inCache
      ensures inCache == old(inCache)
      ensures HandlesOutStay(old(held), held)
    {
      hide Listed, Freed, Tabled;
      NewIsUnknown(info, refs, inCache, lru, inUse, deleted, e);
      NewEntryKeepsTable(Table(), info, inCache, e, Info(key, charge));
      NewEntryIsCounted(refs, held, inCache, e, false);
      UncachedIsUnlisted(refs, inCache, lru, inUse, e, 1);
      NewChargesAlike(info, lru, inUse, e, Info(key, charge));
      NewEntryIsLive(info, refs, deleted, e, Info(key, charge), 1);
      nextHandle := nextHandle + 1;
      info, refs, held := info[e := Info(key, charge)], refs[e := 1], held[e := 1];
    }

    method EraseReplaced(replaced: nat, ghost e: nat)
      requires Core() && replaced in inCache && Tabled(Table(), info, inCache, {replaced}) && e in inUse &&
               e != replaced
      requires e in held && held[e] == 1
      modifies this`refs, this`lru, this`inUse, this`held, this`deleted, this`inCache, this`usage
      ensures Valid() && lru == Without(old(lru), replaced) && e in inUse && e in held && held[e] == 1
      ensures inCache == old(inCache) - {replaced}
      ensures HandlesOutStay(old(held), held)
    {
      assert CountedOne(refs, held, inCache, replaced);
      FinishErase(replaced);
    }

    /** Evicts the oldest entry of the lru list. */
    method EvictOldest()
      requires Valid() && |lru| > 0
      modifies this`refs, this`lru, this`inUse, this`held, this`deleted, this`inCache, this`usage, handles
      ensures Valid() && inCache == old(inCache) - {old(lru)[0]}
      ensures lru == old(lru)[1..] && inUse == old(inUse) && deleted == old(deleted) + [old(lru)[0]]
      ensures old(lru)[0] in info && usage + info[old(lru)[0]].charge == old(usage)
      ensures HandlesOutStay(old(held), held)
    {
      var e := lru[0];
      assert e in lru;
      assert CountedOne(refs, held, inCache, e) && e !in inUse;
      OldestIsFirst(lru);
      WithoutAbsent(inUse, e);
      TableForgets(Table(), info, inCache, info[e].key);
      var removed := handles.Remove(info[e].key, handles.hashOf(info[e].key));
      FinishErase(e);
    }

    method Prune()
      requires Valid()
      modifies this`refs, this`lru, this`inUse, this`held, this`deleted, this`inCache, this`usage, handles
      ensures Valid() && lru == [] && inUse == old(inUse) && deleted == old(deleted) + old(lru)
      ensures HandlesOutStay(old(held), held)
    {
      hide Counted, Listed, Freed, Charged, Tabled, HandlesOutStay;
      ghost var n := 0;
      HandlesOutStayTwice(held, held, held);
      while |lru| > 0
        invariant Valid() && n <= |old(lru)| && lru == old(lru)[n..] && inUse == old(inUse)
        invariant deleted == old(deleted) + old(lru)[..n] && HandlesOutStay(old(held), held)
        decreases |lru|
      {
        ghost var before := held;
        EvictOldest();
        HandlesOutStayTwice(old(held), before, held);
        assert old(lru)[..n + 1] == old(lru)[..n] + [old(lru)[n]];
        n := n + 1;
      }
      assert old(lru)[..n] == old(lru);
    }

    /** Evicts the oldest entries while too much is charged, and no more than that. */
    method EvictToCapacity() returns (ghost n: nat)
      requires Valid()
      modifies this`refs, this`lru, this`inUse, this`held, this`deleted, this`inCache, this`usage, handles
      ensures Valid() && n <= |old(lru)| && lru == old(lru)[n..] && inUse == old(inUse)
      ensures forall h :: h in inCache <==> h in old(inCache) && h !in old(lru)[..n]
      ensures deleted == old(deleted) + old(lru)[..n] && HandlesOutStay(old(held), held)
      ensures usage <= capacity || lru == []
      ensures n > 0 ==> old(lru)[n - 1] in info && usage + info[old(lru)[n - 1]].charge > capacity
    {
      hide Counted, Listed, Freed, Charged, Tabled, HandlesOutStay;
      n := 0;
      HandlesOutStayTwice(held, held, held);
      while usage > capacity && |lru| > 0
        invariant Valid() && n <= |old(lru)| && lru == old(lru)[n..] && inUse == old(inUse)
        invariant forall h :: h in inCache <==> h in old(inCache) && h !in old(lru)[..n]
        invariant deleted == old(deleted) + old(lru)[..n] && HandlesOutStay(old(held), held)
        invariant n > 0 ==> old(lru)[n - 1] in info && usage + info[old(lru)[n - 1]].charge > capacity
        decreases |lru|
      {
        ghost var before := held;
        EvictOldest();
        HandlesOutStayTwice(old(held), before, held);
        assert old(lru)[..n + 1] == old(lru)[..n] + [old(lru)[n]];
        n := n + 1;
      }
    }

    /** A new entry, replacing one with the same key, is held by the caller; then the oldest unused entries go.
        Without any capacity the entry is not cached at all. */
    method Insert(key: int, charge: nat) returns (e: nat, ghost evicted: nat)
      requires Valid()
      modifies this, handles
      ensures Valid() && e == old(nextHandle) && e in held && held[e] == 1 && info == old(info)[e := Info(key, charge)]
      ensures capacity == old(capacity) && if capacity > 0 then key in Table() && Table()[key] == e else e !in inCache
      ensures HandlesOutStay(old(held), held)
      ensures usage <= capacity || lru == []
      ensures var rest :=
                if capacity > 0 && key in old(Table()) then Without(old(lru), old(Table())[key]) else old(lru);
              evicted <= |rest| && lru == rest[evicted..] &&
              (evicted > 0 ==> rest[evicted - 1] in info && usage + info[rest[evicted - 1]].charge > capacity) &&
              OthersStay(old(Table()), Table(), rest[..evicted], if capacity > 0 then {key} else {})
    {
      hide Counted, Listed, Freed, Charged, HandlesOutStay, Tabled, OthersStay;
      KnownHandles(Table(), info, refs, inCache, deleted, nextHandle, held);
      e := AddEntry(key, charge);
      ghost var before := held;
      ghost var used := inUse;
      ghost var rest := lru;
      evicted := EvictToCapacity();
      ghost var gone := rest[..evicted];
      HandlesOutStayTwice(old(held), before, held);
      HandleStays(before, held, e);
      NewStaysInUse(refs, inCache, lru, inUse, e);
      TableFindsCached(Table(), info, inCache, e);
      OthersFollow(old(Table()), old(info), old(inCache), Table(), info, inCache, e, key, capacity > 0, gone);
    }
  }

  /** The entry that a new one with the same key replaces. */
  ghost function Replaced(table: map<int, nat>, key: int): set<nat> { if key in table then {table[key]} else {} }

  /** But for some keys, the table finds what it found before, except what is gone. */
  ghost predicate OthersStay(table: map<int, nat>, table': map<int, nat>, gone: seq<nat>, except: set<int>) {
    forall k :: k !in except ==>
      (k in table' <==> k in table && table[k] !in gone) && (k in table' ==> table'[k] == table[k])
  }

  lemma KnownHandles(table: map<int, nat>, info: map<nat, Info>, refs: map<nat, nat>, inCache: set<nat>,
                     deleted: seq<nat>, next: nat, held: map<nat, nat>)
    requires Counted(refs, held, inCache) && Freed(info, refs, deleted, next)
    ensures next !in info && next !in inCache && forall h :: h in inCache ==> h in info
  {
  }

  lemma OthersFollow(table: map<int, nat>, info: map<nat, Info>, inCache: set<nat>, table': map<int, nat>,
                     info': map<nat, Info>, inCache': set<nat>, e: nat, key: int, cached: bool, gone: seq<nat>)
    requires Tabled(table, info, inCache, {}) && Tabled(table', info', inCache', {}) && e !in info
    requires exists charge :: info' == info[e := Info(key, charge)]
    requires forall h :: h in inCache' <==>
               (if cached then (h in inCache || h == e) && h !in Replaced(table, key) else h in inCache) && h !in gone
    ensures OthersStay(table, table', gone, if cached then {key} else {})
  {
  }

  /** An entry on the in-use list is cached, so the table finds it. */
  lemma TableFindsCached(table: map<int, nat>, info: map<nat, Info>, inCache: set<nat>, e: nat)
    requires Tabled(table, info, inCache, {}) && e in info
    ensures e in inCache ==> info[e].key in table && table[info[e].key] == e
  {
  }

  lemma NewStaysInUse(refs: map<nat, nat>, inCache: set<nat>, lru: seq<nat>, inUse: seq<nat>, e: nat)
    requires Listed(refs, inCache, lru, inUse)
    ensures e in inUse ==> e in inCache
  {
  }

  lemma HandlesOutStayTwice(a: map<nat, nat>, b: map<nat, nat>, c: map<nat, nat>)
    requires a == b || HandlesOutStay(a, b)
    requires b == c || HandlesOutStay(b, c)
    ensures HandlesOutStay(a, c)
  {
  }

  lemma HandleStays(a: map<nat, nat>, b: map<nat, nat>, e: nat)
    requires HandlesOutStay(a, b) && e in a && a[e] > 0
    ensures e in b && b[e] == a[e]
  {
  }

  /** No handle that a client holds is freed, and none is taken from it. */
  ghost predicate HandlesOutStay(held: map<nat, nat>, held': map<nat, nat>) {
    forall h :: h in held && held[h] > 0 ==> h in held' && held'[h] == held[h]
  }

  /** The count of e is one more than what clients and the cache account for. */
  ghost predicate OneTooMany(refs: map<nat, nat>, held: map<nat, nat>, inCache: set<nat>, e: nat) {
    held.Keys == refs.Keys && inCache <= refs.Keys && e in refs &&
    refs[e] == held[e] + (if e in inCache then 1 else 0) + 1 &&
    forall h :: h in refs && h != e ==> CountedOne(refs, held, inCache, h)
  }

  lemma LastIsUnclaimed(refs: map<nat, nat>, held: map<nat, nat>, inCache: set<nat>, e: nat)
    requires OneTooMany(refs, held, inCache, e)
    ensures refs[e] >= 1 && (refs[e] == 1 ==> held[e] == 0 && e !in inCache) && (e in inCache ==> refs[e] >= 2)
  {
  }

  lemma LiveIsKnown(info: map<nat, Info>, refs: map<nat, nat>, deleted: seq<nat>, next: nat, e: nat)
    requires Freed(info, refs, deleted, next) && e in refs
    ensures e in info
  {
  }

  lemma FreeingOnce(info: map<nat, Info>, refs: map<nat, nat>, deleted: seq<nat>, next: nat, e: nat)
    requires Freed(info, refs, deleted, next) && e in refs
    ensures Freed(info, refs - {e}, deleted + [e], next)
  {
    forall i | 0 <= i < |deleted| ensures deleted[i] != e { assert deleted[i] in deleted; }
  }

  lemma RecountingIsNoFreeing(info: map<nat, Info>, refs: map<nat, nat>, deleted: seq<nat>, next: nat, e: nat, n: nat)
    requires Freed(info, refs, deleted, next) && e in refs
    ensures Freed(info, refs[e := n], deleted, next)
  {
  }

  lemma FreedIsCounted(refs: map<nat, nat>, held: map<nat, nat>, inCache: set<nat>, e: nat)
    requires OneTooMany(refs, held, inCache, e) && refs[e] == 1
    ensures Counted(refs - {e}, held - {e}, inCache)
  {
    forall h | h in refs - {e} ensures CountedOne(refs - {e}, held - {e}, inCache, h) {
      assert CountedOne(refs, held, inCache, h);
    }
    assert (held - {e}).Keys == (refs - {e}).Keys;
  }

  lemma FewerIsCounted(refs: map<nat, nat>, held: map<nat, nat>, inCache: set<nat>, e: nat)
    requires OneTooMany(refs, held, inCache, e) && refs[e] >= 2
    ensures Counted(refs[e := refs[e] - 1], held, inCache)
  {
    forall h | h in refs ensures CountedOne(refs[e := refs[e] - 1], held, inCache, h) {
      if h != e { assert CountedOne(refs, held, inCache, h); }
    }
  }

  lemma UncachingLeavesOne(refs: map<nat, nat>, held: map<nat, nat>, inCache: set<nat>, e: nat)
    requires Counted(refs, held, inCache) && e in inCache
    ensures OneTooMany(refs, held, inCache - {e}, e)
  {
    forall h | h in refs && h != e ensures CountedOne(refs, held, inCache - {e}, h) {
      assert CountedOne(refs, held, inCache, h);
    }
    assert CountedOne(refs, held, inCache, e);
  }

  lemma ReleasingLeavesOne(refs: map<nat, nat>, held: map<nat, nat>, inCache: set<nat>, e: nat)
    requires Counted(refs, held, inCache) && e in held && held[e] > 0
    ensures OneTooMany(refs, held[e := held[e] - 1], inCache, e)
  {
    forall h | h in refs && h != e ensures CountedOne(refs, held[e := held[e] - 1], inCache, h) {
      assert CountedOne(refs, held, inCache, h);
    }
    assert CountedOne(refs, held, inCache, e);
  }

  lemma TableForgets(table: map<int, nat>, info: map<nat, Info>, inCache: set<nat>, key: int)
    requires Tabled(table, info, inCache, {})
    ensures Tabled(table - {key}, info, inCache, if key in table then {table[key]} else {})
    ensures key in table ==> table[key] in inCache
  {
  }

  lemma CachedIsCounted(refs: map<nat, nat>, held: map<nat, nat>, inCache: set<nat>, e: nat)
    requires Counted(refs, held, inCache) && e in inCache
    ensures e in refs && e in held && (refs[e] == 1 <==> held[e] == 0)
  {
    assert CountedOne(refs, held, inCache, e);
  }

  lemma ErasedKeepsHandles(held: map<nat, nat>, e: nat)
    ensures e in held && held[e] == 0 ==> HandlesOutStay(held, held - {e})
  {
  }

  lemma OldestIsFirst(lru: seq<nat>)
    requires NoDuplicates(lru) && |lru| > 0
    ensures Without(lru, lru[0]) == lru[1..]
  {
    forall i | 0 <= i < |lru[1..]| ensures lru[1..][i] != lru[0] { assert lru[0] != lru[i + 1]; }
    WithoutAbsent(lru[1..], lru[0]);
  }

  lemma CountsMove(refs: map<nat, nat>, held: map<nat, nat>, inCache: set<nat>, refs': map<nat, nat>,
                   held': map<nat, nat>, e: nat)
    requires Counted(refs, held, inCache) && e in refs && refs' == refs[e := refs[e] + 1] &&
             held' == held[e := held[e] + 1]
    ensures Counted(refs', held', inCache)
  {
    forall h | h in refs' ensures CountedOne(refs', held', inCache, h) { assert CountedOne(refs, held, inCache, h); }
  }

  // ---------------------------------------------------------------- a new entry

  lemma NewIsUnknown(info: map<nat, Info>, refs: map<nat, nat>, inCache: set<nat>, lru: seq<nat>, inUse: seq<nat>,
                     deleted: seq<nat>, next: nat)
    requires Freed(info, refs, deleted, next) && inCache <= refs.Keys && Listed(refs, inCache, lru, inUse)
    ensures next !in info && next !in refs && next !in deleted && next !in inCache && next !in lru && next !in inUse
  {
  }

  lemma CachedAreLive(refs: map<nat, nat>, held: map<nat, nat>, inCache: set<nat>)
    requires Counted(refs, held, inCache)
    ensures inCache <= refs.Keys && held.Keys == refs.Keys
  {
  }

  lemma NewHandleKeepsOthers(held: map<nat, nat>, e: nat)
    requires e !in held
    ensures HandlesOutStay(held, held[e := 1])
  {
  }

  lemma NewEntryIsCounted(refs: map<nat, nat>, held: map<nat, nat>, inCache: set<nat>, e: nat, cached: bool)
    requires Counted(refs, held, inCache) && e !in refs
    ensures Counted(refs[e := if cached then 2 else 1], held[e := 1], if cached then inCache + {e} else inCache)
  {
    var refs', held' := refs[e := if cached then 2 else 1], held[e := 1];
    var inCache' := if cached then inCache + {e} else inCache;
    forall h | h in refs' ensures CountedOne(refs', held', inCache', h) {
      if h != e { assert CountedOne(refs, held, inCache, h); }
    }
  }

  lemma NewEntryIsListed(info: map<nat, Info>, refs: map<nat, nat>, inCache: set<nat>, lru: seq<nat>, inUse: seq<nat>,
                         e: nat, i: Info)
    requires Listed(refs, inCache, lru, inUse) && e !in info && e !in lru && e !in inUse && e !in inCache
    ensures Listed(refs[e := 2], inCache + {e}, lru, inUse + [e])
    ensures Charges(info[e := i], lru) + Charges(info[e := i], inUse + [e]) ==
            Charges(info, lru) + Charges(info, inUse) + i.charge
  {
    NewChargesAlike(info, lru, inUse, e, i);
    ChargesAppend(info[e := i], inUse, e);
    forall k | 0 <= k < |inUse| ensures inUse[k] != e { assert inUse[k] in inUse; }
  }

  lemma NewChargesAlike(info: map<nat, Info>, lru: seq<nat>, inUse: seq<nat>, e: nat, i: Info)
    requires e !in lru && e !in inUse
    ensures Charges(info[e := i], lru) == Charges(info, lru) && Charges(info[e := i], inUse) == Charges(info, inUse)
  {
    ChargesIgnoreNew(info, lru, e, i);
    ChargesIgnoreNew(info, inUse, e, i);
  }

  lemma NewEntryIsLive(info: map<nat, Info>, refs: map<nat, nat>, deleted: seq<nat>, e: nat, i: Info, n: nat)
    requires Freed(info, refs, deleted, e)
    ensures Freed(info[e := i], refs[e := n], deleted, e + 1)
  {
  }

  lemma NewEntryKeepsTable(table: map<int, nat>, info: map<nat, Info>, inCache: set<nat>, e: nat, i: Info)
    requires Tabled(table, info, inCache, {}) && e !in info
    ensures Tabled(table, info[e := i], inCache, {})
  {
  }

  lemma NewEntryIsNotFound(table: map<int, nat>, info: map<nat, Info>, inCache: set<nat>, e: nat, i: Info)
    requires Tabled(table, info, inCache, {}) && e !in info
    ensures Tabled(table, info[e := i], inCache + {e}, {e})
  {
  }

  /** The new entry takes its key over from the one that had it. */
  lemma TableGains(table: map<int, nat>, info: map<nat, Info>, inCache: set<nat>, key: int, e: nat)
    requires Tabled(table, info, inCache, {e}) && e in inCache && e in info && info[e].key == key
    ensures Tabled(table[key := e], info, inCache, if key in table then {table[key]} else {})
    ensures key in table ==> table[key] in inCache && table[key] != e
  {
  }
}
