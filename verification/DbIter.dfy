/** The user-level iterator over versioned entries (db/db_iter.cc). */
module DbIter {
  import opened InternalKeys
  import opened Iterators

  /** Some entry before position p is a version of key k that a reader at s may see. */
  ghost predicate Seen(es: seq<Entry>, s: nat, p: nat, k: int) {
    exists j :: 0 <= j < p && j < |es| && es[j].key == k && es[j].sn <= s
  }

  /** Entry i is what a reader at s finds under its key: its newest visible version, and a value. */
  ghost predicate Visible(es: seq<Entry>, s: nat, i: int) {
    0 <= i < |es| && es[i].sn <= s && es[i].op.Put? && !Seen(es, s, i, es[i].key)
  }

  /** The first visible entry behind lo, or |es|. */
  ghost predicate FirstBehind(es: seq<Entry>, s: nat, lo: int, i: int) {
    lo < i <= |es| && (i < |es| ==> Visible(es, s, i)) && NoneBetween(es, s, lo, i)
  }

  /** The last visible entry before hi, or -1. */
  ghost predicate LastBefore(es: seq<Entry>, s: nat, hi: int, i: int) {
    -1 <= i < hi && (i >= 0 ==> Visible(es, s, i)) && NoneBetween(es, s, i, hi)
  }

  ghost predicate NoneBetween(es: seq<Entry>, s: nat, lo: int, hi: int) {
    forall j :: lo < j < hi ==> !Visible(es, s, j)
  }

  /** At position p, exactly the entries of key up to skip are hidden by entries already passed, as far as they
      lie behind lo. */
  ghost predicate Skips(es: seq<Entry>, s: nat, p: nat, lo: int, skip: Option<int>) {
    (forall i :: p <= i < |es| && Seen(es, s, p, es[i].key) ==> skip.Some? && es[i].key <= skip.value) &&
    (forall i :: p <= i < |es| && i > lo && skip.Some? && es[i].key <= skip.value ==> !Visible(es, s, i)) &&
    (forall i :: p <= i < |es| && i <= lo ==> skip.Some? && es[i].key <= skip.value && (i < lo ==> es[i].sn > s))
  }

  /** What the loop does not skip is what a reader finds. */
  lemma NotSkipped(es: seq<Entry>, s: nat, p: nat, lo: int, skip: Option<int>)
    requires p < |es| && Skips(es, s, p, lo, skip) && es[p].sn <= s && es[p].op.Put?
    requires skip.None? || es[p].key > skip.value
    ensures Visible(es, s, p) && p > lo
  {
  }

  lemma KeysAscend(es: seq<Entry>, i: nat, j: nat)
    requires Sorted(es) && i <= j < |es|
    ensures es[i].key <= es[j].key
  {
    if i < j { assert Before(es[i], es[j]); }
  }

  lemma SeenGrows(es: seq<Entry>, s: nat, p: nat, k: int)
    requires p < |es|
    ensures Seen(es, s, p + 1, k) <==> Seen(es, s, p, k) || (es[p].key == k && es[p].sn <= s)
  {
  }

  /** One entry passed over: a deletion that may be seen starts hiding its key. */
  lemma SkipStep(es: seq<Entry>, s: nat, p: nat, lo: int, skip: Option<int>, skip': Option<int>)
    requires Sorted(es) && p < |es| && Skips(es, s, p, lo, skip)
    requires if es[p].sn <= s && es[p].op.Delete? then skip' == Some(es[p].key)
             else skip' == skip && (es[p].sn <= s ==> skip.Some? && es[p].key <= skip.value)
    ensures Skips(es, s, p + 1, lo, skip') && (p > lo ==> !Visible(es, s, p))
  {
    if p > lo && es[p].sn <= s && es[p].op.Put? { assert !Visible(es, s, p); }
    forall i | p + 1 <= i < |es| ensures Seen(es, s, p + 1, es[i].key) ==> skip'.Some? && es[i].key <= skip'.value
                                 ensures i > lo && skip'.Some? && es[i].key <= skip'.value ==> !Visible(es, s, i)
    {
      SeenGrows(es, s, p, es[i].key);
      KeysAscend(es, p, i);
      SeenBefore(es, s, p, i);
    }
  }

  /** What is seen at p is still seen later, and has a key no larger than the entry at p. */
  lemma SeenBefore(es: seq<Entry>, s: nat, p: nat, i: nat)
    requires Sorted(es) && p < i < |es|
    ensures es[p].sn <= s && es[p].key == es[i].key ==> !Visible(es, s, i)
    ensures Seen(es, s, p, es[i].key) ==> es[p].key == es[i].key
  {
    KeysAscend(es, p, i);
    if Seen(es, s, p, es[i].key) {
      var j :| 0 <= j < p && es[j].key == es[i].key && es[j].sn <= s;
      KeysAscend(es, j, p);
    }
  }

  class DBIter {
    const iter: MergingIterator
    const sequence: SequenceNumber
    var savedKey: Option<int>      // the current key when moving backward
    var savedValue: UserValue         // the current value when moving backward
    var forward: bool
    var valid: bool
    ghost var cur: int             // the position of the current entry in the merged run

    /** Moving forward, the internal iterator stands on the current entry; moving backward, before every entry of
        the current key that may be seen. */
    ghost predicate Ok()
      reads this, iter, iter.children
    {
      iter.Ok() &&
      (valid ==> Visible(iter.merged, sequence, cur)) &&
      (valid && forward ==> iter.at == cur) &&
      (valid && !forward ==> Saved(cur) && BeforeKey(iter.at, cur))
    }

    ghost predicate Saved(q: int)
      reads this
      requires 0 <= q < |iter.merged| && iter.merged[q].op.Put?
    {
      savedKey == Some(iter.merged[q].key) && savedValue == iter.merged[q].op.value
    }

    /** Nothing between p and q may be seen, and p has another key. */
    ghost predicate BeforeKey(p: int, q: int)
      requires 0 <= q < |iter.merged|
    {
      -1 <= p < q && (forall j :: p < j < q ==> iter.merged[j].sn > sequence) &&
      (p >= 0 ==> iter.merged[p].key < iter.merged[q].key)
    }

    constructor (iter: MergingIterator, s: SequenceNumber)
      requires iter.Ok()
      ensures Ok() && !valid && this.iter == iter && sequence == s
    {
      this.iter, sequence := iter, s;
      savedKey, savedValue, forward, valid, cur := None, [], true, false, -1;
    }

    function Key(): (k: int)
      reads this, iter, iter.children
      requires Ok() && valid
      ensures k == iter.merged[cur].key
    {
      if forward then iter.Key().key else savedKey.value
    }

    function Value(): (v: UserValue)
      reads this, iter, iter.children
      requires Ok() && valid
      ensures Put(v) == iter.merged[cur].op
    {
      if forward then iter.Key().op.value else savedValue
    }

    method FindNextUserEntry(skip: Option<int>, ghost lo: int)
      requires iter.Ok() && iter.Valid() && forward && lo >= -1
      requires Skips(iter.merged, sequence, iter.at, lo, skip) && NoneBetween(iter.merged, sequence, lo, iter.at)
      requires lo < |iter.merged|
      modifies this, iter, iter.children
      ensures Ok() && forward && (valid <==> cur < |iter.merged|) && FirstBehind(iter.merged, sequence, lo, cur)
    {
      hide MergingIterator.Ok;
      hide Skips, Visible, FirstBehind;
      ghost var es, s := iter.merged, sequence;
      var skipping := skip;
      while true
        invariant iter.Ok() && iter.Valid() && forward
        invariant Skips(es, s, iter.at, lo, skipping) && NoneBetween(es, s, lo, iter.at)
        decreases |es| - iter.at
      {
        var ikey := iter.Key();
        ghost var before := skipping;
        if ikey.sn <= sequence {
          match ikey.op {
            case Delete => skipping := Some(ikey.key);
            case Put(_) =>
              if skipping.Some? && ikey.key <= skipping.value {
              } else {
                NotSkipped(es, s, iter.at, lo, skipping);
                FoundFirst(es, s, lo, iter.at);
                valid, savedKey, cur := true, None, iter.at;
                return;
              }
          }
        }
        SkipStep(es, s, iter.at, lo, before, skipping);
        iter.Next();
        if !iter.Valid() { break; }
      }
      savedKey, valid, cur := None, false, |es|;
      FoundFirst(es, s, lo, |es|);
    }

    method Next()
      requires Ok() && valid
      modifies this, iter, iter.children
      ensures Ok() && forward && (valid <==> cur < |iter.merged|) && FirstBehind(iter.merged, sequence, old(cur), cur)
    {
      hide MergingIterator.Ok;
      hide BeforeKey;
      ghost var lo := cur;
      if !forward {
        forward := true;
        ReenterKey(iter.at, cur);
        if !iter.Valid() {
          iter.SeekToFirst();
        } else {
          iter.Next();
        }
        if !iter.Valid() {
          FoundFirst(iter.merged, sequence, cur, |iter.merged|);
          valid, savedKey, cur := false, None, |iter.merged|;
          return;
        }
      } else {
        savedKey := Some(iter.Key().key);
        CurrentIsSkipped(cur);
      }
      FindNextUserEntry(savedKey, lo);
    }

    lemma CurrentIsSkipped(q: nat)
      requires Sorted(iter.merged) && Visible(iter.merged, sequence, q)
      ensures Skips(iter.merged, sequence, q, q, Some(iter.merged[q].key)) && NoneBetween(iter.merged, sequence, q, q)
    {
      var es, s := iter.merged, sequence;
      forall i | q <= i < |es|
        ensures Seen(es, s, q, es[i].key) ==> es[i].key <= es[q].key
        ensures i > q && es[i].key <= es[q].key ==> !Visible(es, s, i)
      {
        KeysAscend(es, q, i);
        if i > q { SeenBefore(es, s, q, i); }
      }
    }

    /** From just before the entries of the current key, one step forward. */
    lemma ReenterKey(p: int, q: nat)
      requires Sorted(iter.merged) && Visible(iter.merged, sequence, q) && BeforeKey(p, q)
      ensures p + 1 < |iter.merged| ==> Skips(iter.merged, sequence, p + 1, q, Some(iter.merged[q].key))
      ensures NoneBetween(iter.merged, sequence, q, p + 1) && -1 <= p < |iter.merged|
      ensures p + 1 >= |iter.merged| ==> NoneBetween(iter.merged, sequence, q, |iter.merged|)
    {
      var es, s := iter.merged, sequence;
      forall i | p + 1 <= i < |es|
        ensures Seen(es, s, p + 1, es[i].key) ==> es[i].key <= es[q].key
        ensures i > q && es[i].key <= es[q].key ==> !Visible(es, s, i)
        ensures i <= q ==> es[i].key <= es[q].key
      {
        if i <= q { KeysAscend(es, i, q); } else { KeysAscend(es, q, i); }
        if i > q { SeenBefore(es, s, q, i); }
        if j :| 0 <= j < p + 1 && es[j].key == es[i].key && es[j].sn <= s { KeysAscend(es, j, p); }
      }
    }

    // -------------------------------------------------------------- backward

    /** q is the last entry passed that may be seen, and it is a value. */
    ghost predicate Pending(p: int, q: int, hi: int)
      reads this
    {
      -1 <= p < q < hi <= |iter.merged| && iter.merged[q].op.Put? && iter.merged[q].sn <= sequence && Saved(q) &&
      (forall j :: p < j < q ==> iter.merged[j].sn > sequence) && NoneBetween(iter.merged, sequence, q, hi)
    }

    /** Passing one more entry that may be seen makes it the pending one, or leaves none if it is a deletion. */
    lemma PassBackward(p: nat, q: int, hi: int, deleted: bool)
      requires Sorted(iter.merged) && p < hi <= |iter.merged| && iter.merged[p].sn <= sequence
      requires if deleted then NoneBetween(iter.merged, sequence, p, hi)
               else Pending(p, q, hi) && iter.merged[p].key >= iter.merged[q].key
      ensures NoneBetween(iter.merged, sequence, p, hi)
    {
      if !deleted {
        KeysAscend(iter.merged, p, q);
        SeenBefore(iter.merged, sequence, p, q);
      }
    }

    lemma PendingIsVisible(p: int, q: int, hi: int)
      requires Sorted(iter.merged) && Pending(p, q, hi)
      requires p >= 0 ==> iter.merged[p].key < iter.merged[q].key
      ensures Visible(iter.merged, sequence, q) && LastBefore(iter.merged, sequence, hi, q) && BeforeKey(p, q)
    {
      var es := iter.merged;
      forall j | 0 <= j < q && es[j].key == es[q].key ensures es[j].sn > sequence {
        if j <= p { KeysAscend(es, j, p); }
      }
    }

    method FindPrevUserEntry(ghost hi: int)
      requires iter.Ok() && !forward && iter.at < hi <= |iter.merged| && NoneBetween(iter.merged, sequence, iter.at, hi)
      modifies this, iter, iter.children
      ensures Ok() && (valid <==> cur >= 0) && LastBefore(iter.merged, sequence, hi, cur)
    {
      hide MergingIterator.Ok;
      hide Visible, LastBefore, BeforeKey;
      var deleted := true;
      ghost var q := hi;
      while iter.Valid()
        invariant iter.Ok() && !forward && iter.at < hi
        invariant deleted ==> NoneBetween(iter.merged, sequence, iter.at, hi)
        invariant !deleted ==> Pending(iter.at, q, hi)
        decreases iter.at + 1
      {
        var ikey := iter.Key();
        if ikey.sn <= sequence {
          if !deleted && ikey.key < savedKey.value { break; }
          PassBackward(iter.at, q, hi, deleted);
          deleted := ikey.op.Delete?;
          if deleted {
            savedKey, savedValue := None, [];
          } else {
            savedKey, savedValue := Some(ikey.key), ikey.op.value;
          }
          q := iter.at;
        }
        if deleted { NotVisibleHere(iter.merged, sequence, iter.at, hi); }
        iter.Prev();
      }
      if deleted {
        NoneLeft(iter.merged, sequence, hi);
        valid, savedKey, savedValue, forward, cur := false, None, [], true, -1;
      } else {
        PendingIsVisible(iter.at, q, hi);
        valid, cur := true, q;
      }
    }

    method Prev()
      requires Ok() && valid
      modifies this, iter, iter.children
      ensures Ok() && (valid <==> cur >= 0) && LastBefore(iter.merged, sequence, old(cur), cur)
    {
      hide MergingIterator.Ok;
      ghost var es, s, q := iter.merged, sequence, cur;
      if forward {
        savedKey := Some(iter.Key().key);
        while true
          invariant iter.Ok() && iter.Valid() && forward && 0 <= iter.at <= q && savedKey == Some(es[q].key)
          invariant forall j :: iter.at <= j < q ==> es[j].key == es[q].key
          decreases iter.at
        {
          iter.Prev();
          if !iter.Valid() {
            SameKeyIsHidden(es, s, -1, q);
            NoneLeft(es, s, q);
            valid, savedKey, savedValue, cur := false, None, [], -1;
            return;
          }
          if iter.Key().key < savedKey.value { break; }
          KeysAscend(es, iter.at, q);
        }
        SameKeyIsHidden(es, s, iter.at, q);
        forward := false;
      } else {
        UnseenIsHidden(es, s, iter.at, q);
      }
      FindPrevUserEntry(q);
    }

    // -------------------------------------------------------------- seeking

    method Seek(k: int)
      requires Ok()
      modifies this, iter, iter.children
      ensures Ok() && forward && (valid <==> cur < |iter.merged|) && 0 <= cur <= |iter.merged|
      ensures valid ==> iter.merged[cur].key >= k
      ensures forall j :: 0 <= j < cur && Visible(iter.merged, sequence, j) ==> iter.merged[j].key < k
    {
      hide MergingIterator.Ok, Skips, Visible;
      forward, savedValue, savedKey := true, [], None;
      iter.Seek(k, sequence);
      ghost var lo := iter.at - 1;
      SeekStart(iter.merged, sequence, k, iter.at);
      if iter.Valid() {
        FindNextUserEntry(None, lo);
      } else {
        valid, cur := false, |iter.merged|;
      }
    }

    method SeekToFirst()
      requires Ok()
      modifies this, iter, iter.children
      ensures Ok() && forward && (valid <==> cur < |iter.merged|) && FirstBehind(iter.merged, sequence, -1, cur)
    {
      forward, savedValue := true, [];
      iter.SeekToFirst();
      if iter.Valid() {
        FindNextUserEntry(None, -1);
      } else {
        valid, cur := false, |iter.merged|;
      }
    }

    method SeekToLast()
      requires Ok()
      modifies this, iter, iter.children
      ensures Ok() && (valid <==> cur >= 0) && LastBefore(iter.merged, sequence, |iter.merged|, cur)
    {
      forward, savedValue := false, [];
      iter.SeekToLast();
      FindPrevUserEntry(|iter.merged|);
    }
  }

  lemma NotVisibleHere(es: seq<Entry>, s: nat, p: nat, hi: int)
    requires NoneBetween(es, s, p, hi) && p < |es| && (es[p].sn > s || es[p].op.Delete?)
    ensures NoneBetween(es, s, p - 1, hi)
  {
  }

  lemma NoneLeft(es: seq<Entry>, s: nat, hi: int)
    requires NoneBetween(es, s, -1, hi) && hi >= 0
    ensures LastBefore(es, s, hi, -1)
  {
  }

  lemma SameKeyIsHidden(es: seq<Entry>, s: nat, p: int, q: nat)
    requires Visible(es, s, q) && -1 <= p < q && forall j :: p < j < q ==> es[j].key == es[q].key
    ensures NoneBetween(es, s, p, q)
  {
    forall j | p < j < q ensures !Visible(es, s, j) { assert es[j].sn <= s ==> Seen(es, s, q, es[q].key); }
  }

  lemma UnseenIsHidden(es: seq<Entry>, s: nat, p: int, q: nat)
    requires -1 <= p < q < |es| && forall j :: p < j < q ==> es[j].sn > s
    ensures NoneBetween(es, s, p, q)
  {
  }

  /** Where Seek leaves the internal iterator nothing is hidden yet, and nothing to be found was passed. */
  lemma SeekStart(es: seq<Entry>, s: nat, k: int, p: nat)
    requires Sorted(es) && LowerBound(es, k, s, p)
    ensures Skips(es, s, p, p - 1, None) && NoneBetween(es, s, p - 1, p)
    ensures forall j :: 0 <= j < p && Visible(es, s, j) ==> es[j].key < k
    ensures forall j :: p <= j < |es| ==> es[j].key >= k
  {
  }

  lemma FoundFirst(es: seq<Entry>, s: nat, lo: int, i: int)
    requires lo < i <= |es| && NoneBetween(es, s, lo, i) && (i < |es| ==> Visible(es, s, i))
    ensures FirstBehind(es, s, lo, i)
  {
  }
}
