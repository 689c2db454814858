/** The byte-wise order of user keys, the order of internal keys as bytes, and how both shorten the keys of an index
    (util/comparator.cc, db/dbformat.cc). */
module Comparators {
  import opened Varints
  import opened Coding
  import opened InternalKeys
  import Block

  // ---------------------------------------------------------------- user keys

  /** a comes before b byte by byte; a prefix comes first. */
  predicate Less(a: Bytes, b: Bytes) {
    |b| > 0 && (|a| == 0 || a[0] < b[0] || (a[0] == b[0] && Less(a[1..], b[1..])))
  }

  lemma {:induction false} LessIsTotal(a: Bytes, b: Bytes)
    ensures Less(a, b) || a == b || Less(b, a)
    ensures !(Less(a, b) && Less(b, a)) && (Less(a, b) ==> a != b)
  {
    if |a| == 0 || |b| == 0 {
    } else {
      LessIsTotal(a[1..], b[1..]);
      assert a == [a[0]] + a[1..] && b == [b[0]] + b[1..];
    }
  }

  lemma {:induction false} LessIsTransitive(a: Bytes, b: Bytes, c: Bytes)
    requires Less(a, b) && Less(b, c)
    ensures Less(a, c)
  {
    if |a| == 0 {
    } else {
      if a[0] == b[0] && b[0] == c[0] { LessIsTransitive(a[1..], b[1..], c[1..]); }
    }
  }

  /** Where two keys first differ, they differ. */
  lemma {:induction false} DifferenceDecides(a: Bytes, b: Bytes, n: nat)
    requires n < |a| && n < |b| && a[..n] == b[..n]
    ensures a[n] < b[n] ==> Less(a, b)
    ensures Less(a, b) && a[n] != b[n] ==> a[n] < b[n]
  {
    if n == 0 {
    } else {
      assert a[0] == a[..n][0] == b[..n][0] == b[0];
      assert a[1..][..n - 1] == a[..n][1..] && b[1..][..n - 1] == b[..n][1..];
      DifferenceDecides(a[1..], b[1..], n - 1);
    }
  }

  /** start cut off behind the first byte that differs from limit, and that byte one higher, where there is room. */
  function Separator(start: Bytes, limit: Bytes): Bytes {
    var n := Block.CommonPrefix(start, limit);
    if n < |start| && n < |limit| && start[n] < 255 && start[n] + 1 < limit[n] then start[..n] + [start[n] + 1]
    else start
  }

  method FindShortestSeparator(start: Bytes, limit: Bytes) returns (r: Bytes)
    ensures r == Separator(start, limit)
  {
    r := start;
    var minLength := if |start| <= |limit| then |start| else |limit|;
    var diffIndex := 0;
    while diffIndex < minLength && r[diffIndex] == limit[diffIndex]
      invariant diffIndex <= minLength && r == start && start[..diffIndex] == limit[..diffIndex]
    {
      diffIndex := diffIndex + 1;
    }
    Block.PrefixIsLongest(start, limit, diffIndex);
    if diffIndex >= minLength {
      // one is a prefix of the other
    } else {
      var diffByte := r[diffIndex];
      if diffByte < 0xff && diffByte + 1 < limit[diffIndex] {
        r := r[diffIndex := diffByte + 1];
        r := r[..diffIndex + 1];
      }
    }
  }

  lemma SeparatorSeparates(start: Bytes, limit: Bytes)
    requires Less(start, limit)
    ensures var s := Separator(start, limit); (s == start || Less(start, s)) && Less(s, limit) && |s| <= |start|
  {
    var n, s := Block.CommonPrefix(start, limit), Separator(start, limit);
    if s != start {
      assert s[..n] == start[..n] == limit[..n];
      DifferenceDecides(start, s, n);
      DifferenceDecides(s, limit, n);
    }
  }

  /** The first byte that can be raised is, and the key ends there. */
  function Successor(key: Bytes): Bytes {
    if |key| == 0 then [] else if key[0] < 255 then [key[0] + 1] else [key[0]] + Successor(key[1..])
  }

  lemma {:induction false} SuccessorOfRun(key: Bytes, n: nat)
    requires n <= |key| && (forall i :: 0 <= i < n ==> key[i] == 255) && (n < |key| ==> key[n] < 255)
    ensures Successor(key) == if n < |key| then key[..n] + [key[n] + 1] else key
  {
    if n == 0 {
    } else {
      SuccessorOfRun(key[1..], n - 1);
      assert key == [key[0]] + key[1..] && key[..n] == [key[0]] + key[1..][..n - 1];
    }
  }

  method FindShortSuccessor(key: Bytes) returns (r: Bytes)
    ensures r == Successor(key)
  {
    r := key;
    for i := 0 to |key|
      invariant r == key && forall j :: 0 <= j < i ==> key[j] == 255
    {
      var byte := r[i];
      if byte != 0xff {
        SuccessorOfRun(key, i);
        r := r[i := byte + 1];
        return r[..i + 1];
      }
    }
    SuccessorOfRun(key, |key|);
  }

  lemma {:induction false} SuccessorIsNotBelow(key: Bytes)
    ensures (Successor(key) == key || Less(key, Successor(key))) && |Successor(key)| <= |key|
  {
    if |key| == 0 {
    } else {
      SuccessorIsNotBelow(key[1..]);
      assert key == [key[0]] + key[1..];
      assert key[0] == 255 ==> Successor(key)[1..] == Successor(key[1..]);
    }
  }

  // ---------------------------------------------------------------- internal keys

  /** A user key and the eight bytes of sequence number and type. */
  predicate IsInternal(k: Bytes) { |k| >= 8 }

  function ExtractUserKey(k: Bytes): Bytes { if IsInternal(k) then k[..|k| - 8] else [] }

  function Tag(k: Bytes): nat { if IsInternal(k) then DecodeFixed64(k[|k| - 8..]) else 0 }

  /** User keys ascending, then tags descending. */
  predicate InternalLess(a: Bytes, b: Bytes) {
    Less(ExtractUserKey(a), ExtractUserKey(b)) || (ExtractUserKey(a) == ExtractUserKey(b) && Tag(a) > Tag(b))
  }

  lemma InternalLessIsTransitive(a: Bytes, b: Bytes, c: Bytes)
    requires InternalLess(a, b) && InternalLess(b, c)
    ensures InternalLess(a, c)
  {
    hide ExtractUserKey, Tag, Less;
    if Less(ExtractUserKey(a), ExtractUserKey(b)) && Less(ExtractUserKey(b), ExtractUserKey(c)) {
      LessIsTransitive(ExtractUserKey(a), ExtractUserKey(b), ExtractUserKey(c));
    }
  }

  /** Not being above is transitive too, since user keys are in a total order. */
  lemma BelowThenNotAbove(a: Bytes, b: Bytes, c: Bytes)
    requires InternalLess(a, b) && !InternalLess(c, b)
    ensures InternalLess(a, c)
  {
    hide ExtractUserKey, Tag, Less;
    var u, v, w := ExtractUserKey(a), ExtractUserKey(b), ExtractUserKey(c);
    LessIsTotal(v, w);
    if Less(u, v) && Less(v, w) { LessIsTransitive(u, v, w); }
  }

  lemma NotAboveThenBelow(a: Bytes, b: Bytes, c: Bytes)
    requires !InternalLess(b, a) && InternalLess(b, c)
    ensures InternalLess(a, c)
  {
    hide ExtractUserKey, Tag, Less;
    var u, v, w := ExtractUserKey(a), ExtractUserKey(b), ExtractUserKey(c);
    LessIsTotal(u, v);
    if Less(u, v) && Less(v, w) { LessIsTransitive(u, v, w); }
  }

  lemma InternalLessIsStrict(a: Bytes, b: Bytes)
    ensures !(InternalLess(a, b) && InternalLess(b, a))
  {
    hide ExtractUserKey, Tag, Less;
    LessIsTotal(ExtractUserKey(a), ExtractUserKey(b));
  }

  /** The tag that comes before all others of a user key. */
  const SEEK_TAG: nat := MAX_SEQUENCE_NUMBER * 256 + 1

  function WithTag(user: Bytes, tag: nat): (k: Bytes)
    ensures IsInternal(k)
  {
    user + Fixed64(tag)
  }

  lemma TaggedKey(user: Bytes, tag: nat)
    requires tag < TWO_TO_64
    ensures ExtractUserKey(WithTag(user, tag)) == user && Tag(WithTag(user, tag)) == tag
  {
    hide Fixed64, DecodeFixed64;
    var k := WithTag(user, tag);
    assert k[|k| - 8..] == Fixed64(tag);
    Fixed64IsReadBack(tag);
  }

  /** A shortened user key that is really shorter and higher gets the tag that comes first; otherwise the key stays. */
  function Shortened(key: Bytes, user: Bytes): Bytes {
    if |user| < |ExtractUserKey(key)| && Less(ExtractUserKey(key), user) then WithTag(user, SEEK_TAG) else key
  }

  function InternalSeparator(start: Bytes, limit: Bytes): Bytes {
    Shortened(start, Separator(ExtractUserKey(start), ExtractUserKey(limit)))
  }

  function InternalSuccessor(key: Bytes): Bytes { Shortened(key, Successor(ExtractUserKey(key))) }

  method FindShortestInternalSeparator(start: Bytes, limit: Bytes) returns (r: Bytes)
    ensures r == InternalSeparator(start, limit)
  {
    r := start;
    var userStart := ExtractUserKey(start);
    var tmp := FindShortestSeparator(userStart, ExtractUserKey(limit));
    if |tmp| < |userStart| && Less(userStart, tmp) { r := tmp + Fixed64(SEEK_TAG); }
  }

  method FindShortInternalSuccessor(key: Bytes) returns (r: Bytes)
    ensures r == InternalSuccessor(key)
  {
    r := key;
    var userKey := ExtractUserKey(key);
    var tmp := FindShortSuccessor(userKey);
    if |tmp| < |userKey| && Less(userKey, tmp) { r := tmp + Fixed64(SEEK_TAG); }
  }

  /** An index key lies between the last key of its block and the first one of the next; and if it is not that last key
      itself, its user key is strictly between theirs. */
  lemma InternalSeparatorSeparates(start: Bytes, limit: Bytes)
    requires InternalLess(start, limit) && IsInternal(start)
    ensures var s := InternalSeparator(start, limit);
            IsInternal(s) && !InternalLess(s, start) && InternalLess(s, limit) &&
            (s == start ||
             (Less(ExtractUserKey(start), ExtractUserKey(s)) && Less(ExtractUserKey(s), ExtractUserKey(limit))))
  {
    hide ExtractUserKey, Tag, Less, Separator, WithTag;
    var s, u, v := InternalSeparator(start, limit), ExtractUserKey(start), ExtractUserKey(limit);
    if s != start {
      if u == v {
        SeparatorOfSame(u);
        assert false;
      }
      SeparatorSeparates(u, v);
      TaggedKey(Separator(u, v), SEEK_TAG);
      LessIsTotal(u, ExtractUserKey(s));
    } else {
      InternalLessIsStrict(s, s);
    }
  }

  lemma SeparatorOfSame(u: Bytes)
    ensures Separator(u, u) == u
  {
    Block.PrefixIsLongest(u, u, |u|);
  }

  /** The index key of the last block is not below its last key. */
  lemma InternalSuccessorIsNotBelow(key: Bytes)
    requires IsInternal(key)
    ensures IsInternal(InternalSuccessor(key)) && !InternalLess(InternalSuccessor(key), key)
  {
    hide ExtractUserKey, Tag, Less, Successor, WithTag;
    var s, u := InternalSuccessor(key), ExtractUserKey(key);
    if s != key {
      TaggedKey(Successor(u), SEEK_TAG);
      LessIsTotal(u, ExtractUserKey(s));
    } else {
      InternalLessIsStrict(s, s);
    }
  }

  /** Looking for a key that comes after the last key of a block, but not after its index key, nobody misses anything by
      not looking into the blocks behind it: they do not hold the user key. */
  lemma NothingIsMissed(start: Bytes, limit: Bytes, target: Bytes, later: Bytes)
    requires InternalLess(start, limit) && IsInternal(start) && !InternalLess(later, limit)
    requires InternalLess(start, target) && !InternalLess(InternalSeparator(start, limit), target)
    ensures ExtractUserKey(later) != ExtractUserKey(target)
  {
    hide ExtractUserKey, Tag, Less, InternalSeparator;
    var s := InternalSeparator(start, limit);
    InternalSeparatorSeparates(start, limit);
    var u, v, t, w := ExtractUserKey(s), ExtractUserKey(limit), ExtractUserKey(target), ExtractUserKey(later);
    LessIsTotal(u, t);
    LessIsTotal(v, w);
    if Less(t, u) { LessIsTransitive(t, u, v); }
    if Less(v, w) { LessIsTransitive(t, v, w); }
    LessIsTotal(t, w);
  }
}
