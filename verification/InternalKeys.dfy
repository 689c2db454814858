/** Internal keys: one user key carries many versions, ordered newest first.

    User keys are written as integers.  The store assumes no more of its user comparator than that it
    is a total order, and nothing below uses more of the integers than that. */
module InternalKeys {
  import Varints

  datatype Option<+T> = None | Some(value: T)

  type UserValue = Varints.Bytes

  /** What a write does to its key: the value type byte together with the value. */
  datatype Op = Delete | Put(value: UserValue)

  /** The largest sequence number that fits beside the type byte. */
  const MAX_SEQUENCE_NUMBER: nat := 0xFF_FFFF_FFFF_FFFF

  type SequenceNumber = n: nat | n <= MAX_SEQUENCE_NUMBER

  /** One version of a user key. */
  datatype Entry = Entry(key: int, sn: SequenceNumber, op: Op)

  /** What a reader of an entry learns: a value, or that the key is absent. */
  function ValueOf(op: Op): Option<UserValue> {
    match op
    case Delete => None
    case Put(v) => Some(v)
  }

  /** The internal order: user keys ascending, then sequence numbers descending. */
  predicate Before(a: Entry, b: Entry) {
    a.key < b.key || (a.key == b.key && a.sn > b.sn)
  }

  /** e is not before the lookup key (k, s).  The type byte of a lookup key is the largest one, so an
      entry whose sequence number equals s is never before it. */
  predicate AtOrAfter(e: Entry, k: int, s: nat) {
    e.key > k || (e.key == k && e.sn <= s)
  }

  predicate Sorted(es: seq<Entry>) {
    forall i, j :: 0 <= i < j < |es| ==> Before(es[i], es[j])
  }

  /** A sorted table is never written empty. */
  type Table = d: seq<Entry> | |d| > 0 && Sorted(d) witness [Entry(0, 0, Delete)]

  /** e is the newest entry of es that a reader of key k at sequence number s may see. */
  ghost predicate NewestIn(es: seq<Entry>, k: int, s: nat, e: Entry) {
    e in es && e.key == k && e.sn <= s &&
    forall x :: x in es && x.key == k && x.sn <= s ==> x.sn <= e.sn
  }

  /** The position an iterator's Seek reaches: the first entry not before the lookup key. */
  function Lookup(es: seq<Entry>, k: int, s: nat): (i: nat)
    ensures i <= |es|
    ensures forall j :: 0 <= j < i ==> !AtOrAfter(es[j], k, s)
    ensures i < |es| ==> AtOrAfter(es[i], k, s)
  {
    if |es| == 0 || AtOrAfter(es[0], k, s) then 0 else 1 + Lookup(es[1..], k, s)
  }

  /** One Seek and one user-key comparison find exactly the newest visible entry of a sorted run. */
  lemma LookupIsNewest(es: seq<Entry>, k: int, s: nat)
    requires Sorted(es)
    ensures var i := Lookup(es, k, s);
            if i < |es| && es[i].key == k then NewestIn(es, k, s, es[i])
            else forall x :: x in es && x.key == k ==> x.sn > s
  {
    var i := Lookup(es, k, s);
    forall x | x in es && x.key == k && x.sn <= s
      ensures i < |es| && es[i].key == k && x.sn <= es[i].sn
    {
      var j :| 0 <= j < |es| && es[j] == x;
      assert AtOrAfter(es[j], k, s);
      assert i <= j;
      if i < j { assert Before(es[i], es[j]); }
    }
  }

  /** Where a sorted run keeps e, and the run with e put there (MemTable::Add). */
  function Insert(es: seq<Entry>, e: Entry): (r: seq<Entry>)
    ensures forall x :: x in r <==> x in es || x == e
  {
    if |es| == 0 then [e]
    else if Before(e, es[0]) then [e] + es
    else
      var rest := Insert(es[1..], e);
      assert es == [es[0]] + es[1..];
      [es[0]] + rest
  }

  lemma {:induction false} InsertSorted(es: seq<Entry>, e: Entry)
    requires Sorted(es)
    requires forall x :: x in es ==> x.key != e.key || x.sn != e.sn
    ensures Sorted(Insert(es, e))
  {
    if |es| == 0 {
    } else if Before(e, es[0]) {
      var r := [e] + es;
      forall i, j | 0 <= i < j < |r| ensures Before(r[i], r[j]) {
        if i == 0 && j > 1 { assert Before(es[0], es[j - 1]); }
      }
    } else {
      assert es[0] in es;
      forall i, j | 0 <= i < j < |es[1..]| ensures Before(es[1..][i], es[1..][j]) {
        assert Before(es[i + 1], es[j + 1]);
      }
      InsertSorted(es[1..], e);
      var rest := Insert(es[1..], e);
      forall x | x in rest ensures Before(es[0], x) {
        if x != e {
          var j :| 0 <= j < |es[1..]| && es[1..][j] == x;
          assert Before(es[0], es[j + 1]);
        }
      }
      var r := [es[0]] + rest;
      assert Insert(es, e) == r;
      forall i, j | 0 <= i < j < |r| ensures Before(r[i], r[j]) {
        if i == 0 { assert r[j] == rest[j - 1]; }
        else { assert r[i] == rest[i - 1] && r[j] == rest[j - 1]; }
      }
    }
  }
}
