/** Bloom filters over lists of keys (util/bloom.cc, util/hash.cc). */
module Bloom {
  import opened Varints
  import opened Octet
  import Crc32c

  // ---------------------------------------------------------------- the hash function

  const MULTIPLIER: bv32 := 0xc6a4_a793

  const BLOOM_SEED: bv32 := 0xbc9f_1d34

  function Word(b0: Byte, b1: Byte, b2: Byte, b3: Byte): bv32 {
    Crc32c.DecodeFixed32(Pattern(b0), Pattern(b1), Pattern(b2), Pattern(b3))
  }

  function Times(h: bv32): bv32 { h * MULTIPLIER }

  function MixWord(h: bv32, w: bv32): bv32 {
    var m := Times(h + w);
    m ^ (m >> 16)
  }

  /** What the last one to three bytes add. */
  function MixTail(h: bv32, data: Bytes): bv32
    requires |data| < 4
  {
    if |data| == 0 then h
    else
      var a := if |data| == 3 then h + ((Pattern(data[2]) as bv32) << 16) else h;
      var b := if |data| >= 2 then a + ((Pattern(data[1]) as bv32) << 8) else a;
      var m := Times(b + (Pattern(data[0]) as bv32));
      m ^ (m >> 24)
  }

  function HashFrom(h: bv32, data: Bytes): bv32
    decreases |data|
  {
    if |data| >= 4 then HashFrom(MixWord(h, Word(data[0], data[1], data[2], data[3])), data[4..])
    else MixTail(h, data)
  }

  function HashOf(data: Bytes, seed: bv32): bv32 {
    HashFrom(seed ^ Times((|data| % TWO_TO_32) as bv32), data)
  }

  method Hash(data: Bytes, seed: bv32) returns (h: bv32)
    ensures h == HashOf(data, seed)
  {
    hide MixWord, MixTail, Word;
    var p := data;
    h := seed ^ Times((|data| % TWO_TO_32) as bv32);
    while |p| >= 4
      invariant HashFrom(h, p) == HashOf(data, seed)
      decreases |p|
    {
      h := MixWord(h, Word(p[0], p[1], p[2], p[3]));
      p := p[4..];
    }
    h := MixTail(h, p);
  }

  // ---------------------------------------------------------------- which bits a key stands for

  function Rotated(h: bv32): bv32 { (h >> 17) | (h << 15) }

  function Plus(h: bv32, delta: bv32): bv32 { h + delta }

  /** Double hashing: the j-th hash value. */
  function HashAt(h: bv32, delta: bv32, j: nat): bv32 { if j == 0 then h else Plus(HashAt(h, delta, j - 1), delta) }

  function Position(h: bv32, bits: nat): (p: nat)
    requires bits > 0
    ensures p < bits
  {
    (h as int) % bits
  }

  function Probe(key: Bytes, j: nat, bits: nat): (p: nat)
    requires bits > 0
    ensures p < bits
  {
    var h := HashOf(key, BLOOM_SEED);
    Position(HashAt(h, Rotated(h), j), bits)
  }

  /** p is one of the first n bits of key. */
  ghost predicate Probed(key: Bytes, n: nat, bits: nat, p: nat) {
    bits > 0 && exists j: nat :: j < n && Probe(key, j, bits) == p
  }

  ghost predicate ProbedByAny(keys: seq<Bytes>, n: nat, bits: nat, p: nat) {
    exists i: nat :: i < |keys| && Probed(keys[i], n, bits, p)
  }

  lemma ProbedByOneMore(key: Bytes, n: nat, bits: nat, p: nat)
    requires bits > 0
    ensures Probed(key, n + 1, bits, p) <==> Probed(key, n, bits, p) || p == Probe(key, n, bits)
  {
    hide Probe;
    if p == Probe(key, n, bits) { assert Probed(key, n + 1, bits, p); }
    if Probed(key, n, bits, p) {
      var j: nat :| j < n && Probe(key, j, bits) == p;
      assert Probed(key, n + 1, bits, p);
    }
  }

  lemma ProbedByMoreKeys(keys: seq<Bytes>, i: nat, n: nat, bits: nat, p: nat)
    requires i < |keys|
    ensures ProbedByAny(keys[..i + 1], n, bits, p) <==>
              ProbedByAny(keys[..i], n, bits, p) || Probed(keys[i], n, bits, p)
  {
    hide Probed;
    var fewer, more := keys[..i], keys[..i + 1];
    assert more[i] == keys[i] && forall m :: 0 <= m < i ==> more[m] == fewer[m];
  }

  // ---------------------------------------------------------------- bit arrays

  function Bit(i: nat): (b: bv8)
    requires i < 8
    ensures b != 0
  {
    (1 as bv8) << i
  }

  predicate BitOf(s: seq<bv8>, p: nat) { p / 8 < |s| && s[p / 8] & Bit(p % 8) != 0 }

  /** The same bit of bytes. */
  predicate BitAt(s: Bytes, p: nat) { p / 8 < |s| && Pattern(s[p / 8]) & Bit(p % 8) != 0 }

  lemma OtherBit(x: bv8, i: nat, j: nat)
    requires i < 8 && j < 8
    ensures (x | Bit(i)) & Bit(j) != 0 <==> i == j || x & Bit(j) != 0
  {
    if i == j {
      OwnBit(x, Bit(i));
    } else {
      BitsAreApart(i, j);
      KeptBit(x, Bit(i), Bit(j));
    }
  }

  lemma OwnBit(x: bv8, m: bv8)
    requires m != 0
    ensures (x | m) & m != 0
  {
  }

  lemma BitsAreApart(i: nat, j: nat)
    requires i < 8 && j < 8 && i != j
    ensures Bit(i) & Bit(j) == 0
  {
  }

  lemma KeptBit(x: bv8, m: bv8, n: bv8)
    requires m & n == 0
    ensures (x | m) & n == x & n
  {
  }

  lemma BitIsSet(s: seq<bv8>, q: nat, p: nat)
    requires q / 8 < |s| && p / 8 < |s|
    ensures BitOf(s[q / 8 := s[q / 8] | Bit(q % 8)], p) <==> p == q || BitOf(s, p)
  {
    hide Bit;
    if p / 8 == q / 8 { OtherBit(s[q / 8], q % 8, p % 8); }
  }

  // ---------------------------------------------------------------- filters

  /** 0.69 of the bits for a key, but at least one and at most thirty. */
  function Probes(bitsPerKey: nat): (k: nat)
    ensures 1 <= k <= 30
  {
    var k := (bitsPerKey as real * 0.69).Floor;
    if k < 1 then 1 else if k > 30 then 30 else k
  }

  function FilterBytes(n: nat, bitsPerKey: nat): nat {
    NonNegative(n, bitsPerKey);
    var bits := n * bitsPerKey;
    ((if bits < 64 then 64 else bits) + 7) / 8
  }

  /** The bits that are set are exactly those that some key stands for; the last byte says how many each has. */
  ghost predicate IsFilter(filter: Bytes, keys: seq<Bytes>, k: nat) {
    |filter| >= 9 && filter[|filter| - 1] == k &&
    forall p: nat {:trigger BitAt(filter, p)} :: p < 8 * (|filter| - 1) ==>
      (BitAt(filter, p) <==> ProbedByAny(keys, k, 8 * (|filter| - 1), p))
  }

  predicate ProbeIsSet(key: Bytes, filter: Bytes, j: nat) {
    |filter| >= 2 && BitAt(filter, Probe(key, j, 8 * (|filter| - 1)))
  }

  /** What a filter says of a key.  More than thirty probes are reserved for other encodings. */
  ghost predicate MayMatch(key: Bytes, filter: Bytes) {
    |filter| >= 2 &&
    (filter[|filter| - 1] > 30 || forall j: nat :: j < filter[|filter| - 1] ==> ProbeIsSet(key, filter, j))
  }

  class BloomFilterPolicy {
    const bitsPerKey: nat
    const k: nat

    predicate Valid() { k == Probes(bitsPerKey) }

    constructor (bitsPerKey: nat)
      ensures Valid() && this.bitsPerKey == bitsPerKey
    {
      this.bitsPerKey, k := bitsPerKey, Probes(bitsPerKey);
    }

    method SetProbes(a: array<bv8>, key: Bytes, ghost before: seq<bv8>)
      requires a.Length > 0 && before == a[..]
      modifies a
      ensures forall p: nat {:trigger BitOf(a[..], p)} ::
        p < 8 * a.Length ==> (BitOf(a[..], p) <==> BitOf(before, p) || Probed(key, k, 8 * a.Length, p))
    {
      hide Bit, Position, Rotated, Plus, HashAt, BitOf, Probed;
      var h := Hash(key, BLOOM_SEED);
      var delta := Rotated(h);
      ghost var h0, bits := h, 8 * a.Length;
      forall p: nat ensures !Probed(key, 0, bits, p) { NoProbes(key, bits, p); }
      FirstHash(h, delta);
      for j := 0 to k
        invariant h == HashAt(h0, delta, j)
        invariant forall p: nat {:trigger BitOf(a[..], p)} ::
          p < bits ==> (BitOf(a[..], p) <==> BitOf(before, p) || Probed(key, j, bits, p))
      {
        var bitpos := Position(h, 8 * a.Length);
        ghost var s := a[..];
        a[bitpos / 8] := a[bitpos / 8] | Bit(bitpos % 8);
        assert a[..] == s[bitpos / 8 := s[bitpos / 8] | Bit(bitpos % 8)];
        assert bitpos == Probe(key, j, bits);
        forall p: nat | p < bits
          ensures BitOf(a[..], p) <==> BitOf(before, p) || Probed(key, j + 1, bits, p)
        {
          BitIsSet(s, bitpos, p);
          ProbedByOneMore(key, j, bits, p);
        }
        NextHash(h0, delta, j);
        h := Plus(h, delta);
      }
    }

    method CreateFilter(keys: seq<Bytes>, dst: Bytes) returns (r: Bytes)
      requires Valid()
      ensures dst <= r && IsFilter(r[|dst|..], keys, k) && |r| == |dst| + FilterBytes(|keys|, bitsPerKey) + 1
    {
      hide BitOf, BitAt, ProbedByAny, Octets, FromOctets;
      var bytes := FilterBytes(|keys|, bitsPerKey);
      assert bytes >= 8;
      var a := new bv8[bytes](i => 0);
      ghost var bits := 8 * bytes;
      forall p: nat ensures !BitOf(a[..], p) && !ProbedByAny(keys[..0], k, bits, p) {
        NothingIsSet(a[..], keys[..0], bits, p);
      }
      for i := 0 to |keys|
        invariant forall p: nat {:trigger BitOf(a[..], p)} ::
          p < bits ==> (BitOf(a[..], p) <==> ProbedByAny(keys[..i], k, bits, p))
      {
        ghost var s := a[..];
        SetProbes(a, keys[i], s);
        forall p: nat | p < bits
          ensures BitOf(a[..], p) <==> ProbedByAny(keys[..i + 1], k, bits, p)
        {
          assert BitOf(s, p) <==> ProbedByAny(keys[..i], k, bits, p);
          ProbedByMoreKeys(keys, i, k, bits, p);
        }
      }
      assert keys[..|keys|] == keys;
      var last: Byte := k;
      var filter: Bytes := FromOctets(a[..]) + [last];
      forall p: nat | p < bits ensures BitAt(filter, p) <==> BitOf(a[..], p) { SameBit(a[..], filter, p); }
      r := dst + filter;
      assert r[|dst|..] == filter;
    }

    lemma NothingIsSet(s: seq<bv8>, keys: seq<Bytes>, bits: nat, p: nat)
      requires keys == [] && forall i :: 0 <= i < |s| ==> s[i] == 0
      ensures !BitOf(s, p) && !ProbedByAny(keys, k, bits, p)
    {
    }

    method KeyMayMatch(key: Bytes, filter: Bytes) returns (r: bool)
      ensures r == MayMatch(key, filter)
    {
      hide Bit, Position, Rotated, Plus, HashAt, BitAt;
      if |filter| < 2 { return false; }
      var bits, probes := 8 * (|filter| - 1), filter[|filter| - 1];
      if probes > 30 { return true; }
      var h := Hash(key, BLOOM_SEED);
      var delta := Rotated(h);
      ghost var h0 := h;
      FirstHash(h, delta);
      for j := 0 to probes
        invariant h == HashAt(h0, delta, j)
        invariant forall i: nat :: i < j ==> ProbeIsSet(key, filter, i)
      {
        var bitpos := Position(h, bits);
        assert bitpos == Probe(key, j, bits);
        assert ProbeIsSet(key, filter, j) == BitAt(filter, bitpos);
        if !BitAt(filter, bitpos) { return false; }
        NextHash(h0, delta, j);
        h := Plus(h, delta);
      }
      r := true;
    }
  }

  lemma FilterIsLong(filter: Bytes, keys: seq<Bytes>, k: nat)
    requires IsFilter(filter, keys, k)
    ensures |filter| >= 9
  {
  }

  lemma NoProbes(key: Bytes, bits: nat, p: nat)
    ensures !Probed(key, 0, bits, p)
  {
  }

  lemma FirstHash(h: bv32, delta: bv32)
    ensures HashAt(h, delta, 0) == h
  {
  }

  lemma NextHash(h: bv32, delta: bv32, j: nat)
    ensures HashAt(h, delta, j + 1) == Plus(HashAt(h, delta, j), delta)
  {
    hide Plus;
  }

  lemma SameBit(s: seq<bv8>, filter: Bytes, p: nat)
    requires p / 8 < |s| < |filter| && filter[..|s|] == FromOctets(s)
    ensures BitAt(filter, p) <==> BitOf(s, p)
  {
    hide Pattern, Bit;
    assert filter[p / 8] == filter[..|s|][p / 8] == s[p / 8] as int;
    PatternIsExact(s[p / 8]);
  }

  ghost predicate ProbeIsShared(filter: Bytes, keys: seq<Bytes>, k: nat, key: Bytes, j: nat) {
    |filter| >= 2 && ProbedByAny(keys, k, 8 * (|filter| - 1), Probe(key, j, 8 * (|filter| - 1)))
  }

  /** A filter accepts a key exactly when all bits of the key are bits of stored keys. */
  lemma FilterAcceptsExactly(filter: Bytes, keys: seq<Bytes>, k: nat, key: Bytes)
    requires IsFilter(filter, keys, k) && k <= 30
    ensures MayMatch(key, filter) <==> forall j: nat :: j < k ==> ProbeIsShared(filter, keys, k, key, j)
  {
    hide BitAt, ProbedByAny, Probe;
    forall j: nat ensures ProbeIsSet(key, filter, j) <==> ProbeIsShared(filter, keys, k, key, j) {
      assert BitAt(filter, Probe(key, j, 8 * (|filter| - 1))) <==>
             ProbedByAny(keys, k, 8 * (|filter| - 1), Probe(key, j, 8 * (|filter| - 1)));
    }
  }

  /** So it never rejects a stored key. */
  lemma StoredKeysMatch(filter: Bytes, keys: seq<Bytes>, k: nat, key: Bytes)
    requires IsFilter(filter, keys, k) && k <= 30 && key in keys
    ensures MayMatch(key, filter)
  {
    hide IsFilter, MayMatch, Probe;
    FilterAcceptsExactly(filter, keys, k, key);
    var bits := 8 * (|filter| - 1);
    assert bits > 0 by { FilterIsLong(filter, keys, k); }
    var i :| 0 <= i < |keys| && keys[i] == key;
    forall j: nat | j < k ensures ProbeIsShared(filter, keys, k, key, j) {
      assert Probed(keys[i], k, bits, Probe(key, j, bits));
    }
  }
}
