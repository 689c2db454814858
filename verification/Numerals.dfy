/** Numbers as a reader of the formats sees them, without the encoders: groups of seven bits, and words. */
module Numerals {
  import opened Varints

  /** All bytes but the last have the top bit set. */
  predicate IsGroups(s: Bytes) { |s| > 0 && (forall i :: 0 <= i < |s| - 1 ==> s[i] >= 128) && s[|s| - 1] < 128 }

  predicate IsVarint(s: Bytes) { |s| <= 10 && IsGroups(s) }

  /** Groups of seven bits, the lowest first. */
  function Number(s: Bytes): nat { if |s| == 0 then 0 else s[0] % 128 + 128 * Number(s[1..]) }

  /** Bytes, the lowest first. */
  function Word(s: Bytes): nat { if |s| == 0 then 0 else s[0] + 256 * Word(s[1..]) }

  lemma FirstOfTwo(s: Bytes, rest: Bytes)
    requires |s| > 0
    ensures |s + rest| > 0 && (s + rest)[0] == s[0] && (s + rest)[1..] == s[1..] + rest
  {
  }

  lemma NextGroups(s: Bytes, rest: Bytes)
    requires IsGroups(s)
    ensures Number(s) == s[0] % 128 + 128 * Number(s[1..])
    ensures s[0] < 128 <==> |s| == 1
    ensures |s| > 1 ==> IsGroups(s[1..])
    ensures |s + rest| > 0 && (s + rest)[0] == s[0] && (s + rest)[1..] == s[1..] + rest
  {
    FirstOfTwo(s, rest);
    var more := s[1..];
    assert forall i :: 0 <= i < |more| ==> more[i] == s[i + 1];
  }

  lemma NoNumber()
    ensures Number([]) == 0
  {
  }

  lemma ShiftedMore(acc: nat, low: nat, high: nat, bitpos: nat)
    ensures acc + (low + 128 * high) * Pow2(bitpos) == (acc + low * Pow2(bitpos)) + high * Pow2(bitpos + 7)
    ensures low * Pow2(bitpos) >= 0 && high * Pow2(bitpos + 7) >= 0
  {
    hide Pow2;
    Pow2Seven(bitpos);
    NonNegative(low, Pow2(bitpos));
    NonNegative(high, Pow2(bitpos + 7));
  }

  lemma {:induction false} VarintGroups(v: nat)
    ensures var s := Varint(v);
            Number(s) == v && (forall i :: 0 <= i < |s| - 1 ==> s[i] >= 128) && s[|s| - 1] < 128
  {
    if v < 128 {
      assert Number([v]) == v % 128 + 128 * Number([]);
    } else {
      VarintGroups(v / 128);
      var first, more := v % 128 + 128, Varint(v / 128);
      assert Varint(v) == [first] + more && (([first] + more)[1..] == more);
    }
  }

  lemma VarintIsNumber(v: nat)
    requires v < TWO_TO_64
    ensures IsVarint(Varint(v)) && Number(Varint(v)) == v
  {
    hide Varint, Number;
    VarintGroups(v);
    VarintFitsBuffer(v);
  }

  lemma {:induction false} LittleIsWord(v: nat, n: nat)
    requires v < Pow256(n)
    ensures Word(Little(v, n)) == v
  {
    if n == 0 {
    } else {
      assert Little(v, n)[1..] == Little(v / 256, n - 1);
      LittleIsWord(v / 256, n - 1);
    }
  }

  lemma WordSizes()
    ensures Pow256(4) == TWO_TO_32 && Pow256(8) == TWO_TO_64
  {
    assert Pow256(4) == TWO_TO_32;
    assert Pow256(8) == 256 * (256 * (256 * (256 * Pow256(4))));
  }

  lemma VarintAt(s: Bytes, k: nat)
    requires k <= |s| && IsVarint(s[..k])
    ensures 1 <= k && (forall i :: 0 <= i < k - 1 ==> s[i] >= 128) && s[k - 1] < 128
  {
    var v := s[..k];
    assert forall i :: 0 <= i < k ==> v[i] == s[i];
  }

  /** Two varints at the front of the same bytes are the same. */
  lemma SameVarint(s: Bytes, j: nat, k: nat)
    requires j <= |s| && k <= |s| && IsVarint(s[..j]) && IsVarint(s[..k])
    ensures j == k
  {
    hide IsVarint;
    VarintAt(s, j);
    VarintAt(s, k);
  }
}
