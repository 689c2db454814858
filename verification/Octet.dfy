/** Bytes as the log format and its checksum see them. */
module Octet {
  import opened Varints

  /** The bit pattern of `b`. */
  function Pattern(b: int): (o: bv8)
    requires 0 <= b < 256
    ensures o as int == b
  {
    if b == 0 then 0 else Pattern(b - 1) + 1
  }

  lemma PatternIsExact(o: bv8)
    ensures Pattern(o as int) == o
  {
  }

  function Octets(s: Bytes): (r: seq<bv8>)
    ensures |r| == |s|
  {
    seq(|s|, i requires 0 <= i < |s| => Pattern(s[i]))
  }

  function FromOctets(s: seq<bv8>): (r: Bytes)
    ensures |r| == |s|
  {
    seq(|s|, i requires 0 <= i < |s| => s[i] as int)
  }

  lemma OctetsAreReadBack(s: Bytes)
    ensures FromOctets(Octets(s)) == s
  {
    hide Pattern;
    assert forall i :: 0 <= i < |s| ==> FromOctets(Octets(s))[i] == s[i];
  }
}
