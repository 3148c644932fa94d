/** Bytes and their big-endian numeric reading, as `big.Int.SetBytes` performs it. */
module Bytes {

  /** An octet, Go's `byte`. */
  type byte = b: int | 0 <= b < 256

  /** 256 to the power `n`: one more than the largest value `n` bytes can hold. */
  function Pow256(n: nat): nat
  {
    if n == 0 then 1 else 256 * Pow256(n - 1)
  }

  /** The unsigned big-endian number whose bytes are `s`, accumulated most
      significant byte first (the empty sequence reads as zero). */
  function BigEndian(s: seq<byte>): (v: nat)
    ensures v < Pow256(|s|)
  {
    if s == [] then 0 else BigEndian(s[..|s| - 1]) * 256 + s[|s| - 1]
  }

  /** One leading zero byte does not change the number. */
  lemma {:induction false} LeadingZeroValue(s: seq<byte>)
    ensures BigEndian([0] + s) == BigEndian(s)
  {
    if s != [] {
      assert ([0] + s)[..|s|] == [0] + s[..|s| - 1];
      LeadingZeroValue(s[..|s| - 1]);
    }
  }

  /** Dropping a prefix made only of zero bytes does not change the number. */
  lemma {:induction false} ZeroPrefixValue(s: seq<byte>, k: nat)
    requires k <= |s|
    requires forall j :: 0 <= j < k ==> s[j] == 0
    ensures BigEndian(s[k..]) == BigEndian(s)
  {
    if k > 0 {
      ZeroPrefixValue(s[1..], k - 1);
      assert s[1..][k - 1..] == s[k..];
      assert s == [0] + s[1..];
      LeadingZeroValue(s[1..]);
    }
  }

  /** A number written as `q * 256 + d` with `d < 256` has only one such form. */
  lemma DigitsUnique(q1: nat, d1: nat, q2: nat, d2: nat)
    requires d1 < 256 && d2 < 256 && q1 * 256 + d1 == q2 * 256 + d2
    ensures q1 == q2 && d1 == d2
  {
  }

  /** Two byte strings of one length with equal numbers are equal: the
      big-endian reading loses nothing but leading zeros. */
  lemma {:induction false} BigEndianInjective(s: seq<byte>, t: seq<byte>)
    requires |s| == |t| && BigEndian(s) == BigEndian(t)
    ensures s == t
  {
    if s != [] {
      var n := |s| - 1;
      DigitsUnique(BigEndian(s[..n]), s[n], BigEndian(t[..n]), t[n]);
      BigEndianInjective(s[..n], t[..n]);
      assert s == s[..n] + [s[n]] && t == t[..n] + [t[n]];
    }
  }
}
