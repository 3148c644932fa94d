/** The hash's storage, for the one operation that works on it in place:
    `Clone` allocates a buffer with `make` and fills it with `copy`. */
module HashBuffers {
  import opened Bytes

  /** Go's built-in `copy(dst, src)`: copies the first `min(len(dst), len(src))`
      elements of `src` into `dst` and returns how many it copied. */
  method Copy(dst: array<byte>, src: array<byte>) returns (n: nat)
    modifies dst
    ensures n == if dst.Length < src.Length then dst.Length else src.Length
    ensures dst[..n] == old(src[..n])
    ensures dst[n..] == old(dst[n..])
  {
    n := if dst.Length < src.Length then dst.Length else src.Length;
    var i := 0;
    while i < n
      invariant 0 <= i <= n
      invariant dst[..i] == old(src[..i])
      invariant dst[i..] == old(dst[i..])
      invariant src[i..n] == old(src[i..n])
    {
      dst[i] := src[i];
      i := i + 1;
    }
  }

  /** A fresh buffer holding the same bytes as `h`. */
  method Clone(h: array<byte>) returns (c: array<byte>)
    ensures fresh(c)
    ensures c[..] == h[..]
  {
    c := new byte[h.Length];
    var n := Copy(c, h);
  }

  /** Writing into a clone leaves the original as it was. */
  method WriteToClone(h: array<byte>, i: nat, x: byte) returns (c: array<byte>)
    requires i < h.Length
    ensures fresh(c) && c[..] == h[..][i := x]
    ensures h[..] == old(h[..])
  {
    c := Clone(h);
    c[i] := x;
  }
}
