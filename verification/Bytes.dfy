/** Bytes and the integer division facts shared by the raster and archive code. */
module Bytes {
  type Byte = b: int | 0 <= b < 256

  const TWO32 := 0x1_0000_0000

  /** Text that encodes as ASCII. */
  predicate Ascii(s: string) {
    forall i :: 0 <= i < |s| ==> s[i] as int < 128
  }

  /** Python's `b'\0' * n`. */
  function Zeros(n: nat): (z: seq<Byte>)
    ensures |z| == n
    ensures forall i :: 0 <= i < n ==> z[i] == 0
  {
    seq(n, _ => 0)
  }

  /** Python's `s[lo:hi]` for non-negative bounds: out-of-range bounds are clipped. */
  function Clip<T>(s: seq<T>, lo: nat, hi: int): (t: seq<T>)
    ensures lo <= hi <= |s| ==> t == s[lo..hi]
  {
    if lo < hi && lo < |s| then s[lo..if hi < |s| then hi else |s|] else []
  }

  /** Cell `q` of width `d` holds exactly the numbers whose quotient by `d` is `q`. */
  lemma QuotientIs(n: int, d: int, q: int)
    requires d > 0
    ensures q * d <= n < q * d + d <==> n / d == q
    ensures q * d <= n < q * d + d ==> n % d == n - q * d
  {
    assert n == (n / d) * d + n % d;
    if n / d > q { Monotone(q + 1, n / d, d); }
    if n / d < q { Monotone(n / d + 1, q, d); }
    assert (q + 1) * d == q * d + d && (n / d + 1) * d == (n / d) * d + d;
  }

  lemma Monotone(a: int, b: int, d: int)
    requires a <= b && d >= 0
    ensures a * d <= b * d
  {
    assert (b - a) * d >= 0;
  }
}
