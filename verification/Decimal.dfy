/** Decimal numerals as Python's `%d` and `%04d` write them. */
module Decimal {
  function Digit(d: int): (c: char)
    requires 0 <= d < 10
  {
    (d + 48) as char
  }

  function Numeral(n: nat): (s: string)
    ensures |s| >= 1
  {
    if n < 10 then [Digit(n)] else Numeral(n / 10) + [Digit(n % 10)]
  }

  /** The numeral, filled with leading zeros up to `width` characters. */
  function Padded(n: nat, width: nat): (s: string)
    ensures |s| >= width
  {
    var s := Numeral(n);
    if |s| < width then seq(width - |s|, _ => '0') + s else s
  }

  /** Reads a numeral back; leading zeros do not count. */
  function Value(s: string): int {
    if s == [] then 0 else Value(s[..|s| - 1]) * 10 + (s[|s| - 1] as int - 48)
  }

  lemma {:induction false} NumeralValue(n: nat)
    ensures Value(Numeral(n)) == n
  {
    var s := Numeral(n);
    if n < 10 {
      assert s[..|s| - 1] == [];
    } else {
      assert s[..|s| - 1] == Numeral(n / 10);
      NumeralValue(n / 10);
    }
  }

  lemma {:induction false} ZerosCountNothing(k: nat, s: string)
    ensures Value(seq(k, _ => '0') + s) == Value(s)
  {
    var z: string := seq(k, _ => '0');
    if s != [] {
      assert (z + s)[..|z + s| - 1] == z + s[..|s| - 1];
      ZerosCountNothing(k, s[..|s| - 1]);
    } else if k > 0 {
      assert z + s == z;
      assert z[..k - 1] == seq(k - 1, _ => '0') + [];
      ZerosCountNothing(k - 1, []);
    } else {
      assert z + s == s;
    }
  }

  /** Different numbers are written differently, padded or not. */
  predicate AllDigits(s: string) { forall i :: 0 <= i < |s| ==> '0' <= s[i] <= '9' }

  lemma {:induction false} NumeralIsDigits(n: nat)
    ensures AllDigits(Numeral(n))
  {
    if n >= 10 { NumeralIsDigits(n / 10); }
  }

  /** Padding changes neither the number nor the alphabet. */
  lemma PaddedValue(n: nat, width: nat)
    ensures Value(Padded(n, width)) == n && AllDigits(Padded(n, width))
  {
    NumeralValue(n);
    NumeralIsDigits(n);
    if |Numeral(n)| < width { ZerosCountNothing(width - |Numeral(n)|, Numeral(n)); }
  }

  lemma PaddedInjective(m: nat, n: nat, width: nat)
    requires Padded(m, width) == Padded(n, width)
    ensures m == n
  {
    NumeralValue(m);
    NumeralValue(n);
    if |Numeral(m)| < width { ZerosCountNothing(width - |Numeral(m)|, Numeral(m)); }
    if |Numeral(n)| < width { ZerosCountNothing(width - |Numeral(n)|, Numeral(n)); }
  }
}
