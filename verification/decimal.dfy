/** Java's decimal rendering of non-negative ints: `"" + n` and `String.format("%0wd", n)`. */
module Decimal {

  predicate IsDigit(c: char) { '0' <= c <= '9' }

  predicate AllDigits(s: string) { forall k :: 0 <= k < |s| ==> IsDigit(s[k]) }

  function Digit(d: nat): (c: char)
    requires d < 10
    ensures IsDigit(c)
  {
    (48 + d) as char
  }

  function Pow10(w: nat): (p: nat)
    ensures p >= 1
  {
    if w == 0 then 1 else 10 * Pow10(w - 1)
  }

  /** The shortest decimal numeral of `n`. */
  function Numeral(n: nat): (s: string)
    ensures |s| >= 1 && AllDigits(s)
    ensures s[0] == '0' ==> n == 0
  {
    if n < 10 then [Digit(n)] else Numeral(n / 10) + [Digit(n % 10)]
  }

  function Zeros(k: nat): (s: string)
    ensures |s| == k && forall i :: 0 <= i < k ==> s[i] == '0'
  {
    if k == 0 then "" else Zeros(k - 1) + "0"
  }

  /** `String.format("%0" + width + "d", n)`: the numeral left-padded with zeros to `width`
      characters; a numeral wider than `width` is printed in full. */
  function ZeroPad(n: nat, width: nat): (s: string)
    ensures AllDigits(s)
  {
    var d := Numeral(n);
    if |d| < width then Zeros(width - |d|) + d else d
  }

  /** The value a string of digits denotes (the inverse of the two renderings above). */
  function ValueOf(s: string): nat
    requires AllDigits(s)
  {
    if s == [] then 0 else 10 * ValueOf(s[..|s| - 1]) + (s[|s| - 1] as int - 48)
  }

  lemma {:induction false} ValueOfNumeral(n: nat)
    ensures ValueOf(Numeral(n)) == n
  {
    if n >= 10 {
      var s := Numeral(n);
      assert s[..|s| - 1] == Numeral(n / 10);
      ValueOfNumeral(n / 10);
    }
  }

  lemma {:induction false} ValueOfLeadingZeros(k: nat, s: string)
    requires AllDigits(s)
    ensures AllDigits(Zeros(k) + s) && ValueOf(Zeros(k) + s) == ValueOf(s)
    decreases |s|
  {
    var t := Zeros(k) + s;
    if s == [] {
      assert t == Zeros(k);
      AllZerosValue(k);
    } else {
      assert t[..|t| - 1] == Zeros(k) + s[..|s| - 1];
      ValueOfLeadingZeros(k, s[..|s| - 1]);
    }
  }

  lemma {:induction false} AllZerosValue(k: nat)
    ensures ValueOf(Zeros(k)) == 0
  {
    if k > 0 {
      assert Zeros(k)[..k - 1] == Zeros(k - 1);
      AllZerosValue(k - 1);
    }
  }

  /** Round trip: reading back a zero-padded numeral gives the number. */
  lemma {:induction false} ZeroPadRoundTrip(n: nat, width: nat)
    ensures ValueOf(ZeroPad(n, width)) == n
  {
    var d := Numeral(n);
    ValueOfNumeral(n);
    if |d| < width {
      var z := Zeros(width - |d|);
      ValueOfLeadingZeros(width - |d|, d);
      assert ValueOf(z + d) == n;
    }
  }

  lemma {:induction false} NumeralWidth(n: nat, width: nat)
    requires width >= 1 && n < Pow10(width)
    ensures |Numeral(n)| <= width
  {
    if n >= 10 {
      assert width != 1;
      NumeralWidth(n / 10, width - 1);
    }
  }

  /** `%0wd` of an int below 10^w is exactly w characters wide, and different ints give
      different strings. */
  lemma {:induction false} ZeroPadFixedWidth(n: nat, m: nat, width: nat)
    requires width >= 1 && n < Pow10(width) && m < Pow10(width)
    ensures |ZeroPad(n, width)| == width
    ensures ZeroPad(n, width) == ZeroPad(m, width) ==> n == m
  {
    NumeralWidth(n, width);
    ZeroPadRoundTrip(n, width);
    ZeroPadRoundTrip(m, width);
  }
}
