/**
  Decimal rendering of non-negative integers, as Python's `{n}` and `{n:0Wd}`
  format specifications produce it, together with the digit-string value that
  serves as its inverse.
 */
module Decimal {

  predicate IsDigit(c: char) {
    '0' <= c <= '9'
  }

  predicate AllDigits(s: string) {
    forall i :: 0 <= i < |s| ==> IsDigit(s[i])
  }

  function DigitValue(c: char): nat
    requires IsDigit(c)
  {
    c as int - '0' as int
  }

  function DigitChar(d: nat): (c: char)
    requires d < 10
    ensures IsDigit(c) && DigitValue(c) == d
  {
    ('0' as int + d) as char
  }

  function Pow10(k: nat): (p: nat)
    ensures p >= 1
  {
    if k == 0 then 1 else 10 * Pow10(k - 1)
  }

  /** The number a digit string denotes, most significant digit first. */
  function Value(s: string): nat
    requires AllDigits(s)
  {
    if |s| == 0 then 0 else 10 * Value(s[..|s| - 1]) + DigitValue(s[|s| - 1])
  }

  /** The shortest decimal form of `n`: what `str(n)` and `{n}` give. */
  function Digits(n: nat): (r: string)
    ensures 1 <= |r| && AllDigits(r)
    ensures Value(r) == n
    ensures r[0] == '0' ==> r == "0"
  {
    if n < 10 then [DigitChar(n)]
    else
      var prefix := Digits(n / 10);
      var r := prefix + [DigitChar(n % 10)];
      assert r[..|r| - 1] == prefix;
      r
  }

  function Zeros(k: nat): (z: string)
    ensures |z| == k && forall i :: 0 <= i < k ==> z[i] == '0'
  {
    seq(k, _ => '0')
  }

  /**
    `{n:0Wd}`: the decimal form of `n`, left-filled with zeros up to `width`
    characters; a longer form is kept whole, never cut.
   */
  function ZeroPad(n: nat, width: nat): (r: string)
    ensures |r| == if |Digits(n)| < width then width else |Digits(n)|
    ensures AllDigits(r) && Value(r) == n
  {
    var d := Digits(n);
    if |d| < width then
      LeadingZerosValue(width - |d|, d);
      Zeros(width - |d|) + d
    else d
  }

  lemma {:induction false} ZerosValue(k: nat)
    ensures AllDigits(Zeros(k)) && Value(Zeros(k)) == 0
  {
    if k > 0 {
      assert Zeros(k)[..k - 1] == Zeros(k - 1);
      ZerosValue(k - 1);
    }
  }

  /** Leading zeros do not change the value of a digit string. */
  lemma {:induction false} LeadingZerosValue(k: nat, s: string)
    requires AllDigits(s)
    ensures AllDigits(Zeros(k) + s) && Value(Zeros(k) + s) == Value(s)
    decreases |s|
  {
    var z := Zeros(k) + s;
    if |s| == 0 {
      assert z == Zeros(k);
      ZerosValue(k);
    } else {
      assert z[..|z| - 1] == Zeros(k) + s[..|s| - 1];
      LeadingZerosValue(k, s[..|s| - 1]);
    }
  }

  lemma {:induction false} Pow10Monotone(j: nat, k: nat)
    requires j <= k
    ensures Pow10(j) <= Pow10(k)
    decreases k
  {
    if j < k {
      Pow10Monotone(j, k - 1);
    }
  }

  /** A digit string of length k denotes a number below 10^k. */
  lemma {:induction false} ValueUpperBound(s: string)
    requires AllDigits(s)
    ensures Value(s) < Pow10(|s|)
    decreases |s|
  {
    if |s| > 0 {
      ValueUpperBound(s[..|s| - 1]);
    }
  }

  /** A digit string of length k without a leading zero denotes at least 10^(k-1). */
  lemma {:induction false} ValueLowerBound(s: string)
    requires AllDigits(s) && 1 <= |s| && s[0] != '0'
    ensures Pow10(|s| - 1) <= Value(s)
    decreases |s|
  {
    if |s| > 1 {
      ValueLowerBound(s[..|s| - 1]);
    }
  }

  /** The decimal form of `n` fits in k >= 1 characters exactly when n < 10^k. */
  lemma DigitsLength(n: nat, k: nat)
    requires 1 <= k
    ensures |Digits(n)| <= k <==> n < Pow10(k)
  {
    var d := Digits(n);
    ValueUpperBound(d);
    if |d| <= k {
      Pow10Monotone(|d|, k);
    } else {
      ValueLowerBound(d);
      Pow10Monotone(k, |d| - 1);
    }
  }

  /** Two digit strings of the same length with the same value are equal. */
  lemma {:induction false} ValueInjective(a: string, b: string)
    requires AllDigits(a) && AllDigits(b) && |a| == |b|
    requires Value(a) == Value(b)
    ensures a == b
    decreases |a|
  {
    if |a| > 0 {
      var n := |a| - 1;
      assert DigitValue(a[n]) == Value(a) % 10 == DigitValue(b[n]);
      ValueInjective(a[..n], b[..n]);
      assert a == a[..n] + [a[n]] && b == b[..n] + [b[n]];
    }
  }

  /** A fixed-width field of `width` digits is exactly what `{n:0Wd}` renders for its value. */
  lemma ZeroPadCanonical(s: string, width: nat)
    requires AllDigits(s) && |s| == width && 1 <= width
    ensures ZeroPad(Value(s), width) == s
  {
    ValueUpperBound(s);
    DigitsLength(Value(s), width);
    ValueInjective(ZeroPad(Value(s), width), s);
  }

  /** A digit string without a superfluous leading zero is the decimal form of its value. */
  lemma DigitsCanonical(s: string)
    requires AllDigits(s) && 1 <= |s|
    requires s[0] != '0' || |s| == 1
    ensures Digits(Value(s)) == s
  {
    var v := Value(s);
    ValueUpperBound(s);
    DigitsLength(v, |s|);
    if |s| > 1 {
      ValueLowerBound(s);
      DigitsLength(v, |s| - 1);
    }
    ValueInjective(Digits(v), s);
  }

  /**
    Width rule of `{n:0Wd}`: below 10^W the field is exactly W characters;
    from 10^W on it widens to the full decimal form instead of being truncated.
   */
  lemma ZeroPadWidth(n: nat, width: nat)
    requires 1 <= width
    ensures n < Pow10(width) ==> |ZeroPad(n, width)| == width
    ensures Pow10(width) <= n ==> ZeroPad(n, width) == Digits(n) && width < |ZeroPad(n, width)|
  {
    DigitsLength(n, width);
  }
}
