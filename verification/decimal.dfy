/**
 * Decimal text of natural numbers: Python's str(n), the zero-padded
 * '{:0{width}}'.format(n, width=width), and int(...) to read it back.
 */
module Decimal {

  predicate IsDigit(c: char)
  {
    '0' <= c <= '9'
  }

  predicate AllDigits(s: string)
  {
    forall i :: 0 <= i < |s| ==> IsDigit(s[i])
  }

  function DigitChar(d: nat): (c: char)
    requires d < 10
    ensures IsDigit(c)
  {
    ('0' as int + d) as char
  }

  function DigitValue(c: char): (d: nat)
    requires IsDigit(c)
    ensures d < 10
  {
    c as int - '0' as int
  }

  /** str(n) for a non-negative integer: no leading zero unless n == 0. */
  function DecimalString(n: nat): (s: string)
    ensures |s| >= 1 && AllDigits(s)
    ensures |s| > 1 ==> s[0] != '0'
  {
    if n < 10 then [DigitChar(n)] else DecimalString(n / 10) + [DigitChar(n % 10)]
  }

  /** int(s) for a string of decimal digits (leading zeros allowed). */
  function ParseDecimal(s: string): nat
    requires AllDigits(s)
  {
    if s == [] then 0 else ParseDecimal(s[..|s| - 1]) * 10 + DigitValue(s[|s| - 1])
  }

  function Zeros(k: nat): (z: string)
    ensures |z| == k && forall i :: 0 <= i < k ==> z[i] == '0'
  {
    seq(k, _ => '0')
  }

  /**
   * '{:0{width}}'.format(n, width=width): str(n) left-padded with '0' up to
   * width characters, never truncated.
   */
  function ZeroPad(n: nat, width: nat): (s: string)
    ensures AllDigits(s)
    ensures |s| == if |DecimalString(n)| >= width then |DecimalString(n)| else width
    ensures s[|s| - |DecimalString(n)|..] == DecimalString(n)
    ensures forall i :: 0 <= i < |s| - |DecimalString(n)| ==> s[i] == '0'
  {
    var d := DecimalString(n);
    if |d| >= width then d else Zeros(width - |d|) + d
  }

  /** Reading str(n) back gives n. */
  lemma {:induction false} ParseDecimalString(n: nat)
    ensures ParseDecimal(DecimalString(n)) == n
  {
    if n >= 10 {
      var s := DecimalString(n);
      assert s[..|s| - 1] == DecimalString(n / 10);
      ParseDecimalString(n / 10);
    }
  }

  /** Leading zeros do not change the value read back. */
  lemma {:induction false} ParseLeadingZeros(k: nat, s: string)
    requires AllDigits(s)
    ensures AllDigits(Zeros(k) + s)
    ensures ParseDecimal(Zeros(k) + s) == ParseDecimal(s)
  {
    var t := Zeros(k) + s;
    if s == [] {
      assert t == Zeros(k);
      ZerosParseToZero(k);
    } else {
      assert t[..|t| - 1] == Zeros(k) + s[..|s| - 1];
      ParseLeadingZeros(k, s[..|s| - 1]);
    }
  }

  lemma {:induction false} ZerosParseToZero(k: nat)
    ensures ParseDecimal(Zeros(k)) == 0
  {
    if k > 0 {
      assert Zeros(k)[..k - 1] == Zeros(k - 1);
      ZerosParseToZero(k - 1);
    }
  }

  /** Reading a zero-padded step string back gives the step number. */
  lemma ZeroPadRoundTrip(n: nat, width: nat)
    ensures ParseDecimal(ZeroPad(n, width)) == n
  {
    var d := DecimalString(n);
    ParseDecimalString(n);
    if |d| < width {
      ParseLeadingZeros(width - |d|, d);
    }
  }

  /** Distinct step numbers give distinct padded strings (same width). */
  lemma ZeroPadInjective(a: nat, b: nat, width: nat)
    requires a != b
    ensures ZeroPad(a, width) != ZeroPad(b, width)
  {
    ZeroPadRoundTrip(a, width);
    ZeroPadRoundTrip(b, width);
  }

  function Pow10(k: nat): (p: nat)
    ensures p >= 1
  {
    if k == 0 then 1 else 10 * Pow10(k - 1)
  }

  /** len(str(n)) is the number of decimal digits of n. */
  lemma {:induction false} DigitCount(n: nat)
    ensures n < Pow10(|DecimalString(n)|)
    ensures n >= 1 ==> Pow10(|DecimalString(n)| - 1) <= n
  {
    if n >= 10 {
      DigitCount(n / 10);
    }
  }

}
