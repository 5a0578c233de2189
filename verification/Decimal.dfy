/** Decimal notation of natural numbers, as `str` writes them, and how it is read back. */
module Decimal {

  predicate IsDigit(c: char) {
    '0' <= c <= '9'
  }

  function DigitChar(d: nat): (c: char)
    requires d < 10
    ensures IsDigit(c)
  {
    '0' + d as char
  }

  function DigitValue(c: char): (d: nat)
    requires IsDigit(c)
    ensures d < 10
  {
    (c - '0') as nat
  }

  /** The digits of `n`, most significant first, without leading zeros. */
  function Digits(n: nat): (s: string)
    ensures |s| > 0
    ensures forall k :: 0 <= k < |s| ==> IsDigit(s[k])
  {
    if n < 10 then [DigitChar(n)] else Digits(n / 10) + [DigitChar(n % 10)]
  }

  /** The number that a run of digits denotes. */
  function Value(s: string): nat
    requires forall k :: 0 <= k < |s| ==> IsDigit(s[k])
  {
    if |s| == 0 then 0 else 10 * Value(s[..|s| - 1]) + DigitValue(s[|s| - 1])
  }

  lemma {:induction false} ValueOfDigits(n: nat)
    ensures Value(Digits(n)) == n
  {
    if n < 10 {
      assert Digits(n)[..0] == [];
    } else {
      var s := Digits(n);
      assert s[..|s| - 1] == Digits(n / 10);
      ValueOfDigits(n / 10);
    }
  }

  lemma DigitsInjective(m: nat, n: nat)
    requires Digits(m) == Digits(n)
    ensures m == n
  {
    ValueOfDigits(m);
    ValueOfDigits(n);
  }

  /** How many leading characters of `s` are digits. */
  function Span(s: string): (n: nat)
    ensures n <= |s|
    ensures forall k :: 0 <= k < n ==> IsDigit(s[k])
    ensures n < |s| ==> !IsDigit(s[n])
  {
    if |s| > 0 && IsDigit(s[0]) then 1 + Span(s[1..]) else 0
  }

  lemma {:induction false} SpanOfDigits(d: string, rest: string)
    requires forall k :: 0 <= k < |d| ==> IsDigit(d[k])
    requires |rest| > 0 ==> !IsDigit(rest[0])
    ensures Span(d + rest) == |d|
  {
    if |d| == 0 {
      assert d + rest == rest;
    } else {
      assert (d + rest)[1..] == d[1..] + rest;
      SpanOfDigits(d[1..], rest);
    }
  }

  /** A number written before a non-digit can be told apart from what follows it. */
  lemma DigitsSplit(m: nat, n: nat, u: string, v: string)
    requires |u| > 0 && !IsDigit(u[0])
    requires |v| > 0 && !IsDigit(v[0])
    requires Digits(m) + u == Digits(n) + v
    ensures m == n && u == v
  {
    SpanOfDigits(Digits(m), u);
    SpanOfDigits(Digits(n), v);
    var s := Digits(m) + u;
    assert Digits(m) == s[..|Digits(m)|] == Digits(n);
    DigitsInjective(m, n);
    assert u == s[|Digits(m)|..] == v;
  }

  /** Digits are those of ASCII, the most significant first. */
  lemma DigitsVectors()
    ensures forall d :: 0 <= d < 10 ==> DigitChar(d) == "0123456789"[d]
    ensures Digits(0) == "0" && Digits(9) == "9" && Digits(1204) == "1204"
  {
    assert Digits(1) == "1";
    assert Digits(12) == Digits(1) + "2" == "12";
    assert Digits(120) == Digits(12) + "0" == "120";
    assert Digits(1204) == Digits(120) + "4" == "1204";
  }
}
