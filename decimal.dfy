/**
 * Decimal text of natural numbers: Python's `str(int)` (no padding), the
 * two-digit zero padding of `strftime` fields, and reading a digit string back.
 */
module Decimal {

  predicate IsDigit(c: char) {
    '0' <= c <= '9'
  }

  predicate AllDigits(s: string) {
    forall k | 0 <= k < |s| :: IsDigit(s[k])
  }

  function DigitChar(d: nat): (c: char)
    requires d < 10
    ensures IsDigit(c)
  {
    ('0' as int + d) as char
  }

  function DigitValue(c: char): (d: nat)
    requires IsDigit(c)
    ensures d < 10 && DigitChar(d) == c
  {
    c as int - '0' as int
  }

  /** `str(n)` for a non-negative integer: shortest decimal text, no leading zero. */
  function NatToString(n: nat): (s: string)
    ensures |s| >= 1 && AllDigits(s)
    ensures s[0] == '0' ==> n == 0
    ensures |s| == 1 <==> n < 10
  {
    if n < 10 then [DigitChar(n)] else NatToString(n / 10) + [DigitChar(n % 10)]
  }

  /** The number a digit string denotes (leading zeros allowed), as `int(s)` reads it. */
  function DigitsValue(s: string): (v: nat)
    requires AllDigits(s)
  {
    if s == [] then 0 else 10 * DigitsValue(s[..|s| - 1]) + DigitValue(s[|s| - 1])
  }

  /** Two-digit zero-padded field, as `strftime` writes `%m`, `%d`, `%H`, `%M` and `%S`. */
  function Pad2(v: nat): (s: string)
    requires v < 100
  {
    [DigitChar(v / 10), DigitChar(v % 10)]
  }

  lemma {:induction false} ValueOfNatToString(n: nat)
    ensures DigitsValue(NatToString(n)) == n
  {
    if n >= 10 {
      var s := NatToString(n);
      assert s[..|s| - 1] == NatToString(n / 10);
      ValueOfNatToString(n / 10);
    }
  }

  lemma {:induction false} DigitsValueBound(s: string)
    requires AllDigits(s)
    ensures |s| <= 4 ==> DigitsValue(s) < 10000
    ensures |s| <= 3 ==> DigitsValue(s) < 1000
    ensures |s| <= 2 ==> DigitsValue(s) < 100
    ensures |s| <= 1 ==> DigitsValue(s) < 10
  {
    if s != [] {
      DigitsValueBound(s[..|s| - 1]);
    }
  }

  lemma {:induction false} LeadingDigitPositive(s: string)
    requires AllDigits(s) && |s| >= 1 && s[0] != '0'
    ensures DigitsValue(s) >= 1
  {
    if |s| > 1 {
      LeadingDigitPositive(s[..|s| - 1]);
    }
  }

  /** A digit string without a redundant leading zero is the `str` of its own value. */
  lemma {:induction false} NatToStringOfValue(s: string)
    requires AllDigits(s) && |s| >= 1 && (s[0] != '0' || |s| == 1)
    ensures NatToString(DigitsValue(s)) == s
  {
    if |s| > 1 {
      var p := s[..|s| - 1];
      LeadingDigitPositive(p);
      NatToStringOfValue(p);
      assert s == p + [s[|s| - 1]];
    }
  }

  lemma NatToStringInjective(a: nat, b: nat)
    requires NatToString(a) == NatToString(b)
    ensures a == b
  {
    ValueOfNatToString(a);
    ValueOfNatToString(b);
  }

  /** The two-digit field of v < 100 reads back as v. */
  lemma Pad2Value(v: nat)
    requires v < 100
    ensures AllDigits(Pad2(v)) && DigitsValue(Pad2(v)) == v
  {
    var p := Pad2(v);
    assert p[..1] == [DigitChar(v / 10)];
    assert DigitValue(DigitChar(v / 10)) == v / 10;
    assert DigitValue(DigitChar(v % 10)) == v % 10;
    assert DigitsValue(p[..1]) == v / 10 by {
      assert p[..1][..0] == [];
    }
    assert DigitsValue(p) == 10 * DigitsValue(p[..1]) + DigitValue(p[1]);
  }

  /** Any two-digit string is the two-digit field of its value. */
  lemma Pad2OfValue(s: string)
    requires |s| == 2 && AllDigits(s)
    ensures DigitsValue(s) < 100 && Pad2(DigitsValue(s)) == s
  {
    assert s[..1] == [s[0]];
    assert DigitsValue(s[..1]) == DigitValue(s[0]) by {
      assert s[..1][..0] == [];
    }
    var v := DigitsValue(s);
    assert v == 10 * DigitValue(s[0]) + DigitValue(s[1]);
    assert v / 10 == DigitValue(s[0]) && v % 10 == DigitValue(s[1]);
  }

  /**
   * Two digit strings each followed by a non-digit: if the concatenations are
   * equal, so are the digit strings and the rests.
   */
  lemma DigitPrefixSplit(d1: string, r1: string, d2: string, r2: string)
    requires AllDigits(d1) && AllDigits(d2)
    requires |r1| >= 1 && !IsDigit(r1[0]) && |r2| >= 1 && !IsDigit(r2[0])
    requires d1 + r1 == d2 + r2
    ensures d1 == d2 && r1 == r2
  {
    assert d1 == (d1 + r1)[..|d1|];
    assert d2 == (d2 + r2)[..|d2|];
    assert r1 == (d1 + r1)[|d1|..];
    assert r2 == (d2 + r2)[|d2|..];
  }
}
