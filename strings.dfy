/** Python's string tests used by the listing: `str.isdigit` on the customer
    identifier and the `>=` comparison of the date filter. */
module Strings {

  predicate IsDigit(ch: char) {
    '0' <= ch <= '9'
  }

  /** Every character of `s` is a digit (vacuously so for the empty string). */
  predicate AllDigits(s: string) {
    forall i :: 0 <= i < |s| ==> IsDigit(s[i])
  }

  /** `s.isdigit()`: at least one character, and every character a digit;
      false on the empty string. */
  predicate IsDigits(s: string) {
    |s| > 0 && AllDigits(s)
  }

  /** Python's `a < b` on `str`: code points compared left to right, and a
      proper prefix is smaller than the longer string. */
  predicate Less(a: string, b: string)
    ensures Less(a, b) ==> a != b
    ensures |a| < |b| && a == b[..|a|] ==> Less(a, b)
    decreases |a|
  {
    if a == [] then b != []
    else if b == [] then false
    else if a[0] != b[0] then a[0] < b[0]
    else Less(a[1..], b[1..])
  }

  /** Python's `a >= b` on `str`: equal, or `b` comes first. */
  predicate AtLeast(a: string, b: string)
    ensures AtLeast(a, b) <==> a == b || Less(b, a)
  {
    LessTotal(a, b);
    LessAsymmetric(b, a);
    !Less(a, b)
  }

  lemma {:induction false} LessAsymmetric(a: string, b: string)
    ensures Less(a, b) ==> !Less(b, a)
    decreases |a|
  {
    if a != [] && b != [] && a[0] == b[0] {
      LessAsymmetric(a[1..], b[1..]);
    }
  }

  lemma {:induction false} LessTransitive(a: string, b: string, c: string)
    requires Less(a, b) && Less(b, c)
    ensures Less(a, c)
    decreases |a|
  {
    if a != [] && a[0] == b[0] && b[0] == c[0] {
      LessTransitive(a[1..], b[1..], c[1..]);
    }
  }

  lemma {:induction false} LessTotal(a: string, b: string)
    ensures a == b || Less(a, b) || Less(b, a)
    decreases |a|
  {
    if a != [] && b != [] && a[0] == b[0] {
      LessTotal(a[1..], b[1..]);
      if a[1..] == b[1..] {
        assert a == [a[0]] + a[1..] && b == [b[0]] + b[1..];
      }
    }
  }

  /** `>=` on strings is a total order: reflexive, antisymmetric, transitive
      and total. */
  lemma AtLeastIsTotalOrder(a: string, b: string, c: string)
    ensures AtLeast(a, a)
    ensures AtLeast(a, b) && AtLeast(b, a) ==> a == b
    ensures AtLeast(a, b) && AtLeast(b, c) ==> AtLeast(a, c)
    ensures AtLeast(a, b) || AtLeast(b, a)
  {
    LessTotal(a, b);
    LessTotal(b, c);
    LessTotal(a, c);
    if Less(a, b) && Less(b, a) {
      LessTransitive(a, b, a);
    }
    if AtLeast(a, b) && AtLeast(b, c) && Less(a, c) {
      if a == b {
      } else if b == c {
      } else {
        LessTransitive(c, b, a);
        LessTransitive(a, c, a);
      }
    }
  }

  function Pow10(n: nat): (p: nat)
    ensures p >= 1
  {
    if n == 0 then 1 else 10 * Pow10(n - 1)
  }

  function DigitValue(ch: char): (d: nat)
    requires IsDigit(ch)
    ensures d <= 9
  {
    ch as int - '0' as int
  }

  /** The number a string of decimal digits denotes. */
  function Value(s: string): (v: nat)
    requires AllDigits(s)
    ensures v < Pow10(|s|)
  {
    if s == [] then 0
    else
      var p := Pow10(|s| - 1);
      var rest := Value(s[1..]);
      assert DigitValue(s[0]) * p <= 9 * p;
      DigitValue(s[0]) * p + rest
  }

  /** Leading digit `da` below `db` makes the whole number smaller, whatever
      the digits after it. */
  lemma LeadingDigitDecides(da: nat, db: nat, ra: nat, rb: nat, p: nat)
    requires da < db && ra < p
    ensures da * p + ra < db * p + rb
  {
    assert (da + 1) * p <= db * p;
  }

  /** For digit strings of the same length (epoch seconds of the same number
      of digits), comparing the text is comparing the numbers. */
  predicate SameDigitCount(a: string, b: string) {
    |a| == |b| && AllDigits(a) && AllDigits(b)
  }

  lemma {:induction false} AtLeastOnDigitsIsNumeric(a: string, b: string)
    ensures SameDigitCount(a, b) ==> (AtLeast(a, b) <==> Value(a) >= Value(b))
    decreases |a|
  {
    if SameDigitCount(a, b) && a != [] {
      var p := Pow10(|a| - 1);
      if a[0] == b[0] {
        AtLeastOnDigitsIsNumeric(a[1..], b[1..]);
      } else if a[0] < b[0] {
        LeadingDigitDecides(DigitValue(a[0]), DigitValue(b[0]), Value(a[1..]), Value(b[1..]), p);
      } else {
        LeadingDigitDecides(DigitValue(b[0]), DigitValue(a[0]), Value(b[1..]), Value(a[1..]), p);
      }
    }
  }

  /** For digit strings of different lengths the text order is not the
      numeric one: "9" >= "10" although 9 < 10. */
  lemma AtLeastOnDigitsIgnoresLength()
    ensures AtLeast("9", "10") && Value("9") < Value("10")
  {
  }
}
