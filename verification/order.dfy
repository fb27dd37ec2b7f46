/**
 * The two orders the listing relies on: JavaScript's `<` on strings
 * (lexicographic over characters) and `Number(...)` applied to an
 * identifier (the decimal value of a string of digits).
 */
module Order {
  import opened Payload

  /** JavaScript `a < b` on strings: lexicographic comparison, a proper prefix sorts first. */
  predicate LexLess(a: string, b: string)
    decreases |a|
  {
    if |a| == 0 then |b| > 0
    else if |b| == 0 then false
    else a[0] < b[0] || (a[0] == b[0] && LexLess(a[1..], b[1..]))
  }

  lemma {:induction false} LexLessIrreflexive(a: string)
    ensures !LexLess(a, a)
    decreases |a|
  {
    if |a| > 0 {
      LexLessIrreflexive(a[1..]);
    }
  }

  lemma {:induction false} LexLessAsymmetric(a: string, b: string)
    requires LexLess(a, b)
    ensures !LexLess(b, a)
    decreases |a|
  {
    if |a| > 0 && |b| > 0 && a[0] == b[0] {
      LexLessAsymmetric(a[1..], b[1..]);
    }
  }

  lemma {:induction false} LexLessTransitive(a: string, b: string, c: string)
    requires LexLess(a, b) && LexLess(b, c)
    ensures LexLess(a, c)
    decreases |a|
  {
    if |a| > 0 && a[0] == b[0] && b[0] == c[0] {
      LexLessTransitive(a[1..], b[1..], c[1..]);
    }
  }

  /** Two different strings are always ordered one way or the other. */
  lemma {:induction false} LexLessTotal(a: string, b: string)
    ensures a == b || LexLess(a, b) || LexLess(b, a)
    decreases |a|
  {
    if |a| > 0 && |b| > 0 && a[0] == b[0] {
      LexLessTotal(a[1..], b[1..]);
      if a[1..] == b[1..] {
        assert a == [a[0]] + a[1..] && b == [b[0]] + b[1..];
      }
    }
  }

  function Pow10(n: nat): (r: nat)
    ensures r >= 1
  {
    if n == 0 then 1 else 10 * Pow10(n - 1)
  }

  function DigitValue(c: char): (d: nat)
    requires IsDigit(c)
    ensures d <= 9
  {
    c as int - '0' as int
  }

  /** `Number(s)` for a string of ASCII digits: its decimal value, leading zeros allowed. */
  function DecimalValue(s: string): (v: nat)
    requires AllDigits(s)
    ensures v < Pow10(|s|)
    decreases |s|
  {
    if |s| == 0 then 0
    else
      assert AllDigits(s[1..]);
      var rest := DecimalValue(s[1..]);
      LeadingDigitBound(DigitValue(s[0]), rest, Pow10(|s| - 1));
      DigitValue(s[0]) * Pow10(|s| - 1) + rest
  }

  lemma LeadingDigitBound(d: nat, rest: nat, p: nat)
    requires d <= 9 && rest < p
    ensures d * p + rest < 10 * p
  {
  }

  /** A smaller leading digit wins however the remaining digits compare. */
  lemma LeadingDigitDominates(d1: nat, r1: nat, d2: nat, r2: nat, p: nat)
    requires d1 < d2 && r1 < p
    ensures d1 * p + r1 < d2 * p + r2
  {
    assert (d1 + 1) * p <= d2 * p;
  }

  /**
   * For two digit strings of the same length, numeric order coincides with
   * string order, and numeric equality with string equality.
   */
  lemma {:induction false} DecimalOrder(a: string, b: string)
    requires AllDigits(a) && AllDigits(b) && |a| == |b|
    ensures DecimalValue(a) < DecimalValue(b) <==> LexLess(a, b)
    ensures DecimalValue(a) == DecimalValue(b) <==> a == b
    decreases |a|
  {
    if |a| > 0 {
      assert AllDigits(a[1..]) && AllDigits(b[1..]);
      DecimalOrder(a[1..], b[1..]);
      var p := Pow10(|a| - 1);
      var da, db := DigitValue(a[0]), DigitValue(b[0]);
      var ra, rb := DecimalValue(a[1..]), DecimalValue(b[1..]);
      if a[0] < b[0] {
        LeadingDigitDominates(da, ra, db, rb, p);
      } else if b[0] < a[0] {
        LeadingDigitDominates(db, rb, da, ra, p);
      } else {
        assert a == [a[0]] + a[1..] && b == [b[0]] + b[1..];
      }
    }
  }

  /** The identifier form of `DecimalOrder`: `Number(x) - Number(y)` has the sign of the string comparison. */
  lemma IdentifierOrder(x: string, y: string)
    requires IsIdentifier(x) && IsIdentifier(y)
    ensures DecimalValue(x) < DecimalValue(y) <==> LexLess(x, y)
    ensures DecimalValue(x) == DecimalValue(y) <==> x == y
  {
    DecimalOrder(x, y);
  }
}
