/** Calendar dates written as zero-padded `YYYY-MM-DD`, the layout Go's
    `time.Format("2006-01-02")` produces and the registry's `eol` field uses.
    The EOL decision compares such strings with Go's string order; this module
    proves that, for well-formed dates, that order is chronological order. */
module IsoDate {
  import Lex

  predicate IsDigit(c: char)
  {
    '0' <= c <= '9'
  }

  predicate AllDigits(s: string)
  {
    forall i :: 0 <= i < |s| ==> IsDigit(s[i])
  }

  function DigitValue(c: char): (d: nat)
    requires IsDigit(c)
    ensures d < 10
  {
    c as int - '0' as int
  }

  function Pow10(n: nat): (p: nat)
    ensures p > 0
  {
    if n == 0 then 1 else 10 * Pow10(n - 1)
  }

  lemma MulMonotonic(x: nat, y: nat, p: nat)
    requires x <= y
    ensures x * p <= y * p && (x + 1) * p == x * p + p
  {
  }

  /** A smaller leading digit gives a smaller number, whatever follows it. */
  lemma LeadingDigitDecides(x: nat, y: nat, p: nat, m: nat, n: nat)
    requires x < y && m < p
    ensures x * p + m < y * p + n
  {
    MulMonotonic(x + 1, y, p);
  }

  /** The value of a string of decimal digits, most significant digit first. */
  function Number(s: string): (n: nat)
    requires AllDigits(s)
  {
    if |s| == 0 then 0 else DigitValue(s[0]) * Pow10(|s| - 1) + Number(s[1..])
  }

  lemma {:induction false} NumberBound(s: string)
    requires AllDigits(s)
    ensures Number(s) < Pow10(|s|)
  {
    if |s| > 0 {
      NumberBound(s[1..]);
      MulMonotonic(DigitValue(s[0]), 9, Pow10(|s| - 1));
    }
  }

  /** For digit strings of equal width, string order is numeric order. */
  lemma {:induction false} DigitsOrder(a: string, b: string)
    requires |a| == |b| && AllDigits(a) && AllDigits(b)
    ensures Lex.Less(a, b) <==> Number(a) < Number(b)
  {
    if |a| > 0 {
      var p := Pow10(|a| - 1);
      var da, db := DigitValue(a[0]), DigitValue(b[0]);
      var ta, tb := a[1..], b[1..];
      assert AllDigits(ta) && AllDigits(tb);
      assert Number(a) == da * p + Number(ta);
      assert Number(b) == db * p + Number(tb);
      if a[0] == b[0] {
        DigitsOrder(ta, tb);
        assert Lex.Less(a, b) == Lex.Less(ta, tb);
      } else if a[0] < b[0] {
        NumberBound(ta);
        LeadingDigitDecides(da, db, p, Number(ta), Number(tb));
        assert Lex.Less(a, b);
      } else {
        NumberBound(tb);
        LeadingDigitDecides(db, da, p, Number(tb), Number(ta));
        assert !Lex.Less(a, b);
      }
    }
  }

  /** Equal-width digit strings with the same value are the same string. */
  lemma NumberInjective(a: string, b: string)
    requires |a| == |b| && AllDigits(a) && AllDigits(b)
    ensures Number(a) == Number(b) <==> a == b
  {
    DigitsOrder(a, b);
    DigitsOrder(b, a);
    Lex.Trichotomy(a, b);
  }

  /** A zero-padded `YYYY-MM-DD` string. */
  predicate WellFormed(s: string)
  {
    |s| == 10 && AllDigits(s[0..4]) && s[4] == '-' && AllDigits(s[5..7]) && s[7] == '-' && AllDigits(s[8..10])
  }

  function Year(s: string): (n: nat)
    requires WellFormed(s)
  {
    Number(s[0..4])
  }

  function Month(s: string): (n: nat)
    requires WellFormed(s)
  {
    Number(s[5..7])
  }

  function Day(s: string): (n: nat)
    requires WellFormed(s)
  {
    Number(s[8..10])
  }

  /** Chronological order: (year, month, day) compared as a tuple. */
  predicate Before(a: string, b: string)
    requires WellFormed(a) && WellFormed(b)
  {
    Year(a) < Year(b)
    || (Year(a) == Year(b) && Month(a) < Month(b))
    || (Year(a) == Year(b) && Month(a) == Month(b) && Day(a) < Day(b))
  }

  /** Comparing the suffixes from `i` equals comparing the `w`-digit field at `i`
      numerically, then the suffixes after it. */
  lemma FieldStep(a: string, b: string, i: nat, w: nat)
    requires i + w <= |a| && i + w <= |b|
    requires AllDigits(a[i..i + w]) && AllDigits(b[i..i + w])
    ensures Lex.Less(a[i..], b[i..]) <==>
              Number(a[i..i + w]) < Number(b[i..i + w])
              || (Number(a[i..i + w]) == Number(b[i..i + w]) && Lex.Less(a[i + w..], b[i + w..]))
  {
    Lex.LessSplit(a[i..], b[i..], w);
    assert a[i..][..w] == a[i..i + w] && b[i..][..w] == b[i..i + w];
    assert a[i..][w..] == a[i + w..] && b[i..][w..] == b[i + w..];
    DigitsOrder(a[i..i + w], b[i..i + w]);
    NumberInjective(a[i..i + w], b[i..i + w]);
  }

  /** A character both strings share at `i` does not affect the comparison. */
  lemma SeparatorStep(a: string, b: string, i: nat)
    requires i < |a| && i < |b| && a[i] == b[i]
    ensures Lex.Less(a[i..], b[i..]) <==> Lex.Less(a[i + 1..], b[i + 1..])
  {
    assert a[i..][1..] == a[i + 1..] && b[i..][1..] == b[i + 1..];
  }

  /** For well-formed dates, Go's string comparison is chronological comparison. */
  lemma LexOrderIsDateOrder(a: string, b: string)
    requires WellFormed(a) && WellFormed(b)
    ensures Lex.Less(a, b) <==> Before(a, b)
  {
    assert a[0..] == a && b[0..] == b;
    FieldStep(a, b, 0, 4);
    SeparatorStep(a, b, 4);
    FieldStep(a, b, 5, 2);
    SeparatorStep(a, b, 7);
    FieldStep(a, b, 8, 2);
    assert a[10..] == [] && b[10..] == [];
  }
}
