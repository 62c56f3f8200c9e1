/**
 * Character and string helpers shared by the media finder and the
 * dashboard: ASCII case folding, decimal digits, and the code-point
 * lexicographic order that Python's `<` uses on strings.
 */
module Text {

  // ---------------------------------------------------------------------
  // Case folding.

  /** One character of `toLowerCase`: 'A'..'Z' become 'a'..'z', everything else is kept. */
  function LowerChar(c: char): (d: char)
    ensures 'A' <= c <= 'Z' ==> 'a' <= d <= 'z' && d as int - 'a' as int == c as int - 'A' as int
    ensures !('A' <= c <= 'Z') ==> d == c
  {
    if 'A' <= c <= 'Z' then (c as int - 'A' as int + 'a' as int) as char else c
  }

  function Lower(s: string): (r: string)
    ensures |r| == |s|
    ensures forall i :: 0 <= i < |s| ==> r[i] == LowerChar(s[i])
  {
    seq(|s|, i requires 0 <= i < |s| => LowerChar(s[i]))
  }

  /** A lower-cased string has no upper-case letter, and lower-casing it again changes nothing. */
  lemma LowerIdempotent(s: string)
    ensures forall i :: 0 <= i < |Lower(s)| ==> !('A' <= Lower(s)[i] <= 'Z')
    ensures Lower(Lower(s)) == Lower(s)
  {
  }

  // ---------------------------------------------------------------------
  // Decimal digits.

  predicate IsDigit(c: char) {
    '0' <= c <= '9'
  }

  predicate AllDigits(s: string) {
    forall i :: 0 <= i < |s| ==> IsDigit(s[i])
  }

  function DigitValue(c: char): (v: nat)
    requires IsDigit(c)
    ensures v < 10
  {
    c as int - '0' as int
  }

  function DigitChar(v: nat): (c: char)
    requires v < 10
    ensures IsDigit(c) && DigitValue(c) == v
  {
    ('0' as int + v) as char
  }

  /** The value of a string of decimal digits, most significant first. */
  function DecimalValue(s: string): (v: nat)
    requires AllDigits(s)
  {
    if s == [] then 0 else 10 * DecimalValue(s[..|s| - 1]) + DigitValue(s[|s| - 1])
  }

  /** A number below 10^n has a value of at most n digits. */
  lemma {:induction false} DecimalValueBound(s: string)
    requires AllDigits(s)
    ensures DecimalValue(s) < Pow10(|s|)
  {
    if s != [] {
      DecimalValueBound(s[..|s| - 1]);
    }
  }

  function Pow10(n: nat): (p: nat)
    ensures p >= 1
  {
    if n == 0 then 1 else 10 * Pow10(n - 1)
  }

  /** n written with exactly `width` decimal digits, zero-padded on the left (n < 10^width). */
  function PadDecimal(n: nat, width: nat): (s: string)
    requires n < Pow10(width)
    ensures |s| == width && AllDigits(s)
  {
    if width == 0 then [] else PadDecimal(n / 10, width - 1) + [DigitChar(n % 10)]
  }

  /** Reading back a zero-padded number gives the number. */
  lemma {:induction false} PadDecimalValue(n: nat, width: nat)
    requires n < Pow10(width)
    ensures DecimalValue(PadDecimal(n, width)) == n
  {
    if width > 0 {
      PadDecimalValue(n / 10, width - 1);
      var s := PadDecimal(n, width);
      assert s[..|s| - 1] == PadDecimal(n / 10, width - 1);
    }
  }

  /** Writing out the value of a digit string of the same width gives the string back. */
  lemma {:induction false} DecimalValuePad(s: string)
    requires AllDigits(s)
    ensures DecimalValue(s) < Pow10(|s|)
    ensures PadDecimal(DecimalValue(s), |s|) == s
  {
    DecimalValueBound(s);
    if s != [] {
      var init := s[..|s| - 1];
      DecimalValuePad(init);
      var v := DecimalValue(s);
      assert v / 10 == DecimalValue(init) && v % 10 == DigitValue(s[|s| - 1]);
      assert s == init + [s[|s| - 1]];
    }
  }

  // ---------------------------------------------------------------------
  // Python's `<` on strings.

  /** a < b in code-point lexicographic order: a proper prefix, or smaller at the first difference. */
  predicate LexLess(a: string, b: string)
    decreases |a|
  {
    if a == [] then b != []
    else if b == [] then false
    else if a[0] != b[0] then a[0] < b[0]
    else LexLess(a[1..], b[1..])
  }

  lemma {:induction false} LexLessIrreflexive(a: string)
    ensures !LexLess(a, a)
    decreases |a|
  {
    if a != [] {
      LexLessIrreflexive(a[1..]);
    }
  }

  lemma {:induction false} LexLessAsymmetric(a: string, b: string)
    requires LexLess(a, b)
    ensures !LexLess(b, a)
    decreases |a|
  {
    if a != [] && b != [] && a[0] == b[0] {
      LexLessAsymmetric(a[1..], b[1..]);
    }
  }

  lemma {:induction false} LexLessTransitive(a: string, b: string, c: string)
    requires LexLess(a, b) && LexLess(b, c)
    ensures LexLess(a, c)
    decreases |a|
  {
    if a != [] && b != [] && c != [] && a[0] == b[0] && b[0] == c[0] {
      LexLessTransitive(a[1..], b[1..], c[1..]);
    }
  }

  /** Any two different strings are ordered one way or the other. */
  lemma {:induction false} LexLessTotal(a: string, b: string)
    requires a != b
    ensures LexLess(a, b) || LexLess(b, a)
    decreases |a|
  {
    if a != [] && b != [] && a[0] == b[0] {
      assert a == [a[0]] + a[1..] && b == [b[0]] + b[1..];
      LexLessTotal(a[1..], b[1..]);
    }
  }

  /** Comparing a + b with c + d, |a| == |c|: the heads decide unless they are equal. */
  lemma {:induction false} LexLessConcat(a: string, b: string, c: string, d: string)
    requires |a| == |c|
    ensures a != c ==> (LexLess(a + b, c + d) <==> LexLess(a, c))
    ensures a == c ==> (LexLess(a + b, c + d) <==> LexLess(b, d))
    decreases |a|
  {
    if a != [] {
      assert (a + b)[0] == a[0] && (c + d)[0] == c[0];
      assert (a + b)[1..] == a[1..] + b && (c + d)[1..] == c[1..] + d;
      LexLessConcat(a[1..], b, c[1..], d);
      if a[0] == c[0] && a[1..] == c[1..] {
        assert a == [a[0]] + a[1..] && c == [c[0]] + c[1..];
      }
    } else {
      assert a + b == b && c + d == d;
    }
  }

  /**
   * On digit strings of the same width, string order is numeric order: this is
   * why comparing "YYYY-MM-DD" texts compares the dates they name.
   */
  lemma {:induction false} LexLessDigits(a: string, b: string)
    requires |a| == |b| && AllDigits(a) && AllDigits(b)
    ensures LexLess(a, b) <==> DecimalValue(a) < DecimalValue(b)
    decreases |a|
  {
    if a != [] {
      var p := Pow10(|a| - 1);
      DecimalValueBound(a[1..]);
      DecimalValueBound(b[1..]);
      LexLessDigits(a[1..], b[1..]);
      LeadingDigit(a);
      LeadingDigit(b);
      var da, db := DigitValue(a[0]), DigitValue(b[0]);
      if da < db {
        PlaceValueOrder(da, db, DecimalValue(a[1..]), DecimalValue(b[1..]), p);
      } else if db < da {
        PlaceValueOrder(db, da, DecimalValue(b[1..]), DecimalValue(a[1..]), p);
      }
    }
  }

  /** A smaller leading digit wins whatever the lower places hold. */
  lemma PlaceValueOrder(da: nat, db: nat, ra: nat, rb: nat, p: nat)
    requires da < db && ra < p && rb < p
    ensures da * p + ra < db * p + rb
  {
    assert (da + 1) * p <= db * p by {
      MulMonotone(da + 1, db, p);
    }
  }

  lemma MulMonotone(a: nat, b: nat, p: nat)
    requires a <= b
    ensures a * p <= b * p
  {
  }

  /** The value of a digit string is its first digit times 10^(n-1) plus the value of the rest. */
  lemma {:induction false} LeadingDigit(s: string)
    requires AllDigits(s) && s != []
    ensures DecimalValue(s) == DigitValue(s[0]) * Pow10(|s| - 1) + DecimalValue(s[1..])
    decreases |s|
  {
    if |s| > 1 {
      var init := s[..|s| - 1];
      LeadingDigit(init);
      var d0, dn := DigitValue(s[0]), DigitValue(s[|s| - 1]);
      var p := Pow10(|s| - 2);
      var r := DecimalValue(init[1..]);
      assert init[1..] == s[1..][..|s| - 2];
      assert DecimalValue(s[1..]) == 10 * r + dn;
      assert DecimalValue(s) == 10 * (d0 * p + r) + dn;
      assert Pow10(|s| - 1) == 10 * p;
      ShiftPlace(DecimalValue(s), d0, p, r, dn, Pow10(|s| - 1), DecimalValue(s[1..]));
    } else {
      assert s[1..] == [];
    }
  }

  /** Moving the leading digit one place up: 10 * (d * p + r) + e == d * (10 * p) + (10 * r + e). */
  lemma ShiftPlace(v: int, d: int, p: int, r: int, e: int, q: int, w: int)
    requires v == 10 * (d * p + r) + e && q == 10 * p && w == 10 * r + e
    ensures v == d * q + w
  {
  }
}
