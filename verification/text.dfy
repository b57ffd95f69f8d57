/**
 * The string operations the calendar engine relies on: removing the `-`
 * separators of a date, Python's ordering of `str` values, and the value of
 * a run of decimal digits (what `int(...)` gives for one).
 */
module Text {

  // ---------------------------------------------------------------------
  // Removing separators: `date_str.replace("-", "")`
  // ---------------------------------------------------------------------

  /** `s` with every `-` removed and every other character kept, in order. */
  function StripDashes(s: string): (r: string)
    ensures |r| <= |s|
    ensures forall i :: 0 <= i < |r| ==> r[i] != '-'
  {
    if s == [] then []
    else (if s[0] == '-' then [] else [s[0]]) + StripDashes(s[1..])
  }

  /** Stripping works piecewise, so the characters that remain keep their order. */
  lemma {:induction false} StripDashesAppend(a: string, b: string)
    ensures StripDashes(a + b) == StripDashes(a) + StripDashes(b)
  {
    if a == [] {
      assert a + b == b;
    } else {
      assert (a + b)[0] == a[0] && (a + b)[1..] == a[1..] + b;
      StripDashesAppend(a[1..], b);
    }
  }

  /** A string without separators is already normal: `YYYYMMDD` is accepted as it stands. */
  lemma {:induction false} StripDashesNoDash(s: string)
    requires forall i :: 0 <= i < |s| ==> s[i] != '-'
    ensures StripDashes(s) == s
  {
    if s != [] {
      StripDashesNoDash(s[1..]);
    }
  }

  /** Normalising twice is normalising once. */
  lemma StripDashesIdempotent(s: string)
    ensures StripDashes(StripDashes(s)) == StripDashes(s)
  {
    StripDashesNoDash(StripDashes(s));
  }

  /** Only `-` is removed: every other character occurs as often as before. */
  lemma {:induction false} StripDashesKeepsOthers(s: string, c: char)
    requires c != '-'
    ensures multiset(StripDashes(s))[c] == multiset(s)[c]
  {
    if s != [] {
      StripDashesKeepsOthers(s[1..], c);
      assert s == [s[0]] + s[1..];
    }
  }

  /** The dashed form `YYYY-MM-DD` normalises to `YYYYMMDD`. */
  lemma DashedDateNormalizes(y: string, m: string, d: string)
    requires forall i :: 0 <= i < |y| ==> y[i] != '-'
    requires forall i :: 0 <= i < |m| ==> m[i] != '-'
    requires forall i :: 0 <= i < |d| ==> d[i] != '-'
    ensures StripDashes(y + "-" + m + "-" + d) == y + m + d
  {
    var dash := "-";
    assert StripDashes(dash) == [] by {
      assert dash[0] == '-' && dash[1..] == [];
    }
    var s1 := y + dash;
    var s2 := s1 + m;
    var s3 := s2 + dash;
    assert StripDashes(s1) == y by {
      StripDashesNoDash(y);
      StripDashesAppend(y, dash);
    }
    assert StripDashes(s2) == y + m by {
      StripDashesNoDash(m);
      StripDashesAppend(s1, m);
    }
    assert StripDashes(s3) == y + m by {
      StripDashesAppend(s2, dash);
    }
    assert StripDashes(s3 + d) == y + m + d by {
      StripDashesNoDash(d);
      StripDashesAppend(s3, d);
    }
  }

  // ---------------------------------------------------------------------
  // Python's `a <= b` on `str`: lexicographic by code point
  // ---------------------------------------------------------------------

  /**
   * `a <= b` as Python compares strings: the first differing character
   * decides, and a prefix comes first (`"2026" <= "20260101"`). Dafny's
   * own `<=` on sequences is only that prefix relation, not this order.
   */
  predicate LexLe(a: string, b: string)
    ensures a <= b ==> LexLe(a, b)
  {
    a == [] || (b != [] && (a[0] < b[0] || (a[0] == b[0] && LexLe(a[1..], b[1..]))))
  }

  lemma {:induction false} LexLeReflexive(a: string)
    ensures LexLe(a, a)
  {
    if a != [] {
      LexLeReflexive(a[1..]);
    }
  }

  lemma {:induction false} LexLeAntisymmetric(a: string, b: string)
    requires LexLe(a, b) && LexLe(b, a)
    ensures a == b
  {
    if a != [] {
      LexLeAntisymmetric(a[1..], b[1..]);
      assert a == [a[0]] + a[1..] && b == [b[0]] + b[1..];
    }
  }

  lemma {:induction false} LexLeTransitive(a: string, b: string, c: string)
    requires LexLe(a, b) && LexLe(b, c)
    ensures LexLe(a, c)
  {
    if a != [] && a[0] == b[0] && b[0] == c[0] {
      LexLeTransitive(a[1..], b[1..], c[1..]);
    }
  }

  lemma {:induction false} LexLeTotal(a: string, b: string)
    ensures LexLe(a, b) || LexLe(b, a)
  {
    if a != [] && b != [] && a[0] == b[0] {
      LexLeTotal(a[1..], b[1..]);
    }
  }

  // ---------------------------------------------------------------------
  // Decimal digits: `int(s)` for a string of ASCII digits
  // ---------------------------------------------------------------------

  predicate IsDigit(c: char)
  {
    '0' <= c <= '9'
  }

  predicate AllDigits(s: string)
  {
    forall i :: 0 <= i < |s| ==> IsDigit(s[i])
  }

  function Pow10(n: nat): (p: nat)
    ensures p >= 1
  {
    if n == 0 then 1 else 10 * Pow10(n - 1)
  }

  function DigitValue(c: char): (d: nat)
    requires IsDigit(c)
    ensures d <= 9
  {
    (c as int) - ('0' as int)
  }

  lemma MulLe(x: nat, y: nat, p: nat)
    requires x <= y
    ensures x * p <= y * p
  {
  }

  /** A smaller leading digit outweighs any tail below the place value `p`. */
  lemma LeadingDigitDominates(da: nat, db: nat, p: nat, ra: nat, rb: nat)
    requires da < db && ra < p
    ensures da * p + ra < db * p + rb
  {
    MulLe(da + 1, db, p);
    assert (da + 1) * p == da * p + p;
  }

  /** The number a string of decimal digits denotes, leading zeros allowed; it has at most `|s|` digits. */
  function DigitsValue(s: string): (n: nat)
    requires AllDigits(s)
    ensures n < Pow10(|s|)
  {
    if s == [] then 0
    else
      var p := Pow10(|s| - 1);
      MulLe(DigitValue(s[0]), 9, p);
      DigitValue(s[0]) * p + DigitsValue(s[1..])
  }

  /**
   * On digit strings of one length, Python's string order is numeric order:
   * why `date >= today` on fixed-width `YYYYMMDD` strings compares dates.
   */
  lemma {:induction false} LexLeMatchesNumericOrder(a: string, b: string)
    requires |a| == |b| && AllDigits(a) && AllDigits(b)
    ensures LexLe(a, b) <==> DigitsValue(a) <= DigitsValue(b)
  {
    if a != [] {
      var p := Pow10(|a| - 1);
      var da, db := DigitValue(a[0]), DigitValue(b[0]);
      assert DigitsValue(a) == da * p + DigitsValue(a[1..]);
      assert DigitsValue(b) == db * p + DigitsValue(b[1..]);
      if a[0] == b[0] {
        LexLeMatchesNumericOrder(a[1..], b[1..]);
      } else if a[0] < b[0] {
        LeadingDigitDominates(da, db, p, DigitsValue(a[1..]), DigitsValue(b[1..]));
      } else {
        LeadingDigitDominates(db, da, p, DigitsValue(b[1..]), DigitsValue(a[1..]));
      }
    }
  }
}
