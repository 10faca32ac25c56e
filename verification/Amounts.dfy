/**
 * Amounts as text: the pattern of a bid, the exact cents it stands for, and the comparison of the bid script,
 * which reads both sides as IEEE 754 doubles.
 */
module Amounts {
  import opened Domain
  import opened Decimal

  /** `^[0-9]{1,10}\.[0-9]{2}$` */
  predicate MatchesPattern(s: string) {
    && 4 <= |s| <= 13
    && s[|s| - 3] == '.'
    && AllDigits(s[..|s| - 3]) && AllDigits(s[|s| - 2..])
  }

  /** The exact value, in cents. */
  function CentsOf(s: string): Cents
    requires MatchesPattern(s)
  {
    100 * DigitsValue(s[..|s| - 3]) + DigitsValue(s[|s| - 2..])
  }

  predicate IsAmount(s: string, whole: string, part: string) {
    && 1 <= |whole| <= 10 && |part| == 2 && s == whole + "." + part
    && (forall i | 0 <= i < |whole| :: '0' <= whole[i] <= '9') && (forall i | 0 <= i < |part| :: '0' <= part[i] <= '9')
  }

  /** One to ten digits, a point, and two digits: so many cents to a hundred. */
  lemma PatternExactly(s: string)
    ensures MatchesPattern(s) <==>
            exists whole, part :: IsAmount(s, whole, part)
    ensures forall whole, part | IsAmount(s, whole, part) ::
              MatchesPattern(s) && CentsOf(s) == 100 * DigitsValue(whole) + DigitsValue(part)
  {
    if MatchesPattern(s) {
      assert s == s[..|s| - 3] + "." + s[|s| - 2..];
      assert IsAmount(s, s[..|s| - 3], s[|s| - 2..]);
    }
    forall whole, part | IsAmount(s, whole, part)
      ensures MatchesPattern(s) && CentsOf(s) == 100 * DigitsValue(whole) + DigitsValue(part)
    {
      assert s[..|s| - 3] == whole && s[|s| - 2..] == part;
    }
  }

  /** What the decimal denotes, as the real number that is converted to a double. */
  function ValueOf(s: string): real
    requires MatchesPattern(s)
  {
    CentsOf(s) as real / 100.0
  }

  /** Every amount of the pattern fits NUMERIC(12, 2), so a bid's amount never overflows its column. */
  lemma AmountFits(s: string)
    requires MatchesPattern(s)
    ensures 0 <= CentsOf(s) < NUMERIC_LIMIT
  {
    DigitsBound(s[..|s| - 3]);
    DigitsBound(s[|s| - 2..]);
    Power10Grows(|s| - 3, 10);
    assert Power10(2) == 100;
    assert Power10(10) == 10_000_000_000 by {
      assert Power10(6) == 1_000_000;
    }
  }

  /** Leading zeros do not change an amount. */
  lemma LeadingZero(s: string)
    requires MatchesPattern(s) && MatchesPattern("0" + s)
    ensures CentsOf("0" + s) == CentsOf(s)
  {
    var t := "0" + s;
    assert t[..|t| - 3] == "0" + s[..|s| - 3];
    assert t[|t| - 2..] == s[|s| - 2..];
    ZeroInFront(s[..|s| - 3]);
  }

  // ---------- doubles ----------

  const MANTISSA: int := 0x20_0000_0000_0000

  function Power2(e: nat): real {
    if e == 0 then 1.0 else 2.0 * Power2(e - 1)
  }

  predicate IsScaled(y: real, m: int, e: nat) {
    && -MANTISSA < m < MANTISSA
    && ((e <= 1074 && y * Power2(e) == m as real) || (e <= 971 && y == m as real * Power2(e)))
  }

  /** A finite binary64 value: a 53-bit integer, scaled by a power of two within the exponent range. */
  ghost predicate IsDouble(y: real) {
    exists m: int, e: nat :: IsScaled(y, m, e)
  }

  function Distance(x: real, y: real): real {
    if x <= y then y - x else x - y
  }

  /** `y` is a double nearest to `x`; ties may go either way. */
  ghost predicate Nearest(x: real, y: real) {
    IsDouble(y) && forall z :: IsDouble(z) ==> Distance(x, y) <= Distance(x, z)
  }

  /** Conversion from decimal, rounding to nearest as section 4.3.1 of IEEE 754-2019 has it. */
  ghost predicate CorrectlyRounding(f: real -> real) {
    forall x :: Nearest(x, f(x))
  }

  const GRID: int := 524_288

  /** Below 10^10 there is a double within 2^-19, which is far less than half a cent. */
  lemma DoubleNearby(x: real) returns (z: real)
    requires 0.0 <= x < 10_000_000_000.0
    ensures IsDouble(z) && Distance(x, z) < 1.0 / GRID as real
  {
    var m := (x * GRID as real).Floor;
    z := m as real / GRID as real;
    assert Power2(19) == GRID as real by {
      assert Power2(9) == 512.0;
      assert Power2(14) == 16384.0;
    }
    assert z * Power2(19) == m as real;
    assert IsScaled(z, m, 19);
  }

  lemma RoundingError(x: real, y: real)
    requires 0.0 <= x < 10_000_000_000.0 && Nearest(x, y)
    ensures Distance(x, y) < 1.0 / GRID as real
  {
    var z := DoubleNearby(x);
  }

  /**
   * The script's `tonumber(a) <= tonumber(p)` decides exactly as a comparison of cents: rounding never merges or
   * swaps two amounts, and two spellings of one amount become one double.
   */
  lemma ComparisonExact(f: real -> real, a: string, p: string)
    requires CorrectlyRounding(f) && MatchesPattern(a) && MatchesPattern(p)
    ensures f(ValueOf(a)) <= f(ValueOf(p)) <==> CentsOf(a) <= CentsOf(p)
    ensures f(ValueOf(a)) == f(ValueOf(p)) <==> CentsOf(a) == CentsOf(p)
  {
    AmountFits(a);
    AmountFits(p);
    RoundingError(ValueOf(a), f(ValueOf(a)));
    RoundingError(ValueOf(p), f(ValueOf(p)));
    if CentsOf(a) < CentsOf(p) {
      assert ValueOf(a) + 0.01 <= ValueOf(p);
    } else if CentsOf(p) < CentsOf(a) {
      assert ValueOf(p) + 0.01 <= ValueOf(a);
    }
  }

  // ---------- the starting price ----------

  /** The text of a non-negative NUMERIC(12, 2), as SETNX stores a starting price. */
  function PriceText(c: Cents): string
    requires 0 <= c < NUMERIC_LIMIT
  {
    Digits(c / 100, 1) + "." + Digits(c % 100, 2)
  }

  /** A starting price read from the database is an amount of the pattern, and denotes the same cents. */
  lemma PriceTextRoundTrip(c: Cents)
    requires 0 <= c < NUMERIC_LIMIT
    ensures MatchesPattern(PriceText(c)) && CentsOf(PriceText(c)) == c
  {
    var s, whole, part := PriceText(c), Digits(c / 100, 1), Digits(c % 100, 2);
    assert Power10(2) == 100;
    assert Power10(10) == 10_000_000_000 by {
      assert Power10(6) == 1_000_000;
    }
    DigitsLength(c / 100, 1, 10);
    DigitsLength(c % 100, 2, 2);
    assert s[..|s| - 3] == whole && s[|s| - 2..] == part;
    DigitsRoundTrip(c / 100, 1);
    DigitsRoundTrip(c % 100, 2);
  }
}
