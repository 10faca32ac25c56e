/** Decimal digits and the numbers they denote. */
module Decimal {

  predicate IsDigit(c: char) {
    '0' <= c <= '9'
  }

  predicate AllDigits(s: string) {
    forall i | 0 <= i < |s| :: IsDigit(s[i])
  }

  function DigitsValue(s: string): nat
    requires AllDigits(s)
  {
    if s == "" then 0 else 10 * DigitsValue(s[..|s| - 1]) + (s[|s| - 1] as int - '0' as int)
  }

  /** Place by place: each digit has ten times the weight of the one that follows. */
  lemma DigitsValueExactly(s: string, c: char)
    requires AllDigits(s) && '0' <= c <= '9'
    ensures AllDigits(s + [c]) && DigitsValue(s + [c]) == 10 * DigitsValue(s) + (c as int - '0' as int)
    ensures DigitsValue("") == 0
  {
    assert (s + [c])[..|s|] == s;
  }

  function Power10(n: nat): nat {
    if n == 0 then 1 else 10 * Power10(n - 1)
  }

  lemma {:induction false} DigitsBound(s: string)
    requires AllDigits(s)
    ensures DigitsValue(s) < Power10(|s|)
    decreases |s|
  {
    if s != "" {
      DigitsBound(s[..|s| - 1]);
    }
  }

  lemma {:induction false} Power10Grows(m: nat, n: nat)
    requires m <= n
    ensures Power10(m) <= Power10(n)
    decreases n
  {
    if m < n {
      Power10Grows(m, n - 1);
    }
  }

  lemma {:induction false} ZeroInFront(s: string)
    requires AllDigits(s)
    ensures AllDigits("0" + s) && DigitsValue("0" + s) == DigitsValue(s)
    decreases |s|
  {
    var t := "0" + s;
    if s == "" {
      assert t[..0] == "";
    } else {
      ZeroInFront(s[..|s| - 1]);
      assert t[..|t| - 1] == "0" + s[..|s| - 1];
    }
  }

  function Digit(d: nat): char
    requires d < 10
  {
    ('0' as int + d) as char
  }

  /** The decimal digits of `n`, at least `width` of them. */
  function Digits(n: nat, width: nat): (s: string)
    ensures AllDigits(s) && width <= |s|
    decreases n + width
  {
    if n == 0 && width == 0 then ""
    else Digits(n / 10, if width == 0 then 0 else width - 1) + [Digit(n % 10)]
  }

  lemma {:induction false} DigitsRoundTrip(n: nat, width: nat)
    ensures DigitsValue(Digits(n, width)) == n
    decreases n + width
  {
    if n != 0 || width != 0 {
      var w := if width == 0 then 0 else width - 1;
      DigitsRoundTrip(n / 10, w);
      assert Digits(n, width)[..|Digits(n, width)| - 1] == Digits(n / 10, w);
    }
  }

  lemma {:induction false} DigitsLength(n: nat, width: nat, most: nat)
    requires n < Power10(most) && width <= most
    ensures |Digits(n, width)| <= most
    decreases n + width
  {
    if n != 0 || width != 0 {
      DigitsLength(n / 10, if width == 0 then 0 else width - 1, most - 1);
    }
  }
}
