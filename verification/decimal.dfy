/**
 * Decimal text of integers: Python's `str(k)` for the node names and `int(n)` for
 * reading them back in the health check.
 */
module Decimal {
  import opened Common

  predicate IsDigit(c: char) {
    '0' <= c <= '9'
  }

  predicate AllDigits(s: string) {
    forall i :: 0 <= i < |s| ==> IsDigit(s[i])
  }

  function DigitChar(d: nat): (c: char)
    requires d < 10
    ensures IsDigit(c)
  {
    ('0' as int + d) as char
  }

  function DigitValue(c: char): (d: nat)
    requires IsDigit(c)
    ensures d < 10
  {
    c as int - '0' as int
  }

  /** `str(n)` for `n >= 0`: shortest decimal text, no sign, no leading zero. */
  function Digits(n: nat): (s: string)
    ensures 0 < |s| && AllDigits(s)
    ensures |s| > 1 ==> s[0] != '0'
  {
    if n < 10 then [DigitChar(n)] else Digits(n / 10) + [DigitChar(n % 10)]
  }

  /** `str(i)` for any integer. */
  function IntToText(i: int): string {
    if i < 0 then "-" + Digits(-i) else Digits(i)
  }

  /** The value of a run of decimal digits, leading zeros allowed. */
  function DigitsValue(s: string): nat
    requires AllDigits(s)
  {
    if |s| == 0 then 0 else DigitsValue(s[..|s| - 1]) * 10 + DigitValue(s[|s| - 1])
  }

  /**
   * Python's `int(s)` on ASCII text: an optional sign followed by at least one digit.
   * `None` is the `ValueError` that `int` raises on anything else.
   */
  function ParseInt(s: string): (r: Option<int>)
    ensures r.Some? <==> (0 < |s| && AllDigits(s)) || (1 < |s| && (s[0] == '-' || s[0] == '+') && AllDigits(s[1..]))
  {
    if 0 < |s| && AllDigits(s) then Some(DigitsValue(s))
    else if 1 < |s| && s[0] == '+' && AllDigits(s[1..]) then Some(DigitsValue(s[1..]))
    else if 1 < |s| && s[0] == '-' && AllDigits(s[1..]) then Some(0 - DigitsValue(s[1..]) as int)
    else None
  }

  lemma {:induction false} DigitsRoundTrip(n: nat)
    ensures DigitsValue(Digits(n)) == n
  {
    if n >= 10 {
      var s := Digits(n);
      assert s[..|s| - 1] == Digits(n / 10);
      DigitsRoundTrip(n / 10);
    }
  }

  /** `int(str(n)) == n`: reading back a node name gives the number it was made from. */
  lemma ParseDigits(n: nat)
    ensures ParseInt(Digits(n)) == Some(n)
  {
    DigitsRoundTrip(n);
  }

  /** `int(str(i)) == i` for every integer. */
  lemma ParseIntToText(i: int)
    ensures ParseInt(IntToText(i)) == Some(i)
  {
    if i < 0 {
      var s := IntToText(i);
      assert s[1..] == Digits(-i);
      assert s[0] == '-' && !IsDigit(s[0]);
      DigitsRoundTrip(-i);
    } else {
      DigitsRoundTrip(i);
    }
  }

  /** Different numbers have different names. */
  lemma DigitsInjective(a: nat, b: nat)
    requires Digits(a) == Digits(b)
    ensures a == b
  {
    DigitsRoundTrip(a);
    DigitsRoundTrip(b);
  }

  /** `[str(k) for k in range(lo, hi)]`. */
  function DecimalRange(lo: nat, hi: nat): (names: seq<string>)
    ensures |names| == if lo <= hi then hi - lo else 0
    ensures forall i :: 0 <= i < |names| ==> names[i] == Digits(lo + i)
    decreases hi - lo
  {
    if lo >= hi then [] else [Digits(lo)] + DecimalRange(lo + 1, hi)
  }
}
