/**
 * Decimal rendering of integers, as Swift's string interpolation `"\(n)"`
 * prints an `Int`: an optional minus sign followed by base-10 digits with
 * no leading zeros. A parser is given beside it so that the rendering can
 * be shown to lose nothing.
 */
module Decimal {
  import opened Wrappers

  predicate IsDigit(c: char) {
    '0' <= c <= '9'
  }

  predicate AllDigits(s: string) {
    forall i :: 0 <= i < |s| ==> IsDigit(s[i])
  }

  function DigitChar(d: nat): (c: char)
    requires d < 10
    ensures IsDigit(c) && (c as int) - ('0' as int) == d
  {
    (('0' as int) + d) as char
  }

  /** The base-10 digits of `n`, most significant first. */
  function Digits(n: nat): (s: string)
    ensures |s| >= 1
    ensures AllDigits(s)
    ensures s[0] == '0' ==> n == 0
  {
    if n < 10 then [DigitChar(n)] else Digits(n / 10) + [DigitChar(n % 10)]
  }

  /** The number a non-empty run of digits denotes. */
  function DigitsValue(s: string): nat
    requires AllDigits(s)
  {
    if s == [] then 0
    else DigitsValue(s[..|s| - 1]) * 10 + ((s[|s| - 1] as int) - ('0' as int))
  }

  /** `"\(n)"` for a Swift `Int`. */
  function Render(n: int): (s: string)
    ensures |s| >= 1
    ensures ' ' !in s && ':' !in s
  {
    if n < 0 then "-" + Digits(-n) else Digits(n)
  }

  /** Reads back what `Render` prints: `-`? digit+ and nothing else. */
  function Parse(s: string): Option<int> {
    if |s| >= 2 && s[0] == '-' && AllDigits(s[1..]) then
      var magnitude: int := DigitsValue(s[1..]);
      Some(-magnitude)
    else if |s| >= 1 && AllDigits(s) then Some(DigitsValue(s))
    else None
  }

  lemma {:induction false} DigitsRoundTrip(n: nat)
    ensures DigitsValue(Digits(n)) == n
  {
    if n >= 10 {
      var s := Digits(n);
      assert s[..|s| - 1] == Digits(n / 10);
      DigitsRoundTrip(n / 10);
    }
  }

  lemma ParseDigits(d: string)
    requires |d| >= 1 && AllDigits(d)
    ensures Parse(d) == Some(DigitsValue(d))
  {
  }

  lemma ParseNegated(d: string)
    requires |d| >= 1 && AllDigits(d)
    ensures Parse("-" + d) == Some(-(DigitsValue(d) as int))
  {
  }

  /** Rendering is injective: the printed number can always be read back. */
  lemma RenderRoundTrip(n: int)
    ensures Parse(Render(n)) == Some(n)
  {
    if n < 0 {
      assert Render(n) == "-" + Digits(-n);
      DigitsRoundTrip(-n);
      ParseNegated(Digits(-n));
    } else {
      assert Render(n) == Digits(n);
      DigitsRoundTrip(n);
      ParseDigits(Digits(n));
    }
  }
}
