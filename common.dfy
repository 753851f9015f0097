/** Option, Result and Outcome, the value and error wrappers shared by the
    whole model (plain datatypes, not used with `:-`), and the JavaScript
    truthiness test that the source applies to optional strings. */
module Common {

  datatype Option<+T> = None | Some(value: T)

  datatype Result<+R, +E> = Success(value: R) | Failure(error: E)

  datatype Outcome<+E> = Pass | Fail(error: E)

  /** `!s` is false for an optional string exactly when it is defined and
      non-empty: `undefined`, `null` and `""` are all falsy in JavaScript. */
  predicate Present(s: Option<string>)
  {
    s.Some? && s.value != ""
  }
}

/** Decimal rendering of a non-negative integer, as a template literal
    `${n}` renders an integral JavaScript number below 10^21 (from 10^21 on
    JavaScript switches to exponent form, which is not modelled). */
module Decimal {

  function Digit(d: nat): (c: char)
    requires d < 10
  {
    "0123456789"[d]
  }

  predicate IsDigit(c: char)
  {
    '0' <= c <= '9'
  }

  function DigitValue(c: char): nat
  {
    if IsDigit(c) then (c - '0') as nat else 0
  }

  /** `${n}` for a non-negative integer below 10^21: its digits, most
      significant first, with no leading zero. */
  function Render(n: nat): (s: string)
    ensures |s| >= 1
    ensures forall i :: 0 <= i < |s| ==> IsDigit(s[i])
    ensures (s[0] == '0') == (n == 0)
    decreases n
  {
    if n < 10 then [Digit(n)] else Render(n / 10) + [Digit(n % 10)]
  }

  /** `${i}` for any integer: a minus sign before the digits of a negative one. */
  function RenderInt(i: int): string
  {
    if i >= 0 then Render(i) else "-" + Render(-i)
  }

  /** Reads a string of digits back as a number; the inverse of Render. */
  function Parse(s: string): nat
    decreases |s|
  {
    if s == [] then 0 else Parse(s[..|s| - 1]) * 10 + DigitValue(s[|s| - 1])
  }

  lemma DigitRoundTrip(d: nat)
    requires d < 10
    ensures DigitValue(Digit(d)) == d
  {
  }

  /** Rendering loses nothing: the number can be read back from its text. */
  lemma {:induction false} ParseRender(n: nat)
    ensures Parse(Render(n)) == n
    decreases n
  {
    var s := Render(n);
    if n < 10 {
      DigitRoundTrip(n);
      assert s[..|s| - 1] == [];
    } else {
      ParseRender(n / 10);
      DigitRoundTrip(n % 10);
      assert s[..|s| - 1] == Render(n / 10);
    }
  }

  /** Distinct numbers render as distinct strings. */
  lemma RenderInjective(m: nat, n: nat)
    requires Render(m) == Render(n)
    ensures m == n
  {
    ParseRender(m);
    ParseRender(n);
  }
}
