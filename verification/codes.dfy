/** Six-digit verification codes: `String(Math.floor(100000 + Math.random() * 900000))`,
    shared by the password-reset store and the two-factor dialogs. The random
    draw is a parameter `r` with `0 <= r < 1`, as `Math.random()` promises. */
module Codes {
  import opened Strings

  function DigitChar(d: nat): (c: char)
    requires d < 10
    ensures IsDigit(c)
  {
    ('0' as int + d) as char
  }

  function DigitValue(c: char): (d: nat)
    requires IsDigit(c)
    ensures d < 10 && DigitChar(d) == c
  {
    c as int - '0' as int
  }

  /** `String(n)` for a non-negative integer: its decimal digits, most
      significant first, without leading zeros. */
  function DecimalString(n: nat): (s: string)
    ensures |s| > 0 && AllDigits(s)
    decreases n
  {
    if n < 10 then [DigitChar(n)] else DecimalString(n / 10) + [DigitChar(n % 10)]
  }

  /** The number a string of decimal digits denotes. */
  function DecimalValue(s: string): nat
    requires AllDigits(s)
  {
    if s == [] then 0 else DecimalValue(s[..|s| - 1]) * 10 + DigitValue(s[|s| - 1])
  }

  function Pow10(k: nat): (p: nat)
    ensures p >= 1
  {
    if k == 0 then 1 else 10 * Pow10(k - 1)
  }

  /** Reading back the digits `String(n)` wrote gives `n`. */
  lemma {:induction false} DecimalRoundTrip(n: nat)
    ensures DecimalValue(DecimalString(n)) == n
  {
    if n >= 10 {
      DecimalRoundTrip(n / 10);
      var s := DecimalString(n);
      assert s[..|s| - 1] == DecimalString(n / 10);
    }
  }

  /** A number with `k + 1` decimal digits is written with `k + 1` characters. */
  lemma {:induction false} DecimalLength(n: nat, k: nat)
    requires Pow10(k) <= n < Pow10(k + 1)
    ensures |DecimalString(n)| == k + 1
  {
    if k > 0 {
      DecimalLength(n / 10, k - 1);
    }
  }

  const CodeLow: int := 100000
  const CodeSpan: int := 900000

  /** `Math.floor(100000 + r * 900000)`. */
  function CodeFromRandom(r: real): (n: int)
    requires 0.0 <= r < 1.0
    ensures CodeLow <= n <= 999999
  {
    (CodeLow as real + r * CodeSpan as real).Floor
  }

  /** A six-digit code; it is `String` of the drawn number, so it reads back
      to a number in [100000, 999999]. */
  function GenerateCode(r: real): (c: string)
    requires 0.0 <= r < 1.0
    ensures |c| == 6 && AllDigits(c)
    ensures DecimalValue(c) == CodeFromRandom(r)
    ensures 100000 <= DecimalValue(c) <= 999999
  {
    var n := CodeFromRandom(r);
    DecimalLength(n, 5);
    DecimalRoundTrip(n);
    DecimalString(n)
  }
}
