/** The JavaScript string primitives the account flows are built from:
    `trim`, the `\s` and `\d` character classes, `toLowerCase` (restricted to
    ASCII), `slice(0, n)` and the UTF-16 `length`. */
module Strings {

  /** The characters `trim` strips and `\s` matches: WhiteSpace and
      LineTerminator of ECMA-262. */
  predicate IsSpace(c: char) {
    var n := c as int;
    n == 0x09 || n == 0x0A || n == 0x0B || n == 0x0C || n == 0x0D || n == 0x20
    || n == 0xA0 || n == 0x1680 || (0x2000 <= n <= 0x200A) || n == 0x2028
    || n == 0x2029 || n == 0x202F || n == 0x205F || n == 0x3000 || n == 0xFEFF
  }

  /** The `\d` class: ASCII decimal digits only. */
  predicate IsDigit(c: char) {
    '0' <= c <= '9'
  }

  predicate AllDigits(s: string) {
    forall i :: 0 <= i < |s| ==> IsDigit(s[i])
  }

  /** No leading and no trailing white space: what `trim` returns. */
  predicate Trimmed(s: string) {
    s == [] || (!IsSpace(s[0]) && !IsSpace(s[|s| - 1]))
  }

  function TrimStart(s: string): (r: string)
    ensures |r| <= |s|
    ensures r == [] || !IsSpace(r[0])
    decreases |s|
  {
    if s != [] && IsSpace(s[0]) then TrimStart(s[1..]) else s
  }

  /** `TrimStart` drops a prefix of white space. */
  lemma {:induction false} TrimStartShape(s: string)
    ensures var r := TrimStart(s);
            && r == s[|s| - |r|..]
            && forall i :: 0 <= i < |s| - |r| ==> IsSpace(s[i])
    decreases |s|
  {
    if s != [] && IsSpace(s[0]) {
      TrimStartShape(s[1..]);
    }
  }

  function TrimEnd(s: string): (r: string)
    ensures |r| <= |s|
    ensures r == [] || !IsSpace(r[|r| - 1])
    ensures r == [] || r[0] == s[0]
    decreases |s|
  {
    if s != [] && IsSpace(s[|s| - 1]) then TrimEnd(s[..|s| - 1]) else s
  }

  /** `TrimEnd` drops a suffix of white space. */
  lemma {:induction false} TrimEndShape(s: string)
    ensures var r := TrimEnd(s);
            && r == s[..|r|]
            && forall i :: |r| <= i < |s| ==> IsSpace(s[i])
    decreases |s|
  {
    if s != [] && IsSpace(s[|s| - 1]) {
      TrimEndShape(s[..|s| - 1]);
    }
  }

  /** `s.trim()`: the slice of `s` left after dropping white space at both
      ends. */
  function Trim(s: string): (r: string)
    ensures Trimmed(r) && |r| <= |s|
  {
    TrimEnd(TrimStart(s))
  }

  lemma TrimOfTrimmed(s: string)
    requires Trimmed(s)
    ensures Trim(s) == s
  {
  }

  /** Trimming twice is trimming once. */
  lemma TrimIdempotent(s: string)
    ensures Trim(Trim(s)) == Trim(s)
  {
    TrimOfTrimmed(Trim(s));
  }

  /** ASCII lower-casing of one character. */
  function LowerChar(c: char): char {
    if 'A' <= c <= 'Z' then (c as int + 32) as char else c
  }

  /** `s.toLowerCase()`, restricted to the ASCII letters. */
  function Lower(s: string): (r: string)
    ensures |r| == |s|
  {
    seq(|s|, i requires 0 <= i < |s| => LowerChar(s[i]))
  }

  /** `s.replace(/\D/g, "")`: the digits of `s`, in order. */
  function Digits(s: string): (r: string)
    ensures AllDigits(r) && |r| <= |s|
  {
    if s == [] then []
    else (if IsDigit(s[0]) then [s[0]] else []) + Digits(s[1..])
  }

  lemma {:induction false} DigitsOfDigits(s: string)
    requires AllDigits(s)
    ensures Digits(s) == s
  {
    if s != [] {
      DigitsOfDigits(s[1..]);
    }
  }

  /** `s.replace(/\s/g, "")`: `s` with every white-space character removed. */
  function StripSpaces(s: string): (r: string)
    ensures |r| <= |s|
    ensures forall i :: 0 <= i < |r| ==> !IsSpace(r[i])
  {
    if s == [] then []
    else (if IsSpace(s[0]) then [] else [s[0]]) + StripSpaces(s[1..])
  }

  /** The digit filter keeps every digit of `s`, each as often as it occurs. */
  lemma {:induction false} DigitsKeepsDigits(s: string, c: char)
    requires IsDigit(c)
    ensures multiset(Digits(s))[c] == multiset(s)[c]
  {
    if s != [] {
      assert s == [s[0]] + s[1..];
      DigitsKeepsDigits(s[1..], c);
    }
  }

  /** Removing white space keeps every other character, each as often as it occurs. */
  lemma {:induction false} StripSpacesKeepsOthers(s: string, c: char)
    requires !IsSpace(c)
    ensures multiset(StripSpaces(s))[c] == multiset(s)[c]
  {
    if s != [] {
      assert s == [s[0]] + s[1..];
      StripSpacesKeepsOthers(s[1..], c);
    }
  }

  lemma {:induction false} DigitsAppend(a: string, b: string)
    ensures Digits(a + b) == Digits(a) + Digits(b)
  {
    if a != [] {
      assert (a + b)[1..] == a[1..] + b;
      DigitsAppend(a[1..], b);
    } else {
      assert a + b == b;
    }
  }

  lemma {:induction false} StripSpacesAppend(a: string, b: string)
    ensures StripSpaces(a + b) == StripSpaces(a) + StripSpaces(b)
  {
    if a != [] {
      assert (a + b)[1..] == a[1..] + b;
      StripSpacesAppend(a[1..], b);
    } else {
      assert a + b == b;
    }
  }

  /** Digit strings contain no white space. */
  lemma {:induction false} StripSpacesOfDigits(s: string)
    requires AllDigits(s)
    ensures StripSpaces(s) == s
  {
    if s != [] {
      StripSpacesOfDigits(s[1..]);
    }
  }

  /** `s.slice(0, n)`. */
  function Take(s: string, n: nat): (r: string)
    ensures |r| == if n <= |s| then n else |s|
    ensures r == s[..|r|]
  {
    if n <= |s| then s[..n] else s
  }

  /** `v.replace(/\D/g, "").slice(0, n)`: the filter of a digits-only input
      box, keeping the first `n` digits typed. */
  function DigitField(v: string, n: nat): (r: string)
    ensures AllDigits(r) && |r| <= n
    ensures |Digits(v)| >= n ==> |r| == n
    ensures |r| == if |Digits(v)| < n then |Digits(v)| else n
    ensures r == Digits(v)[..|r|]
  {
    Take(Digits(v), n)
  }

  /** A box's content passes through its own filter unchanged. */
  lemma DigitFieldKeeps(s: string, n: nat)
    requires AllDigits(s) && |s| <= n
    ensures DigitField(s, n) == s
  {
    DigitsOfDigits(s);
  }

  lemma DigitFieldIdempotent(v: string, n: nat)
    ensures DigitField(DigitField(v, n), n) == DigitField(v, n)
  {
    DigitFieldKeeps(DigitField(v, n), n);
  }

  /** The number of UTF-16 code units a character occupies. */
  function CodeUnits(c: char): nat {
    if c as int > 0xFFFF then 2 else 1
  }

  /** `s.length` in JavaScript: UTF-16 code units, not characters. */
  function JsLength(s: string): (n: nat)
    ensures |s| <= n <= 2 * |s|
  {
    if s == [] then 0 else CodeUnits(s[0]) + JsLength(s[1..])
  }

  /** Characters in the Basic Multilingual Plane count once. */
  predicate AllBmp(s: string) {
    forall i :: 0 <= i < |s| ==> s[i] as int <= 0xFFFF
  }

  lemma {:induction false} JsLengthOfBmp(s: string)
    requires AllBmp(s)
    ensures JsLength(s) == |s|
  {
    if s != [] {
      JsLengthOfBmp(s[1..]);
    }
  }

  lemma DigitsAreBmp(s: string)
    requires AllDigits(s)
    ensures AllBmp(s)
  {
  }
}
