/**
 * Digit strings: the reading of numerals in a radix (used by `parseInt`)
 * and the decimal rendering of natural numbers (used by the token text).
 */
module Numerals {

  /** The value of an alphanumeric digit (0-9, then a/A = 10 up to z/Z = 35); 36 for any other character. */
  function DigitValue(c: char): (v: nat)
    ensures v <= 36
    ensures '0' <= c <= '9' ==> v == c as int - '0' as int
  {
    if '0' <= c <= '9' then c as int - '0' as int
    else if 'a' <= c <= 'z' then c as int - 'a' as int + 10
    else if 'A' <= c <= 'Z' then c as int - 'A' as int + 10
    else 36
  }

  predicate IsDigit(c: char, radix: nat) {
    DigitValue(c) < radix
  }

  /** Length of the longest prefix of `s` made of digits of the given radix. */
  function DigitSpan(s: string, radix: nat): (k: nat)
    ensures k <= |s|
    ensures forall i :: 0 <= i < k ==> IsDigit(s[i], radix)
    ensures k < |s| ==> !IsDigit(s[k], radix)
  {
    if s != [] && IsDigit(s[0], radix) then 1 + DigitSpan(s[1..], radix) else 0
  }

  /** The number a string of digits denotes, most significant digit first. */
  function Value(s: string, radix: nat): nat
  {
    if s == [] then 0
    else Value(s[..|s| - 1], radix) * radix + (if IsDigit(s[|s| - 1], radix) then DigitValue(s[|s| - 1]) else 0)
  }

  function DigitChar(d: nat): (c: char)
    requires d < 10
    ensures IsDigit(c, 10) && DigitValue(c) == d
  {
    ('0' as int + d) as char
  }

  /** The shortest decimal numeral of `n`. */
  function Decimal(n: nat): (s: string)
    ensures s != []
    ensures forall i :: 0 <= i < |s| ==> IsDigit(s[i], 10)
  {
    if n < 10 then [DigitChar(n)] else Decimal(n / 10) + [DigitChar(n % 10)]
  }

  /** Reading back a decimal numeral gives the number it was written from. */
  lemma {:induction false} DecimalValue(n: nat)
    ensures Value(Decimal(n), 10) == n
  {
    if n >= 10 {
      var d := Decimal(n / 10);
      DecimalValue(n / 10);
      assert (d + [DigitChar(n % 10)])[..|d|] == d;
    }
  }

  /** A run of digits ended by a non-digit is measured exactly by `DigitSpan`. */
  lemma {:induction false} DigitSpanOf(d: string, rest: string, radix: nat)
    requires forall i :: 0 <= i < |d| ==> IsDigit(d[i], radix)
    requires rest != [] && !IsDigit(rest[0], radix)
    ensures DigitSpan(d + rest, radix) == |d|
  {
    if d != [] {
      assert (d + rest)[1..] == d[1..] + rest;
      DigitSpanOf(d[1..], rest, radix);
    }
  }
}
