/**
 * The JavaScript string operations the application relies on, stated over
 * `string` (a sequence of Unicode scalar values): `length` in UTF-16 code
 * units, `trim`, `startsWith`, `indexOf`, `replace` with a string pattern,
 * and the global `parseInt`.
 */
module JsText {
  import opened Wrappers
  import Numerals

  /** Code units a character takes in UTF-16: two for those outside the Basic Multilingual Plane. */
  function Units(c: char): nat {
    if c as int >= 0x1_0000 then 2 else 1
  }

  /** `s.length` in JavaScript: the number of UTF-16 code units. */
  function JsLength(s: string): (n: nat)
    ensures |s| <= n <= 2 * |s|
    ensures n == 0 <==> s == []
  {
    if s == [] then 0 else Units(s[0]) + JsLength(s[1..])
  }

  lemma {:induction false} JsLengthConcat(a: string, b: string)
    ensures JsLength(a + b) == JsLength(a) + JsLength(b)
  {
    if a == [] {
      assert a + b == b;
    } else {
      assert (a + b)[1..] == a[1..] + b;
      JsLengthConcat(a[1..], b);
    }
  }

  /** A contiguous part of a string is never longer than the string. */
  lemma JsLengthSlice(s: string, i: nat, j: nat)
    requires i <= j <= |s|
    ensures JsLength(s[i..j]) <= JsLength(s)
  {
    assert s == s[..i] + s[i..j] + s[j..];
    JsLengthConcat(s[..i] + s[i..j], s[j..]);
    JsLengthConcat(s[..i], s[i..j]);
  }

  /** The characters `trim` and `parseInt` skip: ECMAScript WhiteSpace and LineTerminator. */
  predicate IsWhiteSpace(c: char) {
    var n := c as int;
    n == 0x09 || n == 0x0B || n == 0x0C || n == 0x20 || n == 0xA0 || n == 0xFEFF
    || n == 0x1680 || (0x2000 <= n <= 0x200A) || n == 0x202F || n == 0x205F || n == 0x3000
    || n == 0x0A || n == 0x0D || n == 0x2028 || n == 0x2029
  }

  /** Number of white-space characters at the start of `s`. */
  function LeadingSpace(s: string): (k: nat)
    ensures k <= |s|
    ensures forall i :: 0 <= i < k ==> IsWhiteSpace(s[i])
    ensures k < |s| ==> !IsWhiteSpace(s[k])
  {
    if s != [] && IsWhiteSpace(s[0]) then 1 + LeadingSpace(s[1..]) else 0
  }

  /** Number of white-space characters at the end of `s`. */
  function TrailingSpace(s: string): (k: nat)
    ensures k <= |s|
    ensures forall i :: |s| - k <= i < |s| ==> IsWhiteSpace(s[i])
    ensures k < |s| ==> !IsWhiteSpace(s[|s| - 1 - k])
  {
    if s != [] && IsWhiteSpace(s[|s| - 1]) then 1 + TrailingSpace(s[..|s| - 1]) else 0
  }

  /** `s.trim()`: the part of `s` between its leading and trailing white space. */
  function Trim(s: string): (r: string)
    ensures JsLength(r) <= JsLength(s)
    ensures r == [] <==> forall i :: 0 <= i < |s| ==> IsWhiteSpace(s[i])
    ensures r != [] ==> !IsWhiteSpace(r[0]) && !IsWhiteSpace(r[|r| - 1])
  {
    var a := LeadingSpace(s);
    var t := s[a..];
    var r := t[..|t| - TrailingSpace(t)];
    assert r == s[a..a + |r|];
    JsLengthSlice(s, a, a + |r|);
    r
  }

  /** `s || fallback` on strings: the empty string is falsy. */
  function OrElse(s: string, fallback: string): (r: string)
    ensures r != [] || fallback == []
    ensures s != [] ==> r == s
    ensures s == [] ==> r == fallback
  {
    if s != [] then s else fallback
  }

  /** `s.startsWith(p)`. */
  predicate StartsWith(s: string, p: string) {
    |p| <= |s| && s[..|p|] == p
  }

  predicate OccursAt(s: string, p: string, i: int) {
    0 <= i && i + |p| <= |s| && s[i..i + |p|] == p
  }

  /** The first position at or after `from` where `p` occurs in `s`, or -1. */
  function IndexFrom(s: string, p: string, from: nat): (r: int)
    ensures r == -1 || (from <= r && OccursAt(s, p, r))
    ensures forall i :: from <= i && (r == -1 || i < r) ==> !OccursAt(s, p, i)
    decreases |s| - from
  {
    if from + |p| > |s| then -1
    else if OccursAt(s, p, from) then from
    else IndexFrom(s, p, from + 1)
  }

  /** `s.indexOf(p)`. */
  function IndexOf(s: string, p: string): (r: int)
    ensures r == -1 <==> forall i :: !OccursAt(s, p, i)
    ensures r != -1 ==> OccursAt(s, p, r) && forall i :: 0 <= i < r ==> !OccursAt(s, p, i)
  {
    IndexFrom(s, p, 0)
  }

  /**
   * `s.replace(p, q)` with a string pattern: only the first occurrence is
   * replaced (the replacements used here contain no `$` patterns).
   */
  function ReplaceFirst(s: string, p: string, q: string): string {
    var i := IndexOf(s, p);
    if i == -1 then s else s[..i] + q + s[i + |p|..]
  }

  /** Replacing a pattern that does not occur leaves the string as it is. */
  lemma ReplaceAbsent(s: string, p: string, q: string)
    requires forall i :: !OccursAt(s, p, i)
    ensures ReplaceFirst(s, p, q) == s
  {
  }

  /** Replacing a pattern that starts the string swaps that prefix only. */
  lemma ReplaceAtStart(s: string, p: string, q: string)
    requires StartsWith(s, p)
    ensures ReplaceFirst(s, p, q) == q + s[|p|..]
  {
    assert OccursAt(s, p, 0);
  }

  /** Radix and digits `parseInt` reads once white space and sign are gone. */
  function RadixAndDigits(u: string): (string, nat) {
    if |u| >= 2 && u[0] == '0' && (u[1] == 'x' || u[1] == 'X') then (u[2..], 16) else (u, 10)
  }

  /**
   * The global `parseInt(s)` with no radix: leading white space is skipped,
   * one sign is read, a `0x`/`0X` prefix selects radix 16, and the longest
   * run of digits is read; `None` is `NaN` (no digit at all).
   */
  function ParseInt(s: string): Option<int> {
    var t := s[LeadingSpace(s)..];
    var negative := t != [] && t[0] == '-';
    var u := if t != [] && (t[0] == '-' || t[0] == '+') then t[1..] else t;
    var (body, radix) := RadixAndDigits(u);
    var k := Numerals.DigitSpan(body, radix);
    if k == 0 then None
    else
      var m: int := Numerals.Value(body[..k], radix);
      Some(if negative then -m else m)
  }

  /** `parseInt` reads back the decimal numeral of every natural number. */
  lemma ParseDecimal(n: nat)
    ensures ParseInt(Numerals.Decimal(n)) == Some(n)
  {
    var d := Numerals.Decimal(n);
    assert LeadingSpace(d) == 0 by { assert !IsWhiteSpace(d[0]); }
    assert d[0..] == d;
    assert RadixAndDigits(d) == (d, 10) by {
      if |d| >= 2 { assert Numerals.IsDigit(d[1], 10); }
    }
    assert Numerals.DigitSpan(d, 10) == |d|;
    assert d[..|d|] == d;
    Numerals.DecimalValue(n);
  }

  /** A string without any digit after the white space and sign is `NaN`. */
  lemma ParseNoDigits(s: string)
    requires forall i :: 0 <= i < |s| ==> !Numerals.IsDigit(s[i], 10)
    ensures ParseInt(s) == None
  {
    var t := s[LeadingSpace(s)..];
    var u := if t != [] && (t[0] == '-' || t[0] == '+') then t[1..] else t;
    assert forall i :: 0 <= i < |u| ==> !Numerals.IsDigit(u[i], 10);
    if |u| >= 2 && u[0] == '0' {
      assert Numerals.IsDigit(u[0], 10);
    }
  }
}
