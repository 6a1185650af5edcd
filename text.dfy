/** Character and string helpers: decimal digits and numbers, Kotlin's
    `trim()`, `substringBefore` and `substringAfter`. */
module Text {

  predicate IsDigit(c: char) {
    '0' <= c <= '9'
  }

  predicate AllDigits(s: string) {
    forall k :: 0 <= k < |s| ==> IsDigit(s[k])
  }

  function DigitValue(c: char): nat
    requires IsDigit(c)
  {
    c as int - '0' as int
  }

  /** The character of a digit value. */
  function DigitChar(d: nat): (c: char)
    requires d < 10
    ensures IsDigit(c) && DigitValue(c) == d
  {
    ('0' as int + d) as char
  }

  function Pow10(k: nat): (r: nat)
    ensures r >= 1
  {
    if k == 0 then 1 else 10 * Pow10(k - 1)
  }

  /** The number a string of decimal digits denotes, most significant first. */
  function DigitsValue(s: string): nat
    requires AllDigits(s)
  {
    if s == [] then 0 else DigitsValue(s[..|s| - 1]) * 10 + DigitValue(s[|s| - 1])
  }

  /** `n` written with exactly `width` digits, padded with leading zeros. */
  function PadDigits(n: nat, width: nat): (s: string)
    ensures |s| == width
  {
    if width == 0 then [] else PadDigits(n / 10, width - 1) + [DigitChar(n % 10)]
  }

  /** Padded digits read back as the number they were written from. */
  lemma {:induction false} PadDigitsValue(n: nat, width: nat)
    requires n < Pow10(width)
    ensures AllDigits(PadDigits(n, width)) && DigitsValue(PadDigits(n, width)) == n
  {
    if width > 0 {
      var s := PadDigits(n, width);
      assert s[..|s| - 1] == PadDigits(n / 10, width - 1);
      PadDigitsValue(n / 10, width - 1);
    }
  }

  /** Kotlin's `toString()` of a non-negative number: shortest decimal form. */
  function NatToDecimal(n: nat): (s: string)
    ensures |s| >= 1 && AllDigits(s)
    ensures s[0] == '0' ==> n == 0
  {
    if n < 10 then [DigitChar(n)] else NatToDecimal(n / 10) + [DigitChar(n % 10)]
  }

  /** The decimal form reads back as the number. */
  lemma {:induction false} NatToDecimalValue(n: nat)
    ensures DigitsValue(NatToDecimal(n)) == n
  {
    if n >= 10 {
      var s := NatToDecimal(n);
      assert s[..|s| - 1] == NatToDecimal(n / 10);
      NatToDecimalValue(n / 10);
    }
  }

  /** Kotlin's `toString()` of an integer, with a leading `-` when negative. */
  function IntToDecimal(i: int): (s: string)
    ensures |s| >= 1
    ensures i >= 0 ==> AllDigits(s) && DigitsValue(s) == i
    ensures i < 0 ==> s[0] == '-' && AllDigits(s[1..]) && DigitsValue(s[1..]) == -i
    ensures i >= 0 ==> (s[0] == '0' ==> i == 0)
    ensures i == 0 ==> s == "0"
    ensures i < 0 ==> |s| >= 2 && s[1] != '0'
  {
    if i < 0 then
      NatToDecimalValue(-i);
      assert ("-" + NatToDecimal(-i))[1..] == NatToDecimal(-i);
      "-" + NatToDecimal(-i)
    else
      NatToDecimalValue(i);
      NatToDecimal(i)
  }

  /** Kotlin's `Char.isWhitespace()` on the JVM: `Character.isWhitespace`
      (the ASCII controls below and the Unicode separators other than the
      no-break spaces) or `Character.isSpaceChar` (every Unicode space,
      line and paragraph separator). */
  predicate IsWhitespace(c: char) {
    c == '\t' || c == '\n' || c == '\U{000B}' || c == '\U{000C}' || c == '\r'
    || ('\U{001C}' <= c <= '\U{001F}')
    || c == ' ' || c == '\U{00A0}' || c == '\U{1680}'
    || ('\U{2000}' <= c <= '\U{200A}')
    || c == '\U{2028}' || c == '\U{2029}' || c == '\U{202F}' || c == '\U{205F}' || c == '\U{3000}'
  }

  /** Number of leading whitespace characters. */
  function LeadingWhitespace(s: string): (n: nat)
    ensures n <= |s|
    ensures forall k :: 0 <= k < n ==> IsWhitespace(s[k])
    ensures n < |s| ==> !IsWhitespace(s[n])
  {
    if s == [] || !IsWhitespace(s[0]) then 0 else 1 + LeadingWhitespace(s[1..])
  }

  /** Number of trailing whitespace characters. */
  function TrailingWhitespace(s: string): (n: nat)
    ensures n <= |s|
    ensures forall k :: |s| - n <= k < |s| ==> IsWhitespace(s[k])
    ensures n < |s| ==> !IsWhitespace(s[|s| - 1 - n])
  {
    if s == [] || !IsWhitespace(s[|s| - 1]) then 0 else 1 + TrailingWhitespace(s[..|s| - 1])
  }

  /** `trim()`: the string without its leading and trailing whitespace. */
  function Trim(s: string): (r: string)
    ensures LeadingWhitespace(s) + |r| <= |s|
    ensures r == s[LeadingWhitespace(s)..LeadingWhitespace(s) + |r|]
    ensures forall k :: LeadingWhitespace(s) + |r| <= k < |s| ==> IsWhitespace(s[k])
    ensures r != [] ==> !IsWhitespace(r[0]) && !IsWhitespace(r[|r| - 1])
    ensures r == [] <==> forall k :: 0 <= k < |s| ==> IsWhitespace(s[k])
  {
    var lead := LeadingWhitespace(s);
    var rest := s[lead..];
    var r := rest[..|rest| - TrailingWhitespace(rest)];
    assert r == s[lead..lead + |r|];
    r
  }

  /** Position of the first `c` in `s`, or `|s|` when there is none. */
  function IndexOf(s: string, c: char): (i: nat)
    ensures i <= |s|
    ensures c !in s[..i]
    ensures i < |s| <==> c in s
    ensures i < |s| ==> s[i] == c
  {
    if s == [] then 0
    else if s[0] == c then 0
    else
      var i := 1 + IndexOf(s[1..], c);
      assert s[..i] == [s[0]] + s[1..][..i - 1];
      i
  }

  /** `substringBefore(c)`: the text before the first `c`, or all of `s`. */
  function SubstringBefore(s: string, c: char): (r: string)
    ensures c !in r
    ensures c in s ==> |r| < |s| && s == r + [c] + s[|r| + 1..]
    ensures c !in s ==> r == s
  {
    var i := IndexOf(s, c);
    if i < |s| then assert s == s[..i] + [c] + s[i + 1..]; s[..i] else s
  }

  /** `substringAfter(c)`: the text after the first `c`, or all of `s` when
      `c` does not occur (Kotlin's default for a missing delimiter). */
  function SubstringAfter(s: string, c: char): (r: string)
    ensures c in s ==> exists p :: c !in p && s == p + [c] + r
    ensures c !in s ==> r == s
  {
    var i := IndexOf(s, c);
    if i < |s| then assert s == s[..i] + [c] + s[i + 1..]; s[i + 1..] else s
  }

  /** The first `c` of a concatenation whose first part has none lies in the
      second part. */
  lemma {:induction false} IndexOfAppend(x: string, y: string, c: char)
    requires c !in x
    ensures IndexOf(x + y, c) == |x| + IndexOf(y, c)
  {
    if x != [] {
      assert (x + y)[1..] == x[1..] + y;
      IndexOfAppend(x[1..], y, c);
    } else {
      assert x + y == y;
    }
  }

  /** Cutting at the first `c` leaves a first part without `c` intact. */
  lemma SubstringBeforeAppend(x: string, y: string, c: char)
    requires c !in x
    ensures SubstringBefore(x + y, c) == x + SubstringBefore(y, c)
  {
    IndexOfAppend(x, y, c);
    var i := IndexOf(y, c);
    SubstringBeforeIndex(y, c);
    SubstringBeforeIndex(x + y, c);
    PrefixOfAppend(x, y, i);
  }

  /** A prefix reaching into the second part of a concatenation. */
  lemma PrefixOfAppend(x: string, y: string, n: nat)
    requires n <= |y|
    ensures (x + y)[..|x| + n] == x + y[..n]
  {
  }

  /** The text before the first `c` is the prefix up to its index. */
  lemma SubstringBeforeIndex(s: string, c: char)
    ensures SubstringBefore(s, c) == s[..IndexOf(s, c)]
  {
  }

  /** What follows the first `c`, when the text before it has no `c`. */
  lemma SubstringAfterFirst(x: string, y: string, c: char)
    requires c !in x
    ensures SubstringAfter(x + [c] + y, c) == y
  {
    IndexOfAppend(x, [c] + y, c);
    assert x + [c] + y == x + ([c] + y);
    assert (x + [c] + y)[|x| + 1..] == y;
  }
}
