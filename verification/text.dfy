/** The string operations of the Kotlin standard library that the app relies
    on: `isWhitespace`, `isBlank`, `trim`, `removePrefix`/`removeSuffix`,
    `replace` of one character, decimal printing (`toString`, `%d`, `%02d`)
    and `toIntOrNull`. Strings are sequences of UTF-16 code units, as on the
    JVM. */
module Text {
  import opened Common

  /** Kotlin's `Char.isWhitespace()`: Java's `isWhitespace` or `isSpaceChar`. */
  predicate IsWhitespace(c: char) {
    || '\t' <= c <= '\r'
    || '\U{1C}' <= c <= ' '
    || c == '\U{A0}' || c == '\U{1680}'
    || '\U{2000}' <= c <= '\U{200A}'
    || c == '\U{2028}' || c == '\U{2029}' || c == '\U{202F}' || c == '\U{205F}' || c == '\U{3000}'
  }

  /** Kotlin's `isBlank()`: empty or whitespace only. */
  predicate IsBlank(s: string) {
    forall i :: 0 <= i < |s| ==> IsWhitespace(s[i])
  }

  /** Number of whitespace characters at the front of `s`. */
  function LeadingWs(s: string): (n: nat)
    ensures n <= |s|
    ensures IsBlank(s[..n])
    ensures n == |s| || !IsWhitespace(s[n])
  {
    if s == [] || !IsWhitespace(s[0]) then 0
    else
      var k := LeadingWs(s[1..]);
      assert s[1..][..k] == s[1..k + 1];
      1 + k
  }

  /** Number of whitespace characters at the end of `s`. */
  function TrailingWs(s: string): (n: nat)
    ensures n <= |s|
    ensures IsBlank(s[|s| - n..])
    ensures n == |s| || !IsWhitespace(s[|s| - n - 1])
  {
    if s == [] || !IsWhitespace(s[|s| - 1]) then 0
    else
      var k := TrailingWs(s[..|s| - 1]);
      assert s[..|s| - 1][|s| - 1 - k..] == s[|s| - 1 - k..|s| - 1];
      1 + k
  }

  /** Kotlin's `trim()`: drop leading and trailing whitespace. */
  function Trim(s: string): (r: string)
    ensures LeadingWs(s) + |r| <= |s|
    ensures r == [] || (!IsWhitespace(r[0]) && !IsWhitespace(r[|r| - 1]))
    ensures s == s[..LeadingWs(s)] + r + s[LeadingWs(s) + |r|..]
    ensures IsBlank(s[LeadingWs(s) + |r|..])
    ensures r == [] <==> IsBlank(s)
  {
    var a := LeadingWs(s);
    var b := TrailingWs(s[a..]);
    TrimEnds(s, a, b);
    BlankTail(s, a, b);
    ThreeParts(s, a, |s| - b);
    TrimEmptyIffBlank(s, a, b);
    s[a..|s| - b]
  }

  /** Cutting a string at two points and joining the pieces gives it back. */
  lemma ThreeParts(s: string, i: nat, j: nat)
    requires i <= j <= |s|
    ensures s == s[..i] + s[i..j] + s[j..]
  {
    assert s[..i] + s[i..j] == s[..j];
  }

  /** The two ends of the trimmed middle are not whitespace. */
  lemma TrimEnds(s: string, a: nat, b: nat)
    requires a + b <= |s|
    requires a == |s| || !IsWhitespace(s[a])
    requires b == |s| - a || !IsWhitespace(s[a..][|s| - a - b - 1])
    ensures a + b < |s| ==> !IsWhitespace(s[a]) && !IsWhitespace(s[|s| - b - 1])
  {
    if a + b < |s| {
      assert s[a..][|s| - a - b - 1] == s[|s| - b - 1];
    }
  }

  /** The whitespace run at the end of the rest is the end of the string. */
  lemma BlankTail(s: string, a: nat, b: nat)
    requires a + b <= |s| && IsBlank(s[a..][|s| - a - b..])
    ensures IsBlank(s[|s| - b..])
  {
    assert s[a..][|s| - a - b..] == s[|s| - b..];
  }

  /** Nothing is left after trimming exactly when the string is blank. */
  lemma TrimEmptyIffBlank(s: string, a: nat, b: nat)
    requires a + b <= |s| && IsBlank(s[..a])
    requires a == |s| || !IsWhitespace(s[a])
    requires IsBlank(s[a..][|s| - a - b..])
    ensures a + b == |s| <==> IsBlank(s)
  {
    if a == |s| {
      assert s[..a] == s;
    } else {
      assert s[a..][0] == s[a];
      NotBlankFromStart(s[a..]);
    }
  }

  /** Text that starts with a non-whitespace character is not blank. */
  lemma NotBlankFromStart(t: string)
    requires |t| > 0 && !IsWhitespace(t[0])
    ensures !IsBlank(t[0..])
  {
    assert t[0..][0] == t[0];
  }

  /** Trimming twice is trimming once. */
  lemma TrimIdempotent(s: string)
    ensures Trim(Trim(s)) == Trim(s)
  {
    var r := Trim(s);
    assert LeadingWs(r) == 0;
    if r != [] {
      assert TrailingWs(r) == 0;
      assert r[0..][..|r| - 0] == r;
    }
  }

  predicate StartsWith(s: string, p: string) {
    |p| <= |s| && s[..|p|] == p
  }

  predicate EndsWith(s: string, p: string) {
    |p| <= |s| && s[|s| - |p|..] == p
  }

  /** Kotlin's `removePrefix`. */
  function RemovePrefix(s: string, p: string): (r: string)
    ensures StartsWith(s, p) ==> p + r == s
    ensures !StartsWith(s, p) ==> r == s
  {
    if StartsWith(s, p) then s[|p|..] else s
  }

  /** Kotlin's `removeSuffix`. */
  function RemoveSuffix(s: string, p: string): (r: string)
    ensures EndsWith(s, p) ==> r + p == s
    ensures !EndsWith(s, p) ==> r == s
  {
    if EndsWith(s, p) then s[..|s| - |p|] else s
  }

  /** Kotlin's `replace(c.toString(), "")`: every occurrence of `c` removed. */
  function RemoveAll(s: string, c: char): (r: string)
    ensures c !in r
    ensures |r| <= |s|
    ensures forall x :: x != c ==> multiset(r)[x] == multiset(s)[x]
  {
    if s == [] then []
    else
      var t := RemoveAll(s[1..], c);
      assert s == [s[0]] + s[1..];
      if s[0] == c then t else [s[0]] + t
  }

  /** Removing a character that does not occur changes nothing. */
  lemma {:induction false} RemoveAllAbsent(s: string, c: char)
    requires c !in s
    ensures RemoveAll(s, c) == s
  {
    if s != [] {
      RemoveAllAbsent(s[1..], c);
    }
  }

  /** Removal works piecewise on a concatenation. */
  lemma {:induction false} RemoveAllConcat(a: string, b: string, c: char)
    ensures RemoveAll(a + b, c) == RemoveAll(a, c) + RemoveAll(b, c)
  {
    if a != [] {
      assert (a + b)[1..] == a[1..] + b;
      RemoveAllConcat(a[1..], b, c);
    } else {
      assert a + b == b;
    }
  }

  // ---------------------------------------------------------------------
  // Decimal numerals (ASCII digits; the default locale is assumed to use them)
  // ---------------------------------------------------------------------

  predicate IsDigit(c: char) {
    '0' <= c <= '9'
  }

  predicate AllDigits(s: string) {
    forall i :: 0 <= i < |s| ==> IsDigit(s[i])
  }

  function DigitChar(d: nat): (c: char)
    requires d < 10
    ensures IsDigit(c) && c as int - '0' as int == d
  {
    ('0' as int + d) as char
  }

  /** The value of a string of decimal digits (the empty string reads as 0). */
  function DigitsValue(s: string): nat
    requires AllDigits(s)
  {
    if s == [] then 0
    else DigitsValue(s[..|s| - 1]) * 10 + (s[|s| - 1] as int - '0' as int)
  }

  /** `Long.toString()` of a non-negative number. */
  function NatToDecimal(n: nat): (r: string)
    ensures |r| >= 1 && AllDigits(r)
    ensures |r| == 1 <==> n < 10
    ensures |r| > 1 ==> r[0] != '0'
  {
    if n < 10 then [DigitChar(n)] else NatToDecimal(n / 10) + [DigitChar(n % 10)]
  }

  /** Reading a printed number gives the number back. */
  lemma {:induction false} DecimalRoundTrip(n: nat)
    ensures DigitsValue(NatToDecimal(n)) == n
  {
    if n >= 10 {
      var r := NatToDecimal(n);
      assert r[..|r| - 1] == NatToDecimal(n / 10);
      DecimalRoundTrip(n / 10);
    }
  }

  /** A leading zero does not change the value of a digit string. */
  lemma {:induction false} LeadingZeroValue(s: string)
    requires AllDigits(s)
    ensures AllDigits("0" + s) && DigitsValue("0" + s) == DigitsValue(s)
  {
    if s != [] {
      assert ("0" + s)[..|"0" + s| - 1] == "0" + s[..|s| - 1];
      LeadingZeroValue(s[..|s| - 1]);
    }
  }

  /** Printing is injective. */
  lemma NatToDecimalInjective(a: nat, b: nat)
    requires NatToDecimal(a) == NatToDecimal(b)
    ensures a == b
  {
    DecimalRoundTrip(a);
    DecimalRoundTrip(b);
  }

  /** `Long.toString()` / `"%d".format(x)`. */
  function IntToDecimal(x: int): (r: string)
    ensures x >= 0 ==> r == NatToDecimal(x)
    ensures x < 0 ==> r == "-" + NatToDecimal(-x)
  {
    if x < 0 then "-" + NatToDecimal(-x) else NatToDecimal(x)
  }

  /** Printing signed numbers is injective too. */
  lemma IntToDecimalInjective(a: int, b: int)
    requires IntToDecimal(a) == IntToDecimal(b)
    ensures a == b
  {
    var s := IntToDecimal(a);
    if a < 0 && b < 0 {
      assert s[1..] == NatToDecimal(-a) == NatToDecimal(-b);
      NatToDecimalInjective(-a, -b);
    } else if a >= 0 && b >= 0 {
      NatToDecimalInjective(a, b);
    }
  }

  /** A printed number holds only digits and at most a leading minus sign. */
  lemma IntToDecimalChars(x: int)
    ensures forall i :: 0 <= i < |IntToDecimal(x)| ==> IsDigit(IntToDecimal(x)[i]) || (i == 0 && IntToDecimal(x)[i] == '-')
    ensures |IntToDecimal(x)| >= 1
  {
  }

  /** Kotlin's `String.toIntOrNull()`: an optional sign followed by at least
      one digit whose value fits an `Int`; anything else is `null`. */
  function ToIntOrNull(s: string): (r: Option<Int32>)
    ensures r.Some? ==> |s| >= 1
    ensures r.Some? && AllDigits(s) ==> r.value == DigitsValue(s)
  {
    if |s| == 0 then None
    else if s[0] == '-' || s[0] == '+' then
      var digits := s[1..];
      if digits == [] || !AllDigits(digits) then None
      else
        var v: int := if s[0] == '-' then -(DigitsValue(digits) as int) else DigitsValue(digits);
        if -0x8000_0000 <= v < 0x8000_0000 then Some(v) else None
    else if !AllDigits(s) then None
    else if DigitsValue(s) < 0x8000_0000 then Some(DigitsValue(s)) else None
  }

  /** Every `Int` printed in decimal parses back to itself. */
  lemma IntDecimalRoundTrip(x: Int32)
    ensures ToIntOrNull(IntToDecimal(x)) == Some(x)
  {
    if x < 0 {
      NegativeRoundTrip(x);
    } else {
      var d := NatToDecimal(x);
      DecimalRoundTrip(x);
      assert IsDigit(d[0]);
      assert ToIntOrNull(d) == Some(x);
    }
  }

  lemma NegativeRoundTrip(x: Int32)
    requires x < 0
    ensures ToIntOrNull("-" + NatToDecimal(-(x as int))) == Some(x)
  {
    var d := NatToDecimal(-(x as int));
    var s := "-" + d;
    assert s[1..] == d;
    DecimalRoundTrip(-(x as int));
    assert DigitsValue(s[1..]) == -(x as int);
  }

  /** Java's `"%02d"`: at least two characters, zero-padded for one-digit
      non-negative values; a negative value already has two characters. */
  function Pad2(x: int): (r: string)
    ensures |r| >= 2
    ensures x >= 0 ==> AllDigits(r) && DigitsValue(r) == x
    ensures x < 0 ==> r[0] == '-'
  {
    if 0 <= x < 10 then
      LeadingZeroValue(NatToDecimal(x));
      DecimalRoundTrip(x);
      "0" + NatToDecimal(x)
    else
      DecimalRoundTrip(Abs(x));
      IntToDecimal(x)
  }
}
