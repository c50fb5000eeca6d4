/**
 * The handful of Python 2 string operations the tool relies on, stated over
 * `string` (a sequence of code points): `startswith`, `in`, `strip`, `upper`,
 * `<` on strings (the order `sorted` uses) and `str` of a non-negative integer.
 */
module PyStrings {

  /** `s.startswith(t)`. */
  predicate StartsWith(s: string, t: string) {
    t <= s
  }

  /** `t in s` for strings: `t` occurs in `s` as a contiguous piece. */
  predicate Contains(s: string, t: string) {
    exists i :: 0 <= i <= |s| - |t| && t <= s[i..]
  }

  /** The characters `str.strip()` removes from a Python 2 byte string. */
  const ByteWhitespace: set<char> := {' ', '\t', '\n', '\r', '\U{000B}', '\U{000C}'}

  /**
   * The characters `unicode.strip()` removes in Python 2.7, whose character
   * database is Unicode 5.2.
   */
  const UnicodeWhitespace: set<char> :=
    ByteWhitespace +
    {'\U{001C}', '\U{001D}', '\U{001E}', '\U{001F}', '\U{0085}', '\U{00A0}', '\U{1680}', '\U{180E}',
     '\U{2000}', '\U{2001}', '\U{2002}', '\U{2003}', '\U{2004}', '\U{2005}', '\U{2006}', '\U{2007}',
     '\U{2008}', '\U{2009}', '\U{200A}', '\U{2028}', '\U{2029}', '\U{202F}', '\U{205F}', '\U{3000}'}

  /** The length of the longest prefix of `s` made of characters in `ws`. */
  function LeadingCount(s: string, ws: set<char>): (n: nat)
    ensures n <= |s|
    ensures forall i :: 0 <= i < n ==> s[i] in ws
    ensures n < |s| ==> s[n] !in ws
  {
    if s == [] || s[0] !in ws then 0 else 1 + LeadingCount(s[1..], ws)
  }

  /** The length of the longest suffix of `s` made of characters in `ws`. */
  function TrailingCount(s: string, ws: set<char>): (n: nat)
    ensures n <= |s|
    ensures forall i :: |s| - n <= i < |s| ==> s[i] in ws
    ensures n < |s| ==> s[|s| - 1 - n] !in ws
  {
    if s == [] || s[|s| - 1] !in ws then 0 else 1 + TrailingCount(s[..|s| - 1], ws)
  }

  /**
   * `s.strip()` for the whitespace set `ws`: what remains of `s` once its
   * leading and its trailing whitespace are removed.
   */
  function Strip(s: string, ws: set<char>): (r: string)
    ensures var i := LeadingCount(s, ws);
      i + |r| <= |s| && r == s[i..i + |r|] &&
      forall k :: i + |r| <= k < |s| ==> s[k] in ws
    ensures r == [] || (r[0] !in ws && r[|r| - 1] !in ws)
  {
    var t := s[LeadingCount(s, ws)..];
    t[..|t| - TrailingCount(t, ws)]
  }

  /** A string that has no whitespace at either end is its own `strip()`. */
  lemma StripUnpadded(s: string, ws: set<char>)
    requires s == [] || (s[0] !in ws && s[|s| - 1] !in ws)
    ensures Strip(s, ws) == s
  {
    var r := Strip(s, ws);
    assert LeadingCount(s, ws) == 0;
  }

  /** `strip()` is idempotent. */
  lemma StripIdempotent(s: string, ws: set<char>)
    ensures Strip(Strip(s, ws), ws) == Strip(s, ws)
  {
    StripUnpadded(Strip(s, ws), ws);
  }

  /** `c.upper()` on one character of a byte string in the C locale. */
  function UpperChar(c: char): char {
    if 'a' <= c <= 'z' then (c as int - 32) as char else c
  }

  /** `s.upper()` on a byte string in the C locale: only ASCII letters change. */
  function Upper(s: string): string {
    seq(|s|, i requires 0 <= i < |s| => UpperChar(s[i]))
  }

  /** Upper-casing maps ASCII whitespace to itself and nothing else to it. */
  lemma UpperKeepsWhitespace(c: char)
    ensures UpperChar(c) in ByteWhitespace <==> c in ByteWhitespace
  {
  }

  lemma UpperSlice(s: string, a: nat, b: nat)
    requires a <= b <= |s|
    ensures Upper(s)[a..b] == Upper(s[a..b])
  {
  }

  lemma {:induction false} LeadingUpper(s: string)
    ensures LeadingCount(Upper(s), ByteWhitespace) == LeadingCount(s, ByteWhitespace)
    decreases |s|
  {
    if s != [] {
      UpperKeepsWhitespace(s[0]);
      UpperSlice(s, 1, |s|);
      assert Upper(s)[0] == UpperChar(s[0]) && Upper(s)[1..] == Upper(s[1..]);
      LeadingUpper(s[1..]);
    }
  }

  lemma {:induction false} TrailingUpper(s: string)
    ensures TrailingCount(Upper(s), ByteWhitespace) == TrailingCount(s, ByteWhitespace)
    decreases |s|
  {
    if s != [] {
      UpperKeepsWhitespace(s[|s| - 1]);
      UpperSlice(s, 0, |s| - 1);
      assert Upper(s)[|s| - 1] == UpperChar(s[|s| - 1]) && Upper(s)[..|s| - 1] == Upper(s[..|s| - 1]);
      TrailingUpper(s[..|s| - 1]);
    }
  }

  /** `s.upper().strip() == s.strip().upper()` for byte strings. */
  lemma UpperStrip(s: string)
    ensures Strip(Upper(s), ByteWhitespace) == Upper(Strip(s, ByteWhitespace))
  {
    var i := LeadingCount(s, ByteWhitespace);
    LeadingUpper(s);
    UpperSlice(s, i, |s|);
    var t := s[i..];
    assert Upper(s)[i..] == Upper(t);
    TrailingUpper(t);
    var j := TrailingCount(t, ByteWhitespace);
    UpperSlice(t, 0, |t| - j);
    assert Strip(Upper(s), ByteWhitespace) == Upper(t)[..|t| - j];
    assert Strip(s, ByteWhitespace) == t[..|t| - j];
  }

  /** `s.upper().upper() == s.upper()`. */
  lemma UpperIdempotent(s: string)
    ensures Upper(Upper(s)) == Upper(s)
  {
  }

  /** Python's `a < b` on strings: lexicographic comparison by code point. */
  predicate LexLess(a: string, b: string)
    decreases |a|
  {
    0 < |b| && (|a| == 0 || a[0] < b[0] || (a[0] == b[0] && LexLess(a[1..], b[1..])))
  }

  lemma {:induction false} LexLessIrreflexive(a: string)
    ensures !LexLess(a, a)
    decreases |a|
  {
    if 0 < |a| {
      LexLessIrreflexive(a[1..]);
    }
  }

  lemma {:induction false} LexLessTransitive(a: string, b: string, c: string)
    requires LexLess(a, b) && LexLess(b, c)
    ensures LexLess(a, c)
    decreases |a|
  {
    if 0 < |a| && a[0] == b[0] && b[0] == c[0] {
      LexLessTransitive(a[1..], b[1..], c[1..]);
    }
  }

  lemma {:induction false} LexLessTotal(a: string, b: string)
    ensures a == b || LexLess(a, b) || LexLess(b, a)
    decreases |a|
  {
    if 0 < |a| && 0 < |b| && a[0] == b[0] {
      LexLessTotal(a[1..], b[1..]);
      if a[1..] == b[1..] {
        assert a == [a[0]] + a[1..] && b == [b[0]] + b[1..];
      }
    }
  }

  /** The character for a decimal digit. */
  function DigitChar(d: nat): char
    requires d < 10
  {
    (d + '0' as int) as char
  }

  /** `str(n)` for a non-negative integer `n`. */
  function Decimal(n: nat): (r: string)
    ensures 0 < |r|
    ensures forall i :: 0 <= i < |r| ==> '0' <= r[i] <= '9'
    ensures |r| > 1 ==> r[0] != '0'
  {
    if n < 10 then [DigitChar(n)] else Decimal(n / 10) + [DigitChar(n % 10)]
  }

  /** The number a string of decimal digits denotes (`int(s)`). */
  function DecimalValue(s: string): nat
    requires forall i :: 0 <= i < |s| ==> '0' <= s[i] <= '9'
  {
    if s == [] then 0 else 10 * DecimalValue(s[..|s| - 1]) + (s[|s| - 1] as int - '0' as int)
  }

  /** `int(str(n)) == n`: the decimal rendering loses nothing. */
  lemma {:induction false} DecimalRoundTrip(n: nat)
    ensures DecimalValue(Decimal(n)) == n
  {
    if 10 <= n {
      var r := Decimal(n);
      assert r[..|r| - 1] == Decimal(n / 10);
      DecimalRoundTrip(n / 10);
    }
  }
}
