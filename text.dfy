/**
 * The Python string built-ins the export pipeline relies on: `str.strip()`,
 * `str.replace`, `str.split(sep)`, `int(text)` and `str(n)` for a
 * non-negative `n`.
 */
module Text {
  import opened Wrappers

  /** `str.isspace()` of one character: Python's whitespace set. */
  predicate IsSpace(c: char) {
    || c == ' '
    || ('\t' <= c <= '\r')
    || ('\U{1C}' <= c <= '\U{1F}')
    || c == '\U{85}' || c == '\U{A0}' || c == '\U{1680}'
    || ('\U{2000}' <= c <= '\U{200A}')
    || c == '\U{2028}' || c == '\U{2029}' || c == '\U{202F}'
    || c == '\U{205F}' || c == '\U{3000}'
  }

  predicate AllSpace(s: string) {
    forall k :: 0 <= k < |s| ==> IsSpace(s[k])
  }

  /** The index of the first non-whitespace character at or after `from`, or `|s|`. */
  function SkipSpaces(s: string, from: nat): (i: nat)
    requires from <= |s|
    ensures from <= i <= |s|
    ensures forall k :: from <= k < i ==> IsSpace(s[k])
    ensures i < |s| ==> !IsSpace(s[i])
    decreases |s| - from
  {
    if from < |s| && IsSpace(s[from]) then SkipSpaces(s, from + 1) else from
  }

  /** The end of `s[lo..hi]` once its trailing whitespace is dropped. */
  function TrimEnd(s: string, lo: nat, hi: nat): (j: nat)
    requires lo <= hi <= |s|
    ensures lo <= j <= hi
    ensures forall k :: j <= k < hi ==> IsSpace(s[k])
    ensures lo < j ==> !IsSpace(s[j - 1])
    decreases hi
  {
    if lo < hi && IsSpace(s[hi - 1]) then TrimEnd(s, lo, hi - 1) else hi
  }

  /**
   * Where `s.strip()` cuts: everything before the first bound and from the
   * second on is whitespace, and what is kept starts and ends with a
   * non-whitespace character; nothing is kept only when `s` is all whitespace.
   */
  function StripBounds(s: string): (b: (nat, nat))
    ensures b.0 <= b.1 <= |s|
    ensures forall k :: 0 <= k < b.0 ==> IsSpace(s[k])
    ensures forall k :: b.1 <= k < |s| ==> IsSpace(s[k])
    ensures b.0 < b.1 ==> !IsSpace(s[b.0]) && !IsSpace(s[b.1 - 1])
    ensures b.0 == b.1 <==> AllSpace(s)
  {
    var i := SkipSpaces(s, 0);
    (i, TrimEnd(s, i, |s|))
  }

  /** `s.strip()`: `s` without its leading and trailing whitespace. */
  function Strip(s: string): (r: string)
    ensures r == s[StripBounds(s).0..StripBounds(s).1]
    ensures r != [] ==> !IsSpace(r[0]) && !IsSpace(r[|r| - 1])
    ensures r == [] <==> AllSpace(s)
  {
    var b := StripBounds(s);
    s[b.0..b.1]
  }

  /** A string that neither starts nor ends with whitespace is its own strip. */
  lemma StripTrimmed(s: string)
    requires s != [] && !IsSpace(s[0]) && !IsSpace(s[|s| - 1])
    ensures Strip(s) == s
  {
  }

  /** `s.replace(a, b)` for single characters `a` and `b`. */
  function ReplaceChar(s: string, a: char, b: char): (r: string)
    ensures |r| == |s|
  {
    seq(|s|, k requires 0 <= k < |s| => if s[k] == a then b else s[k])
  }

  lemma ReplaceCharSpec(s: string, a: char, b: char)
    requires a != b
    ensures var r := ReplaceChar(s, a, b);
      && a !in r
      && forall k :: 0 <= k < |s| ==> r[k] == (if s[k] == a then b else s[k])
  {
  }

  // ---------------------------------------------------------------------
  // `s.split(sep)` and its inverse `sep.join(parts)`

  /** `s.split(sep)` for a one-character separator: always at least one part. */
  function Split(s: string, sep: char): (parts: seq<string>)
    ensures |parts| >= 1
    ensures forall k :: 0 <= k < |parts| ==> sep !in parts[k]
  {
    if s == [] then [[]]
    else
      var rest := Split(s[1..], sep);
      if s[0] == sep then [[]] + rest
      else [[s[0]] + rest[0]] + rest[1..]
  }

  /** `sep.join(parts)`. */
  function JoinWith(parts: seq<string>, sep: char): string
    requires |parts| >= 1
  {
    if |parts| == 1 then parts[0] else parts[0] + [sep] + JoinWith(parts[1..], sep)
  }

  /** Splitting and joining back gives the original string. */
  lemma {:induction false} SplitJoin(s: string, sep: char)
    ensures JoinWith(Split(s, sep), sep) == s
  {
    if s != [] {
      var rest := Split(s[1..], sep);
      SplitJoin(s[1..], sep);
      if s[0] == sep {
        assert Split(s, sep)[1..] == rest;
      } else {
        var parts := Split(s, sep);
        if |rest| == 1 {
          assert parts == [[s[0]] + rest[0]];
        } else {
          assert parts[1..] == rest[1..];
          assert JoinWith(rest, sep) == rest[0] + [sep] + JoinWith(rest[1..], sep);
        }
      }
    }
  }

  /** A string with no separator in it splits into itself alone. */
  lemma {:induction false} SplitNoSeparator(s: string, sep: char)
    requires sep !in s
    ensures Split(s, sep) == [s]
  {
    if s != [] {
      assert sep !in s[1..] by { assert forall k :: 0 <= k < |s[1..]| ==> s[1..][k] == s[k + 1]; }
      SplitNoSeparator(s[1..], sep);
      assert [s[0]] + s[1..] == s;
    }
  }

  /** Splitting `a + [sep] + b` where `a` holds no separator gives `a`, then the parts of `b`. */
  lemma {:induction false} SplitAfterFirst(a: string, b: string, sep: char)
    requires sep !in a
    ensures Split(a + [sep] + b, sep) == [a] + Split(b, sep)
  {
    if a == [] {
      assert a + [sep] + b == [sep] + b;
      assert ([sep] + b)[1..] == b;
    } else {
      var s := a + [sep] + b;
      assert s[1..] == a[1..] + [sep] + b;
      assert sep !in a[1..] by { assert forall k :: 0 <= k < |a[1..]| ==> a[1..][k] == a[k + 1]; }
      SplitAfterFirst(a[1..], b, sep);
      assert [a[0]] + a[1..] == a;
    }
  }

  // ---------------------------------------------------------------------
  // Decimal digits: `str(n)` and `int(text)`

  predicate IsDigit(c: char) {
    '0' <= c <= '9'
  }

  predicate AllDigits(s: string) {
    forall k :: 0 <= k < |s| ==> IsDigit(s[k])
  }

  function DigitChar(d: nat): (c: char)
    requires d < 10
    ensures IsDigit(c)
  {
    ('0' as int + d) as char
  }

  function DigitValue(c: char): (d: nat)
    requires IsDigit(c)
    ensures d < 10 && DigitChar(d) == c
  {
    (c as int - '0' as int) as nat
  }

  /** `str(n)` for a non-negative `n`: its decimal digits, without leading zeros. */
  function NatToString(n: nat): (s: string)
    ensures |s| >= 1 && AllDigits(s)
    ensures s[0] == '0' ==> n == 0
  {
    if n < 10 then [DigitChar(n)] else NatToString(n / 10) + [DigitChar(n % 10)]
  }

  /** The value of a string of decimal digits. */
  function DigitsValue(s: string): nat
    requires AllDigits(s)
  {
    if s == [] then 0 else DigitsValue(s[..|s| - 1]) * 10 + DigitValue(s[|s| - 1])
  }

  lemma {:induction false} DigitsOfNat(n: nat)
    ensures DigitsValue(NatToString(n)) == n
  {
    var s := NatToString(n);
    if n >= 10 {
      var q, r := n / 10, n % 10;
      assert s[..|s| - 1] == NatToString(q) && s[|s| - 1] == DigitChar(r);
      DigitsOfNat(q);
      assert n == q * 10 + r;
    }
  }

  /** `str` is injective on non-negative numbers. */
  lemma NatToStringInjective(n: nat, m: nat)
    requires NatToString(n) == NatToString(m)
    ensures n == m
  {
    DigitsOfNat(n);
    DigitsOfNat(m);
  }

  /**
   * The whitespace `int` skips: it turns every non-ASCII whitespace character
   * into a space and then skips only ASCII whitespace, so the separators
   * U+001C to U+001F, whitespace to `str.isspace`, are not skipped.
   */
  predicate IsIntSpace(c: char) {
    IsSpace(c) && !('\U{1C}' <= c <= '\U{1F}')
  }

  /** Everything `strip()` drops from `text` is whitespace that `int` skips too. */
  predicate IntTrimmable(text: string) {
    var b := StripBounds(text);
    && (forall k :: 0 <= k < b.0 ==> IsIntSpace(text[k]))
    && (forall k :: b.1 <= k < |text| ==> IsIntSpace(text[k]))
  }

  predicate IsSign(c: char) {
    c == '+' || c == '-'
  }

  /** An optional leading sign followed by one or more ASCII digits. */
  predicate IsIntLiteral(t: string) {
    && |t| >= 1
    && IsDigit(t[|t| - 1])
    && forall k :: 0 <= k < |t| ==> IsDigit(t[k]) || (k == 0 && IsSign(t[k]))
  }

  /**
   * `int(text)`: surrounding whitespace is ignored, an optional `+` or `-`
   * sign, then one or more ASCII digits; anything else is a `ValueError`
   * (`None` here). A separator U+001C to U+001F among the surrounding
   * whitespace is not skipped and so makes `int` raise.
   */
  function ParseInt(text: string): (r: Option<int>)
    ensures r.Some? ==> IntTrimmable(text) && Strip(text) != [] && IsDigit(Strip(text)[|Strip(text)| - 1])
    ensures IntTrimmable(text) && Strip(text) != [] && AllDigits(Strip(text)) ==> r == Some(DigitsValue(Strip(text)))
    ensures r.Some? && r.value < 0 ==> Strip(text)[0] == '-'
    ensures r.Some? <==> IntTrimmable(text) && IsIntLiteral(Strip(text))
    ensures var t := Strip(text);
      r.Some? && t[0] != '+' && t[0] != '-' ==> r.value == DigitsValue(t)
    ensures var t := Strip(text);
      r.Some? && t[0] == '+' ==> r.value == DigitsValue(t[1..])
    ensures var t := Strip(text);
      r.Some? && t[0] == '-' ==> r.value == -(DigitsValue(t[1..]) as int)
  {
    if IntTrimmable(text) then ParseLiteral(Strip(text)) else None
  }

  /** `int` of text that is already stripped: an optional sign, then the digits. */
  function ParseLiteral(t: string): (r: Option<int>)
    ensures r.Some? <==> IsIntLiteral(t)
    ensures r.Some? && t[0] != '+' && t[0] != '-' ==> r.value == DigitsValue(t)
    ensures r.Some? && t[0] == '+' ==> r.value == DigitsValue(t[1..])
    ensures r.Some? && t[0] == '-' ==> r.value == -(DigitsValue(t[1..]) as int)
  {
    if t == [] then None
    else
      var signed := IsSign(t[0]);
      var body := if signed then t[1..] else t;
      assert signed ==> forall k :: 0 <= k < |body| ==> body[k] == t[k + 1];
      if body == [] || !AllDigits(body) then
        assert !IsIntLiteral(t) by {
          if body != [] {
            var k :| 0 <= k < |body| && !IsDigit(body[k]);
            assert !IsDigit(t[if signed then k + 1 else k]);
          }
        }
        None
      else
        var v: int := DigitsValue(body);
        assert body[|body| - 1] == t[|t| - 1];
        Some(if t[0] == '-' then -v else v)
  }

  /** `int(str(n)) == n` for every non-negative `n`. */
  lemma ParseIntOfNat(n: nat)
    ensures ParseInt(NatToString(n)) == Some(n)
  {
    var s := NatToString(n);
    StripTrimmed(s);
    DigitsOfNat(n);
  }

  /** A sign followed by the digits of `n` is its own strip and an integer literal. */
  lemma SignedDigitsLiteral(c: char, n: nat)
    requires IsSign(c)
    ensures var text := [c] + NatToString(n);
      Strip(text) == text && IntTrimmable(text) && IsIntLiteral(text) && text[1..] == NatToString(n)
  {
    var s := NatToString(n);
    var text := [c] + s;
    assert text[1..] == s;
    assert !IsSpace(text[0]) && !IsSpace(text[|text| - 1]);
    StripTrimmed(text);
    assert StripBounds(text) == (0, |text|);
    assert forall k :: 1 <= k < |text| ==> text[k] == s[k - 1];
  }

  /** A sign followed by the digits of `n` reads as `n` with that sign. */
  lemma ParseIntAfterSign(c: char, n: nat)
    requires IsSign(c)
    ensures ParseInt([c] + NatToString(n)) == Some(if c == '-' then -(n as int) else n)
  {
    SignedDigitsLiteral(c, n);
    DigitsOfNat(n);
  }

  /** A signed decimal string reads as its signed value. */
  lemma ParseIntSigned(n: nat)
    ensures ParseInt("+" + NatToString(n)) == Some(n)
    ensures ParseInt("-" + NatToString(n)) == Some(-(n as int))
  {
    ParseIntAfterSign('+', n);
    ParseIntAfterSign('-', n);
  }

  /** Any character of the stripped text other than a digit or a leading sign makes `int` raise. */
  lemma ParseIntRejectsNonDigit(text: string, k: nat)
    requires k < |Strip(text)|
    requires !IsDigit(Strip(text)[k]) && !(k == 0 && IsSign(Strip(text)[0]))
    ensures ParseInt(text) == None
  {
  }

  /** A separator U+001C to U+001F in front of a number makes `int` raise, though `strip()` would drop it. */
  lemma ParseIntRejectsSeparator(c: char, n: nat)
    requires '\U{1C}' <= c <= '\U{1F}'
    ensures ParseInt([c] + NatToString(n)) == None
    ensures Strip([c] + NatToString(n)) == NatToString(n)
  {
    var s := NatToString(n);
    var text := [c] + s;
    assert !IsSpace(s[0]) && !IsSpace(s[|s| - 1]);
    assert text[1..] == s;
    assert StripBounds(text).0 == 1 by {
      assert IsSpace(text[0]) && !IsSpace(text[1]);
    }
    assert !IsIntSpace(text[0]);
  }

  /** `int` rejects text that is blank or has no digits after the sign. */
  lemma ParseIntRejects(text: string)
    requires AllSpace(text) || Strip(text) == "+" || Strip(text) == "-"
    ensures ParseInt(text) == None
  {
  }
}
