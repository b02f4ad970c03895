/**
 * The pieces of the .NET string library that the core relies on:
 * ordinal and ordinal-ignore-case comparison, ToLowerInvariant, Trim,
 * String.Replace, int.Parse on a run of digits and the "D<n>" number format.
 * Case mapping is modelled for the ASCII letters only.
 */
module Strings {
  import opened Models

  // ---------------------------------------------------------------------------
  // Case
  // ---------------------------------------------------------------------------

  /** The simple upper-case mapping that OrdinalIgnoreCase compares by. */
  function ToUpperAscii(c: char): char
  {
    if 'a' <= c <= 'z' then (c as int - 32) as char else c
  }

  function ToLowerAscii(c: char): char
  {
    if 'A' <= c <= 'Z' then (c as int + 32) as char else c
  }

  predicate CharEquals(a: char, b: char, ignoreCase: bool)
  {
    if ignoreCase then ToUpperAscii(a) == ToUpperAscii(b) else a == b
  }

  /** string.Equals(a, b, StringComparison.OrdinalIgnoreCase) */
  predicate EqualsIgnoreCase(a: string, b: string)
  {
    |a| == |b| && forall i :: 0 <= i < |a| ==> CharEquals(a[i], b[i], true)
  }

  /** The key a comparer built on OrdinalIgnoreCase hashes a string by. */
  function FoldCase(s: string): (r: string)
    ensures |r| == |s|
    ensures forall i :: 0 <= i < |s| ==> r[i] == ToUpperAscii(s[i])
  {
    if s == [] then [] else [ToUpperAscii(s[0])] + FoldCase(s[1..])
  }

  /** Two strings are equal ignoring case exactly when their folded forms are equal. */
  lemma EqualsIgnoreCaseIffFolded(a: string, b: string)
    ensures EqualsIgnoreCase(a, b) <==> FoldCase(a) == FoldCase(b)
  {
    if FoldCase(a) == FoldCase(b) {
      forall i | 0 <= i < |a|
        ensures CharEquals(a[i], b[i], true)
      {
        assert FoldCase(a)[i] == FoldCase(b)[i];
      }
    }
  }

  /** string.ToLowerInvariant() */
  function ToLowerInvariant(s: string): (r: string)
    ensures |r| == |s|
    ensures forall i :: 0 <= i < |s| ==> r[i] == ToLowerAscii(s[i])
  {
    if s == [] then [] else [ToLowerAscii(s[0])] + ToLowerInvariant(s[1..])
  }

  predicate IsLowerInvariant(s: string)
  {
    forall i :: 0 <= i < |s| ==> !('A' <= s[i] <= 'Z')
  }

  // ---------------------------------------------------------------------------
  // Searching and replacing
  // ---------------------------------------------------------------------------

  predicate StartsWith(s: string, prefix: string, ignoreCase: bool)
  {
    |prefix| <= |s| && forall i :: 0 <= i < |prefix| ==> CharEquals(s[i], prefix[i], ignoreCase)
  }

  /** string.Contains(t), ordinal */
  predicate Contains(s: string, t: string)
  {
    exists i :: 0 <= i <= |s| && StartsWith(s[i..], t, false)
  }

  /**
   * string.Replace(oldValue, newValue[, comparison]): scans left to right and
   * replaces each non-overlapping occurrence of oldValue; the inserted text
   * is not searched again.
   */
  function Replace(s: string, oldValue: string, newValue: string, ignoreCase: bool): (r: string)
    requires |oldValue| > 0
    ensures |s| < |oldValue| ==> r == s
    ensures |newValue| == |oldValue| ==> |r| == |s|
    decreases |s|
  {
    if s == [] then []
    else if StartsWith(s, oldValue, ignoreCase) then
      newValue + Replace(s[|oldValue|..], oldValue, newValue, ignoreCase)
    else
      [s[0]] + Replace(s[1..], oldValue, newValue, ignoreCase)
  }

  /** A string in which oldValue does not occur comes back from Replace unchanged. */
  lemma {:induction false} ReplaceWithoutOccurrence(s: string, oldValue: string, newValue: string, ignoreCase: bool)
    requires |oldValue| > 0
    requires forall i :: 0 <= i < |s| ==> !StartsWith(s[i..], oldValue, ignoreCase)
    ensures Replace(s, oldValue, newValue, ignoreCase) == s
  {
    if s != [] {
      assert !StartsWith(s[0..], oldValue, ignoreCase);
      forall i | 0 <= i < |s[1..]|
        ensures !StartsWith(s[1..][i..], oldValue, ignoreCase)
      {
        assert s[1..][i..] == s[i + 1..];
      }
      ReplaceWithoutOccurrence(s[1..], oldValue, newValue, ignoreCase);
    }
  }

  /** No '{' occurs in s. */
  predicate NoBrace(s: string)
  {
    forall i :: 0 <= i < |s| ==> s[i] != '{'
  }

  /** A placeholder, which starts with '{', occurs nowhere in text without '{'. */
  lemma ReplaceNoBrace(t: string, oldValue: string, newValue: string, ignoreCase: bool)
    requires |oldValue| > 0 && oldValue[0] == '{'
    ensures NoBrace(t) ==> Replace(t, oldValue, newValue, ignoreCase) == t
  {
    if NoBrace(t) {
      forall i | 0 <= i < |t|
        ensures !StartsWith(t[i..], oldValue, ignoreCase)
      {
        assert !CharEquals(t[i..][0], oldValue[0], ignoreCase);
      }
      ReplaceWithoutOccurrence(t, oldValue, newValue, ignoreCase);
    }
  }

  // ---------------------------------------------------------------------------
  // White space and Trim
  // ---------------------------------------------------------------------------

  /** char.IsWhiteSpace: the Unicode separators and the controls U+0009-U+000D, U+0085. */
  predicate IsWhiteSpace(c: char)
  {
    || c == ' '
    || '\t' <= c <= '\r'
    || c == '\U{85}' || c == '\U{A0}' || c == '\U{1680}'
    || '\U{2000}' <= c <= '\U{200A}'
    || c == '\U{2028}' || c == '\U{2029}' || c == '\U{202F}' || c == '\U{205F}' || c == '\U{3000}'
  }

  /** r is the slice s[start..start + |r|] and everything around it is white space. */
  ghost predicate TrimmedAt(s: string, r: string, start: nat)
  {
    && start + |r| <= |s|
    && r == s[start..start + |r|]
    && (forall k :: 0 <= k < start ==> IsWhiteSpace(s[k]))
    && (forall k :: start + |r| <= k < |s| ==> IsWhiteSpace(s[k]))
  }

  /** The index of the first character at or after i that is not white space, or |s|. */
  function SkipWhiteSpace(s: string, i: nat): (k: nat)
    requires i <= |s|
    ensures i <= k <= |s|
    ensures forall j :: i <= j < k ==> IsWhiteSpace(s[j])
    ensures k < |s| ==> !IsWhiteSpace(s[k])
    decreases |s| - i
  {
    if i < |s| && IsWhiteSpace(s[i]) then SkipWhiteSpace(s, i + 1) else i
  }

  /** The end of s[lo..e] once its trailing white space is dropped. */
  function SkipWhiteSpaceBack(s: string, lo: nat, e: nat): (k: nat)
    requires lo <= e <= |s|
    ensures lo <= k <= e
    ensures forall j :: k <= j < e ==> IsWhiteSpace(s[j])
    ensures lo < k ==> !IsWhiteSpace(s[k - 1])
    decreases e
  {
    if lo < e && IsWhiteSpace(s[e - 1]) then SkipWhiteSpaceBack(s, lo, e - 1) else e
  }

  /** string.Trim(): drops the leading and trailing white space, nothing else. */
  function Trim(s: string): (r: string)
    ensures r == [] || (!IsWhiteSpace(r[0]) && !IsWhiteSpace(r[|r| - 1]))
    ensures TrimmedAt(s, r, SkipWhiteSpace(s, 0))
  {
    var a := SkipWhiteSpace(s, 0);
    s[a..SkipWhiteSpaceBack(s, a, |s|)]
  }

  /** A string without white space at either end is its own Trim. */
  lemma TrimIdentity(s: string)
    requires s == [] || (!IsWhiteSpace(s[0]) && !IsWhiteSpace(s[|s| - 1]))
    ensures Trim(s) == s
  {
  }

  // ---------------------------------------------------------------------------
  // Decimal digits: int.Parse, int.ToString() and int.ToString("D<n>")
  // ---------------------------------------------------------------------------

  /** The regular-expression class \d, restricted to ASCII digits. */
  predicate IsDigit(c: char)
  {
    '0' <= c <= '9'
  }

  predicate AllDigits(s: string)
  {
    forall i :: 0 <= i < |s| ==> IsDigit(s[i])
  }

  /** The number a run of digits denotes. */
  function DigitsValue(d: string): nat
    requires AllDigits(d)
    decreases |d|
  {
    if d == [] then 0 else DigitsValue(d[..|d| - 1]) * 10 + (d[|d| - 1] as int - '0' as int)
  }

  function DigitChar(n: nat): (c: char)
    requires n < 10
    ensures IsDigit(c) && c as int - '0' as int == n
  {
    ('0' as int + n) as char
  }

  /** n.ToString(): the decimal digits of n, without leading zeros. */
  function NatToString(n: nat): (r: string)
    ensures |r| > 0 && AllDigits(r)
    ensures r[0] == '0' ==> n == 0
  {
    if n < 10 then [DigitChar(n)] else NatToString(n / 10) + [DigitChar(n % 10)]
  }

  /** NatToString and DigitsValue are inverse. */
  lemma {:induction false} NatToStringRoundTrip(n: nat)
    ensures DigitsValue(NatToString(n)) == n
  {
    var r := NatToString(n);
    if n >= 10 {
      NatToStringRoundTrip(n / 10);
      assert r[..|r| - 1] == NatToString(n / 10);
    }
  }

  /** A leading zero does not change the value of a run of digits. */
  lemma {:induction false} LeadingZero(d: string)
    requires AllDigits(d)
    ensures AllDigits(['0'] + d) && DigitsValue(['0'] + d) == DigitsValue(d)
  {
    var z := ['0'] + d;
    if d != [] {
      assert z[..|z| - 1] == ['0'] + d[..|d| - 1];
      LeadingZero(d[..|d| - 1]);
    }
  }

  function Zeros(k: int): (r: string)
    ensures |r| == (if k < 0 then 0 else k)
    ensures forall i :: 0 <= i < |r| ==> r[i] == '0'
    decreases k
  {
    if k <= 0 then [] else ['0'] + Zeros(k - 1)
  }

  /** n.ToString("D" + width): the digits of n, zero-padded on the left to at least width. */
  function PadLeft(n: nat, width: int): (r: string)
    ensures AllDigits(r)
    ensures |r| == if width > |NatToString(n)| then width else |NatToString(n)|
  {
    Zeros(width - |NatToString(n)|) + NatToString(n)
  }

  /** The padded digits still denote n. */
  lemma {:induction false} PadLeftRoundTrip(n: nat, width: int)
    ensures DigitsValue(PadLeft(n, width)) == n
    decreases width
  {
    var digits := NatToString(n);
    var k := width - |digits|;
    if k <= 0 {
      assert PadLeft(n, width) == digits;
      NatToStringRoundTrip(n);
    } else {
      var shorter := PadLeft(n, width - 1);
      assert shorter == Zeros(k - 1) + digits;
      assert PadLeft(n, width) == (['0'] + Zeros(k - 1)) + digits;
      assert PadLeft(n, width) == ['0'] + shorter;
      PadLeftRoundTrip(n, width - 1);
      LeadingZero(shorter);
    }
  }

  const Int32MaxValue: nat := 0x7FFF_FFFF

  /** int.Parse on a run of ASCII digits: an OverflowException above int.MaxValue. */
  function ParseInt32(d: string): (r: Result<nat, Error>)
    requires AllDigits(d)
    ensures r.Ok? <==> DigitsValue(d) <= Int32MaxValue
    ensures r.Ok? ==> r.value == DigitsValue(d)
    ensures r.Err? ==> r.error == Overflow
  {
    var v := DigitsValue(d);
    if v <= Int32MaxValue then Ok(v) else Err(Overflow)
  }

  // ---------------------------------------------------------------------------
  // Ordinal order
  // ---------------------------------------------------------------------------

  /** Ordinal (character-code, lexicographic) order on strings. */
  predicate OrdinalLessOrEqual(a: string, b: string)
    decreases |a|
  {
    a == [] || (b != [] && (a[0] < b[0] || (a[0] == b[0] && OrdinalLessOrEqual(a[1..], b[1..]))))
  }

  lemma {:induction false} OrdinalTotal(a: string, b: string)
    ensures OrdinalLessOrEqual(a, b) || OrdinalLessOrEqual(b, a)
    decreases |a|
  {
    if a != [] && b != [] && a[0] == b[0] {
      OrdinalTotal(a[1..], b[1..]);
    }
  }

  lemma {:induction false} OrdinalTransitive(a: string, b: string, c: string)
    requires OrdinalLessOrEqual(a, b) && OrdinalLessOrEqual(b, c)
    ensures OrdinalLessOrEqual(a, c)
    decreases |a|
  {
    if a != [] && a[0] == b[0] && b[0] == c[0] {
      OrdinalTransitive(a[1..], b[1..], c[1..]);
    }
  }
}
