/**
 * What ApplyPattern means. A pattern is read as a sequence of segments:
 * literal text without '{', and {name} placeholders. Substituting the
 * metadata replaces each placeholder whose name is a key (ignoring case) by
 * the value of the first such key and leaves the others as they are; the
 * counter step only rewrites {counter} and {counter:N} tokens; the sanitiser
 * is idempotent.
 */
module PatternTheory {
  import opened Models
  import opened Strings
  import opened FileService

  predicate NoCloseBrace(s: string)
  {
    forall i :: 0 <= i < |s| ==> s[i] != '}'
  }

  lemma NoBraceAppend(a: string, b: string)
    requires NoBrace(a) && NoBrace(b)
    ensures NoBrace(a + b)
  {
    forall i | 0 <= i < |a + b|
      ensures (a + b)[i] != '{'
    {
      if i >= |a| {
        assert (a + b)[i] == b[i - |a|];
      }
    }
  }

  // ---------------------------------------------------------------------------
  // Replace on text around placeholders
  // ---------------------------------------------------------------------------

  /** Text without '{' passes through Replace when the searched text starts with '{'. */
  lemma {:induction false} ReplaceSkipsPrefix(t: string, rest: string, oldValue: string, newValue: string, ignoreCase: bool)
    requires |oldValue| > 0 && oldValue[0] == '{' && NoBrace(t)
    ensures Replace(t + rest, oldValue, newValue, ignoreCase) == t + Replace(rest, oldValue, newValue, ignoreCase)
    decreases |t|
  {
    if t == [] {
      assert t + rest == rest;
    } else {
      var s := t + rest;
      assert s[0] == t[0];
      assert !CharEquals(s[0], oldValue[0], ignoreCase);
      assert s[1..] == t[1..] + rest;
      ReplaceSkipsPrefix(t[1..], rest, oldValue, newValue, ignoreCase);
      assert t == [t[0]] + t[1..];
    }
  }

  // ---------------------------------------------------------------------------
  // Patterns as segments
  // ---------------------------------------------------------------------------

  datatype Segment = Text(text: string) | Placeholder(name: string)

  /** How a placeholder is spelled in a pattern. */
  function Braced(name: string): string
  {
    "{" + name + "}"
  }

  function RenderSegment(seg: Segment): string
  {
    match seg
    case Text(t) => t
    case Placeholder(n) => Braced(n)
  }

  /** The pattern string a sequence of segments spells. */
  function Render(segs: seq<Segment>): string
  {
    if segs == [] then [] else RenderSegment(segs[0]) + Render(segs[1..])
  }

  /** Text holds no '{'; a placeholder name holds neither brace. */
  predicate WellFormedSegment(seg: Segment)
  {
    match seg
    case Text(t) => NoBrace(t)
    case Placeholder(n) => NoBrace(n) && NoCloseBrace(n)
  }

  predicate WellFormed(segs: seq<Segment>)
  {
    forall i :: 0 <= i < |segs| ==> WellFormedSegment(segs[i])
  }

  /** Dictionary lookup ignoring case: the value of the first key equal to name. */
  function Lookup(metadata: Metadata, name: string): (r: Option<string>)
    ensures r.None? <==> forall j :: 0 <= j < |metadata| ==> !EqualsIgnoreCase(metadata[j].0, name)
  {
    if metadata == [] then None
    else if EqualsIgnoreCase(metadata[0].0, name) then Some(metadata[0].1)
    else Lookup(metadata[1..], name)
  }

  /** A placeholder with a value becomes that text; everything else is kept. */
  function FillSegment(seg: Segment, metadata: Metadata): Segment
  {
    match seg
    case Text(_) => seg
    case Placeholder(n) => if Lookup(metadata, n).Some? then Text(Lookup(metadata, n).value) else seg
  }

  /** The intended meaning of the metadata loop of ApplyPattern, segment by segment. */
  function Fill(segs: seq<Segment>, metadata: Metadata): (r: seq<Segment>)
    ensures |r| == |segs|
    ensures forall i :: 0 <= i < |segs| ==> r[i] == FillSegment(segs[i], metadata)
  {
    if segs == [] then [] else [FillSegment(segs[0], metadata)] + Fill(segs[1..], metadata)
  }

  /** Keys may be matched inside a pattern only when they hold no brace; values hold no '{'. */
  predicate PlainMetadata(metadata: Metadata)
  {
    forall j :: 0 <= j < |metadata| ==>
      NoBrace(metadata[j].0) && NoCloseBrace(metadata[j].0) && NoBrace(metadata[j].1)
  }

  lemma {:induction false} RenderAppend(a: seq<Segment>, b: seq<Segment>)
    ensures Render(a + b) == Render(a) + Render(b)
  {
    if a == [] {
      assert a + b == b;
    } else {
      assert (a + b)[0] == a[0];
      assert (a + b)[1..] == a[1..] + b;
      RenderAppend(a[1..], b);
    }
  }

  /** Where the name and the closing brace of a spelled placeholder sit. */
  lemma Spelled(s: string, n: string, rest: string)
    requires s == Braced(n) + rest
    ensures |s| == |n| + 2 + |rest| && s[0] == '{' && s[|n| + 1] == '}'
    ensures forall i :: 0 <= i < |n| ==> s[i + 1] == n[i]
  {
  }

  /** A placeholder spelled in full either is the key (ignoring case) or does not start with it. */
  lemma PlaceholderMatch(n: string, k: string, rest: string)
    requires NoCloseBrace(n) && NoCloseBrace(k)
    ensures StartsWith(Braced(n) + rest, Braced(k), true) <==> EqualsIgnoreCase(k, n)
  {
    var s := Braced(n) + rest;
    var o := Braced(k);
    Spelled(s, n, rest);
    Spelled(o, k, []);
    if StartsWith(s, o, true) {
      assert |n| == |k|;
      forall i | 0 <= i < |k|
        ensures CharEquals(k[i], n[i], true)
      {
        assert CharEquals(s[i + 1], o[i + 1], true);
      }
    } else if EqualsIgnoreCase(k, n) {
      assert false;
    }
  }

  /** A placeholder named by the key is replaced by the value. */
  lemma ReplaceMatchingPlaceholder(n: string, rest: string, k: string, v: string)
    requires NoCloseBrace(n) && NoCloseBrace(k) && EqualsIgnoreCase(k, n)
    ensures Replace(Braced(n) + rest, Braced(k), v, true) == v + Replace(rest, Braced(k), v, true)
  {
    var s := Braced(n) + rest;
    PlaceholderMatch(n, k, rest);
    assert s[|Braced(k)|..] == rest;
  }

  /** Where oldValue does not start, Replace copies one character and goes on. */
  lemma ReplaceUnmatchedHead(s: string, oldValue: string, newValue: string, ignoreCase: bool)
    requires s != [] && |oldValue| > 0 && !StartsWith(s, oldValue, ignoreCase)
    ensures Replace(s, oldValue, newValue, ignoreCase) == [s[0]] + Replace(s[1..], oldValue, newValue, ignoreCase)
  {
  }

  /** A placeholder named otherwise is copied. */
  lemma ReplaceOtherPlaceholder(n: string, rest: string, k: string, v: string)
    requires NoBrace(n) && NoCloseBrace(n) && NoCloseBrace(k) && !EqualsIgnoreCase(k, n)
    ensures Replace(Braced(n) + rest, Braced(k), v, true) == Braced(n) + Replace(rest, Braced(k), v, true)
  {
    var s := Braced(n) + rest;
    var o := Braced(k);
    var t := n + "}";
    assert o[0] == '{';
    assert s[0] == '{' && s[1..] == t + rest && Braced(n) == ['{'] + t;
    assert !StartsWith(s, o, true) by {
      PlaceholderMatch(n, k, rest);
    }
    ReplaceUnmatchedHead(s, o, v, true);
    assert NoBrace(t) by {
      NoBraceAppend(n, "}");
    }
    ReplaceSkipsPrefix(t, rest, o, v, true);
    Regroup3(['{'], t, Replace(rest, o, v, true));
  }

  /** Replace applied to one rendered segment followed by more text. */
  lemma ReplaceRenderedHead(seg: Segment, rest: string, k: string, v: string)
    requires WellFormedSegment(seg) && NoBrace(k) && NoCloseBrace(k)
    ensures Replace(RenderSegment(seg) + rest, Braced(k), v, true)
      == RenderSegment(FillSegment(seg, [(k, v)])) + Replace(rest, Braced(k), v, true)
  {
    match seg
    case Text(t) =>
      ReplaceSkipsPrefix(t, rest, Braced(k), v, true);
    case Placeholder(n) =>
      if EqualsIgnoreCase(k, n) {
        assert Lookup([(k, v)], n) == Some(v);
        ReplaceMatchingPlaceholder(n, rest, k, v);
      } else {
        assert Lookup([(k, v)], n) == None;
        ReplaceOtherPlaceholder(n, rest, k, v);
      }
  }

  lemma WellFormedTail(segs: seq<Segment>)
    requires segs != [] && WellFormed(segs)
    ensures WellFormedSegment(segs[0]) && WellFormed(segs[1..])
  {
    forall i | 0 <= i < |segs[1..]|
      ensures WellFormedSegment(segs[1..][i])
    {
      assert segs[1..][i] == segs[i + 1];
    }
  }

  /** One Replace call of the metadata loop does what FillSegment does, for one entry. */
  lemma {:induction false} ReplaceRendered(segs: seq<Segment>, k: string, v: string)
    requires WellFormed(segs) && NoBrace(k) && NoCloseBrace(k)
    ensures Replace(Render(segs), Braced(k), v, true) == Render(Fill(segs, [(k, v)]))
  {
    if segs != [] {
      var filled := Fill(segs, [(k, v)]);
      WellFormedTail(segs);
      ReplaceRendered(segs[1..], k, v);
      ReplaceRenderedHead(segs[0], Render(segs[1..]), k, v);
      assert filled[1..] == Fill(segs[1..], [(k, v)]);
      assert Render(filled) == RenderSegment(filled[0]) + Render(filled[1..]);
    }
  }

  lemma FillEmpty(segs: seq<Segment>)
    ensures Fill(segs, []) == segs
  {
  }

  /** Filling with one entry and then the others is filling with all of them. */
  lemma FillCompose(segs: seq<Segment>, metadata: Metadata)
    requires metadata != []
    ensures Fill(Fill(segs, [metadata[0]]), metadata[1..]) == Fill(segs, metadata)
  {
    var once := Fill(segs, [metadata[0]]);
    forall i | 0 <= i < |segs|
      ensures FillSegment(once[i], metadata[1..]) == FillSegment(segs[i], metadata)
    {
    }
  }

  lemma FillKeepsWellFormed(segs: seq<Segment>, metadata: Metadata)
    requires WellFormed(segs) && PlainMetadata(metadata)
    ensures WellFormed(Fill(segs, metadata))
  {
    forall i | 0 <= i < |segs|
      ensures WellFormedSegment(FillSegment(segs[i], metadata))
    {
      if segs[i].Placeholder? && Lookup(metadata, segs[i].name).Some? {
        LookupIsValue(metadata, segs[i].name);
      }
    }
  }

  /** A value found by Lookup is the value of one of the entries. */
  lemma {:induction false} LookupIsValue(metadata: Metadata, name: string)
    requires Lookup(metadata, name).Some?
    ensures exists j :: 0 <= j < |metadata| && metadata[j].1 == Lookup(metadata, name).value
  {
    if !EqualsIgnoreCase(metadata[0].0, name) {
      LookupIsValue(metadata[1..], name);
      var j :| 0 <= j < |metadata[1..]| && metadata[1..][j].1 == Lookup(metadata[1..], name).value;
      assert metadata[j + 1].1 == Lookup(metadata, name).value;
    } else {
      assert metadata[0].1 == Lookup(metadata, name).value;
    }
  }

  /**
   * The metadata loop of ApplyPattern fills the placeholders: each {name}
   * whose name is a key ignoring case becomes the first such key's value, and
   * every other placeholder is left as it is.
   */
  lemma {:induction false} SubstitutionFillsPlaceholders(segs: seq<Segment>, metadata: Metadata)
    requires WellFormed(segs) && PlainMetadata(metadata)
    ensures SubstituteMetadata(Render(segs), metadata) == Render(Fill(segs, metadata))
    decreases |metadata|
  {
    if metadata == [] {
      FillEmpty(segs);
    } else {
      var (k, v) := metadata[0];
      var once := Fill(segs, [metadata[0]]);
      ReplaceRendered(segs, k, v);
      assert PlainMetadata([metadata[0]]);
      FillKeepsWellFormed(segs, [metadata[0]]);
      assert PlainMetadata(metadata[1..]) by {
        forall j | 0 <= j < |metadata[1..]|
          ensures NoBrace(metadata[1..][j].0) && NoCloseBrace(metadata[1..][j].0) && NoBrace(metadata[1..][j].1)
        {
          assert metadata[1..][j] == metadata[j + 1];
        }
      }
      SubstitutionFillsPlaceholders(once, metadata[1..]);
      FillCompose(segs, metadata);
    }
  }

  // ---------------------------------------------------------------------------
  // The counter step of ApplyPattern
  // ---------------------------------------------------------------------------

  /** Only '{' can start a counter token. */
  lemma NoMatchWithoutBrace(s: string)
    requires s != [] && s[0] != '{'
    ensures MatchCounterPlaceholder(s).None?
  {
    assert !StartsWith(s, "{counter", false) by {
      assert !CharEquals(s[0], "{counter"[0], false);
    }
  }

  /** No match of \{counter(?::(\d+))?\} starts in s before position n. */
  predicate NoPlaceholderBefore(s: string, n: nat)
    requires n <= |s|
  {
    forall j :: 0 <= j < n ==> MatchCounterPlaceholder(s[j..]).None?
  }

  /** Text without '{' holds the start of no counter placeholder. */
  lemma PlainTextNoPlaceholder(t: string, rest: string)
    requires NoBrace(t)
    ensures NoPlaceholderBefore(t + rest, |t|)
  {
    forall j | 0 <= j < |t|
      ensures MatchCounterPlaceholder((t + rest)[j..]).None?
    {
      assert (t + rest)[j..][0] == t[j];
      NoMatchWithoutBrace((t + rest)[j..]);
    }
  }

  /** A successful rewrite with t put in front; an error passes through. */
  function Prefixed(t: string, r: Result<string, Error>): Result<string, Error>
  {
    if r.Ok? then Ok(t + r.value) else r
  }

  /** Where no placeholder starts, the counter step copies one character and goes on. */
  lemma CanonicalizeUnmatched(s: string)
    requires s != [] && MatchCounterPlaceholder(s).None?
    ensures CanonicalizeCounters(s) == Prefixed([s[0]], CanonicalizeCounters(s[1..]))
  {
  }

  lemma PrefixedTwice(c: string, t: string, r: Result<string, Error>)
    ensures Prefixed(c, Prefixed(t, r)) == Prefixed(c + t, r)
  {
    if r.Ok? {
      assert c + (t + r.value) == c + t + r.value;
    }
  }

  /**
   * Text in which no counter placeholder starts is copied by the counter
   * step; the rest is rewritten as it would be on its own.
   */
  lemma {:induction false} CanonicalizeSkipsPrefix(t: string, rest: string)
    requires NoPlaceholderBefore(t + rest, |t|)
    ensures CanonicalizeCounters(t + rest) == Prefixed(t, CanonicalizeCounters(rest))
    decreases |t|
  {
    var s := t + rest;
    if t == [] {
      assert s == rest;
      var r := CanonicalizeCounters(rest);
      if r.Ok? {
        assert t + r.value == r.value;
      }
    } else {
      assert s[0..] == s;
      assert s[1..] == t[1..] + rest;
      forall j | 0 <= j < |t[1..]|
        ensures MatchCounterPlaceholder((t[1..] + rest)[j..]).None?
      {
        assert (t[1..] + rest)[j..] == s[j + 1..];
      }
      CanonicalizeUnmatched(s);
      CanonicalizeSkipsPrefix(t[1..], rest);
      PrefixedTwice([t[0]], t[1..], CanonicalizeCounters(rest));
      assert [t[0]] + t[1..] == t;
    }
  }

  /** A string without '{' comes through the counter step unchanged. */
  lemma CanonicalizeNoBrace(t: string)
    requires NoBrace(t)
    ensures CanonicalizeCounters(t) == Ok(t)
  {
    PlainTextNoPlaceholder(t, []);
    assert t + [] == t;
    CanonicalizeSkipsPrefix(t, []);
  }

  /** The run of digits in front of a non-digit is exactly those digits. */
  lemma {:induction false} DigitRunOf(d: string, rest: string)
    requires AllDigits(d) && (rest == [] || !IsDigit(rest[0]))
    ensures DigitRun(d + rest) == |d|
    decreases |d|
  {
    if d == [] {
      assert d + rest == rest;
    } else {
      assert (d + rest)[0] == d[0];
      assert (d + rest)[1..] == d[1..] + rest;
      DigitRunOf(d[1..], rest);
    }
  }

  lemma StartsWithCounter(s: string)
    requires |s| >= 8 && s[..8] == "{counter"
    ensures StartsWith(s, "{counter", false)
  {
    forall i | 0 <= i < 8
      ensures CharEquals(s[i], "{counter"[i], false)
    {
      assert s[i] == s[..8][i];
    }
  }

  /** {counter} at the front becomes {counter:3}; the rest is rewritten on its own. */
  lemma CanonicalizeAtBareToken(post: string)
    ensures CanonicalizeCounters("{counter}" + post) == Prefixed("{counter:3}", CanonicalizeCounters(post))
  {
    var s := "{counter}" + post;
    assert s[..8] == "{counter";
    StartsWithCounter(s);
    assert s[8] == '}';
    assert MatchCounterPlaceholder(s) == Some(CounterMatch(9, None));
    assert s[9..] == post;
    assert NatToString(3) == "3";
    assert "{counter:" + NatToString(3) + "}" == "{counter:3}";
  }

  /**
   * {counter:N} at the front keeps its place; N is re-spelled as
   * int.Parse(N).ToString(), or overflows; the rest is rewritten on its own.
   */
  lemma CanonicalizeAtWidthToken(d: string, post: string)
    requires |d| > 0 && AllDigits(d)
    ensures CanonicalizeCounters(WidthToken(d) + post) ==
      if DigitsValue(d) <= Int32MaxValue then Prefixed(WidthToken(NatToString(DigitsValue(d))), CanonicalizeCounters(post))
      else Err(Overflow)
  {
    var s := "{counter:" + d + "}" + post;
    assert WidthToken(d) + post == s;
    MatchWidthToken(d, post);
    assert s[10 + |d|..] == post;
  }

  /** The regular expression matches {counter:N} with N as its group. */
  lemma MatchWidthToken(d: string, post: string)
    requires |d| > 0 && AllDigits(d)
    ensures MatchCounterPlaceholder("{counter:" + d + "}" + post) == Some(CounterMatch(10 + |d|, Some(d)))
  {
    var s := "{counter:" + d + "}" + post;
    assert s[..8] == "{counter";
    StartsWithCounter(s);
    assert s[8] == ':';
    assert s[9..] == d + ("}" + post);
    DigitRunOf(d, "}" + post);
    assert s[9..][..|d|] == d;
    assert s[9 + |d|] == '}';
  }

  /**
   * {counter} becomes {counter:3} in place, wherever it stands after text in
   * which no placeholder starts; the text before it is kept and the text after
   * it is rewritten on its own.
   */
  lemma CanonicalizeBareCounter(pre: string, post: string)
    requires NoPlaceholderBefore(pre + ("{counter}" + post), |pre|)
    ensures CanonicalizeCounters(pre + ("{counter}" + post)) ==
      Prefixed(pre + "{counter:3}", CanonicalizeCounters(post))
    ensures NoBrace(post) ==> CanonicalizeCounters(pre + ("{counter}" + post)) == Ok(pre + "{counter:3}" + post)
  {
    CanonicalizeSkipsPrefix(pre, "{counter}" + post);
    CanonicalizeAtBareToken(post);
    PrefixedTwice(pre, "{counter:3}", CanonicalizeCounters(post));
    if NoBrace(post) {
      CanonicalizeNoBrace(post);
    }
  }

  /** {counter}_{counter}: each copy becomes {counter:3} in its own place. */
  lemma CanonicalizeRepeatedBare(mid: string, post: string)
    requires NoPlaceholderBefore(mid + ("{counter}" + post), |mid|)
    ensures CanonicalizeCounters("{counter}" + (mid + ("{counter}" + post))) ==
      Prefixed("{counter:3}" + (mid + "{counter:3}"), CanonicalizeCounters(post))
  {
    CanonicalizeAtBareToken(mid + ("{counter}" + post));
    CanonicalizeBareCounter(mid, post);
    PrefixedTwice("{counter:3}", mid + "{counter:3}", CanonicalizeCounters(post));
  }

  /** The text of a {counter:N} token with the digits d. */
  function WidthToken(d: string): string
  {
    "{counter:" + d + "}"
  }

  /**
   * {counter:N} keeps its place, wherever it stands after text in which no
   * placeholder starts; N is re-spelled as int.Parse(N).ToString(), or the
   * step overflows. The text before it is kept and the text after it is
   * rewritten on its own.
   */
  lemma CanonicalizeCounterWidth(pre: string, d: string, post: string)
    requires |d| > 0 && AllDigits(d)
    requires NoPlaceholderBefore(pre + (WidthToken(d) + post), |pre|)
    ensures CanonicalizeCounters(pre + (WidthToken(d) + post)) ==
      if DigitsValue(d) <= Int32MaxValue then Prefixed(pre + WidthToken(NatToString(DigitsValue(d))), CanonicalizeCounters(post))
      else Err(Overflow)
    ensures NoBrace(post) ==>
      CanonicalizeCounters(pre + (WidthToken(d) + post)) ==
        (if DigitsValue(d) <= Int32MaxValue then Ok(pre + WidthToken(NatToString(DigitsValue(d))) + post)
         else Err(Overflow))
  {
    CanonicalizeSkipsPrefix(pre, WidthToken(d) + post);
    CanonicalizeAtWidthToken(d, post);
    if DigitsValue(d) <= Int32MaxValue {
      PrefixedTwice(pre, WidthToken(NatToString(DigitsValue(d))), CanonicalizeCounters(post));
    }
    if NoBrace(post) {
      CanonicalizeNoBrace(post);
    }
  }

  /**
   * On Unix no character of a {counter:N} token is invalid in a file name,
   * so the sanitiser keeps the token the counter step will look for.
   */
  lemma WidthTokenSurvivesUnix(d: string)
    requires AllDigits(d)
    ensures RemoveInvalidChars(WidthToken(d), UnixInvalidFileNameChars) == WidthToken(d)
  {
    var t := WidthToken(d);
    forall i | 0 <= i < |t|
      ensures t[i] !in UnixInvalidFileNameChars
    {
      if 9 <= i < 9 + |d| {
        assert t[i] == d[i - 9];
      }
    }
  }

  // ---------------------------------------------------------------------------
  // The sanitiser
  // ---------------------------------------------------------------------------

  /** Sanitising twice gives what sanitising once gives. */
  lemma SanitizeIdempotent(name: string, invalid: set<char>)
    ensures SanitizeForFilename(SanitizeForFilename(name, invalid), invalid) == SanitizeForFilename(name, invalid)
  {
    var once := SanitizeForFilename(name, invalid);
    assert RemoveInvalidChars(once, invalid) == once;
    TrimIdentity(once);
  }

  /** A name made of valid characters with no white space at its ends is kept as it is. */
  lemma SanitizeFixedPoint(name: string, invalid: set<char>)
    requires forall i :: 0 <= i < |name| ==> name[i] !in invalid
    requires name == [] || (!IsWhiteSpace(name[0]) && !IsWhiteSpace(name[|name| - 1]))
    ensures SanitizeForFilename(name, invalid) == name
  {
    TrimIdentity(name);
  }

  /** The filter drops an invalid character between valid text and keeps the rest. */
  lemma RemoveInvalidCharsDrops(a: string, c: char, b: string, invalid: set<char>)
    requires c in invalid
    requires forall i :: 0 <= i < |a| ==> a[i] !in invalid
    requires forall i :: 0 <= i < |b| ==> b[i] !in invalid
    ensures RemoveInvalidChars(a + [c] + b, invalid) == a + b
  {
    RemoveInvalidCharsAppend(a + [c], b, invalid);
    RemoveInvalidCharsAppend(a, [c], invalid);
    RemoveInvalidCharsOne(c, invalid);
  }

  /**
   * The sanitiser drops an invalid character between valid text and trims
   * what is left: "test/filename" becomes "testfilename" on Unix.
   */
  lemma SanitizeDropsInvalid(a: string, c: char, b: string, invalid: set<char>)
    requires c in invalid
    requires forall i :: 0 <= i < |a| ==> a[i] !in invalid
    requires forall i :: 0 <= i < |b| ==> b[i] !in invalid
    ensures SanitizeForFilename(a + [c] + b, invalid) == Trim(a + b)
    ensures a + b == [] || (!IsWhiteSpace((a + b)[0]) && !IsWhiteSpace((a + b)[|a + b| - 1])) ==>
      SanitizeForFilename(a + [c] + b, invalid) == a + b
  {
    RemoveInvalidCharsDrops(a, c, b, invalid);
    var t := a + b;
    if t == [] || (!IsWhiteSpace(t[0]) && !IsWhiteSpace(t[|t| - 1])) {
      TrimIdentity(t);
    }
  }

  /** A text made of valid characters without '{' or white space at its ends is its own expansion. */
  lemma ExpandPlainText(t: string, metadata: Metadata, invalid: set<char>)
    requires NoBrace(t)
    requires forall i :: 0 <= i < |t| ==> t[i] !in invalid
    requires t == [] || (!IsWhiteSpace(t[0]) && !IsWhiteSpace(t[|t| - 1]))
    ensures ExpandPattern(t, metadata, invalid) == Ok(t)
  {
    CanonicalizeNoBrace(t);
    SanitizeFixedPoint(t, invalid);
  }

  /** Replace of a whole string by itself gives the new value. */
  lemma ReplaceWhole(x: string, newValue: string, ignoreCase: bool)
    requires |x| > 0
    ensures Replace(x, x, newValue, ignoreCase) == newValue
  {
    assert StartsWith(x, x, ignoreCase);
    assert x[|x|..] == [];
    assert newValue + [] == newValue;
  }

  /**
   * The metadata loop searches the text a value inserted: when the value of
   * an earlier key spells a later key's placeholder, that placeholder is
   * filled too. A file named "{year}" under the pattern "{filename}" gets the year.
   */
  lemma ValueRescanned(k1: string, k2: string, v: string)
    ensures SubstituteMetadata(Braced(k1), [(k1, Braced(k2)), (k2, v)]) == v
  {
    var metadata := [(k1, Braced(k2)), (k2, v)];
    ReplaceWhole(Braced(k1), Braced(k2), true);
    assert SubstituteMetadata(Braced(k1), metadata) == SubstituteMetadata(Braced(k2), metadata[1..]);
    ReplaceWhole(Braced(k2), v, true);
    assert SubstituteMetadata(Braced(k2), metadata[1..]) == SubstituteMetadata(v, metadata[2..]);
    assert metadata[2..] == [];
  }

  // ---------------------------------------------------------------------------
  // The counter step of GeneratePreview
  // ---------------------------------------------------------------------------

  /** Text without '{' holds no counter token. */
  lemma {:induction false} FirstCounterTokenSkipsPrefix(t: string, rest: string)
    requires NoBrace(t)
    ensures FirstCounterToken(t + rest) == FirstCounterToken(rest)
    decreases |t|
  {
    if t == [] {
      assert t + rest == rest;
    } else {
      var s := t + rest;
      assert s[0] == t[0];
      NoMatchWithoutBrace(s);
      assert s[1..] == t[1..] + rest;
      FirstCounterTokenSkipsPrefix(t[1..], rest);
    }
  }

  /** Replace leaves a prefix alone when no occurrence of oldValue starts inside it. */
  lemma {:induction false} ReplaceSkipsUnmatched(pre: string, rest: string, oldValue: string, newValue: string,
                                                 ignoreCase: bool)
    requires |oldValue| > 0
    requires forall j :: 0 <= j < |pre| ==> !StartsWith((pre + rest)[j..], oldValue, ignoreCase)
    ensures Replace(pre + rest, oldValue, newValue, ignoreCase) == pre + Replace(rest, oldValue, newValue, ignoreCase)
    decreases |pre|
  {
    if pre == [] {
      assert pre + rest == rest;
    } else {
      var s := pre + rest;
      assert s[0..] == s;
      assert s[0] == pre[0];
      assert s[1..] == pre[1..] + rest;
      forall j | 0 <= j < |pre[1..]|
        ensures !StartsWith((pre[1..] + rest)[j..], oldValue, ignoreCase)
      {
        assert (pre[1..] + rest)[j..] == s[j + 1..];
      }
      ReplaceSkipsUnmatched(pre[1..], rest, oldValue, newValue, ignoreCase);
      assert pre == [pre[0]] + pre[1..];
    }
  }

  /** Every occurrence of a {counter:N} token is a match of the regular expression, with N as its group. */
  lemma TokenOccurrence(u: string, d: string)
    requires |d| > 0 && AllDigits(d)
    ensures StartsWith(u, WidthToken(d), false) ==> MatchCounterPlaceholder(u) == Some(CounterMatch(10 + |d|, Some(d)))
  {
    var token := WidthToken(d);
    if StartsWith(u, token, false) {
      assert u[..|token|] == token by {
        forall i | 0 <= i < |token|
          ensures u[..|token|][i] == token[i]
        {
          assert CharEquals(u[i], token[i], false);
        }
      }
      assert u == token + u[|token|..];
      MatchWidthToken(d, u[|token|..]);
    }
  }

  /** An ordinal Replace of a token at the front puts the new value there and goes on after the token. */
  lemma ReplaceAtToken(d: string, rest: string, newValue: string)
    ensures Replace(WidthToken(d) + rest, WidthToken(d), newValue, false) ==
      newValue + Replace(rest, WidthToken(d), newValue, false)
  {
    var token := WidthToken(d);
    assert StartsWith(token + rest, token, false) by {
      forall i | 0 <= i < |token|
        ensures CharEquals((token + rest)[i], token[i], false)
      {
      }
    }
    assert (token + rest)[|token|..] == rest;
  }

  /** Where no token starts, no copy of the token with the digits d starts either. */
  lemma NoTokenNoOccurrence(s: string, n: nat, d: string)
    requires n <= |s| && |d| > 0 && AllDigits(d)
    requires forall j :: 0 <= j < n ==> !TokenAt(s, j)
    ensures forall j :: 0 <= j < n ==> !StartsWith(s[j..], WidthToken(d), false)
  {
    forall j | 0 <= j < n
      ensures !StartsWith(s[j..], WidthToken(d), false)
    {
      assert !TokenAt(s, j);
      TokenOccurrence(s[j..], d);
    }
  }

  /** The leftmost token, when it starts at n and has the digits d, is the token found. */
  lemma TokenFoundAt(s: string, n: nat, d: string)
    requires n < |s| && TokenAt(s, n) && TokenDigits(s, n) == d
    requires forall j :: 0 <= j < n ==> !TokenAt(s, j)
    ensures FirstCounterToken(s) == Some(CounterToken(WidthToken(d), d))
  {
    FirstCounterTokenLeftmost(s);
    var i :| 0 <= i < |s| && TokenAt(s, i) && TokenDigits(s, i) == FirstCounterToken(s).value.digits
      && forall j :: 0 <= j < i ==> !TokenAt(s, j);
    assert i == n;
  }

  lemma Regroup3(a: string, b: string, c: string)
    ensures a + b + c == a + (b + c)
  {
  }

  /**
   * When no {counter:N} token starts before the token with the digits d, that
   * token is the one found, and every occurrence of it, there and later, is
   * replaced by the counter zero-padded to N digits. Other placeholders the
   * metadata left in place do not matter.
   */
  lemma CounterFills(pre: string, d: string, rest: string, counter: nat)
    requires |d| > 0 && AllDigits(d) && DigitsValue(d) <= Int32MaxValue
    requires forall j :: 0 <= j < |pre| ==> !TokenAt(pre + WidthToken(d) + rest, j)
    ensures FirstCounterToken(pre + WidthToken(d) + rest) == Some(CounterToken(WidthToken(d), d))
    ensures ApplyCounter(pre + WidthToken(d) + rest, counter) ==
      Ok(pre + PadLeft(counter, DigitsValue(d)) + Replace(rest, WidthToken(d), PadLeft(counter, DigitsValue(d)), false))
    ensures NoBrace(rest) ==>
      ApplyCounter(pre + WidthToken(d) + rest, counter) == Ok(pre + PadLeft(counter, DigitsValue(d)) + rest)
  {
    var token := WidthToken(d);
    var s := pre + token + rest;
    var padded := PadLeft(counter, DigitsValue(d));
    Regroup3(pre, token, rest);
    assert s[|pre|..] == token + rest;
    MatchWidthToken(d, rest);
    TokenFoundAt(s, |pre|, d);
    NoTokenNoOccurrence(s, |pre|, d);
    ReplaceSkipsUnmatched(pre, token + rest, token, padded, false);
    ReplaceAtToken(d, rest, padded);
    var tail := Replace(rest, token, padded, false);
    Regroup3(pre, padded, tail);
    if NoBrace(rest) {
      ReplaceNoBrace(rest, token, padded, false);
    }
  }

  /** No counter token starts inside text without '{'. */
  lemma NoTokenInPlainText(pre: string, rest: string)
    requires NoBrace(pre)
    ensures forall j :: 0 <= j < |pre| ==> !TokenAt(pre + rest, j)
  {
    forall j | 0 <= j < |pre|
      ensures !TokenAt(pre + rest, j)
    {
      assert (pre + rest)[j..][0] == pre[j];
      NoMatchWithoutBrace((pre + rest)[j..]);
    }
  }

  lemma Regroup5(a: string, t: string, m: string, u: string, p: string)
    ensures a + t + m + u + p == a + t + (m + (u + p))
  {
  }

  /** Both copies of a repeated {counter:N} token get the same number. */
  lemma CounterFillsEvery(pre: string, d: string, mid: string, post: string, counter: nat)
    requires NoBrace(pre) && NoBrace(mid) && NoBrace(post)
    requires |d| > 0 && AllDigits(d) && DigitsValue(d) <= Int32MaxValue
    ensures ApplyCounter(pre + WidthToken(d) + mid + WidthToken(d) + post, counter) ==
      Ok(pre + PadLeft(counter, DigitsValue(d)) + mid + PadLeft(counter, DigitsValue(d)) + post)
  {
    var token := WidthToken(d);
    var padded := PadLeft(counter, DigitsValue(d));
    var rest := mid + (token + post);
    Regroup5(pre, token, mid, token, post);
    NoTokenInPlainText(pre, token + rest);
    Regroup3(pre, token, rest);
    CounterFills(pre, d, rest, counter);
    ReplaceSkipsPrefix(mid, token + post, token, padded, false);
    ReplaceAtToken(d, post, padded);
    ReplaceNoBrace(post, token, padded, false);
    Regroup5(pre, padded, mid, padded, post);
  }

  /** A name without any {counter:N} token is left alone and does not use the counter. */
  lemma CounterAbsent(name: string, counter: nat)
    requires NoBrace(name)
    ensures FirstCounterToken(name) == None
    ensures ApplyCounter(name, counter) == Ok(name)
  {
    FirstCounterTokenSkipsPrefix(name, []);
    assert name + [] == name;
  }
}
