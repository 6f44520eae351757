/**
  The race-results ingestion script: `parseInterval`, which normalises the
  gap columns of the official results sheet, and the row mapping that turns
  the sheet's rows into `race_results` records for race 1 or race 2.
 */
module RaceResultsUpload {
  import opened Wrappers
  import opened JsNumber
  import opened JsText

  // ---------------------------------------------------------------------
  // parseInterval

  /** The two groups of a match of /(\d+)'(\d+\.\d+)/: the minutes digits,
      and the seconds as whole digits and fraction digits. */
  datatype GapMatch = GapMatch(minutes: string, whole: string, frac: string)

  /** The match of /(\d+)'(\d+\.\d+)/ at the start of t, if any. Each
      `\d+` is greedy and the character after it is never a digit, so each
      group is the longest run of digits at its place. */
  function MatchPrefix(t: string): (r: Option<GapMatch>)
    ensures r.Some? ==>
      && AllDigits(r.value.minutes) && AllDigits(r.value.whole) && AllDigits(r.value.frac)
      && r.value.minutes != [] && r.value.whole != [] && r.value.frac != []
  {
    var a := LeadingDigits(t);
    var rest := t[|a|..];
    if a == [] || rest == [] || rest[0] != '\'' then None
    else
      match SecondsPrefix(rest[1..])
      case Some(sec) => Some(GapMatch(a, sec.0, sec.1))
      case None => None
  }

  /** The seconds part /\d+\.\d+/ at the start of u: whole and fraction
      digits. */
  function SecondsPrefix(u: string): (r: Option<(string, string)>)
    ensures r.Some? ==> AllDigits(r.value.0) && AllDigits(r.value.1) && r.value.0 != [] && r.value.1 != []
  {
    var b := LeadingDigits(u);
    var rest := u[|b|..];
    if b == [] || rest == [] || rest[0] != '.' then None
    else
      var c := LeadingDigits(rest[1..]);
      if c == [] then None else Some((b, c))
  }

  /** `whole.frac` followed by text that does not continue the fraction. */
  lemma SecondsPrefixOf(b: string, c: string, post: string)
    requires AllDigits(b) && AllDigits(c) && b != [] && c != []
    requires post == [] || !IsDigit(post[0])
    ensures SecondsPrefix(b + "." + c + post) == Some((b, c))
  {
    var u := b + "." + c + post;
    assert u == b + ("." + c + post);
    LeadingDigitsOf(b, "." + c + post);
    assert u[|b|..] == "." + c + post;
    assert u[|b|..][1..] == c + post;
    LeadingDigitsOf(c, post);
  }

  lemma SecondsPrefixText(u: string)
    requires SecondsPrefix(u).Some?
    ensures var (b, c) := SecondsPrefix(u).value;
      IsPrefix(b + "." + c, u)
  {
    var (b, c) := SecondsPrefix(u).value;
    var rest := u[|b|..];
    assert u == b + rest;
    assert rest[1..][..|c|] == c;
    assert u[..|b + "." + c|] == b + "." + c;
  }

  /** A match is the text `minutes'whole.frac` at the start of t. */
  lemma MatchPrefixText(t: string)
    requires MatchPrefix(t).Some?
    ensures var m := MatchPrefix(t).value;
      IsPrefix(m.minutes + "'" + m.whole + "." + m.frac, t)
  {
    var a := LeadingDigits(t);
    var rest := t[|a|..];
    var u := rest[1..];
    var sec := SecondsPrefix(u).value;
    var m := MatchPrefix(t).value;
    assert m == GapMatch(a, sec.0, sec.1);
    assert t == (a + "'") + u by {
      assert rest == "'" + u;
    }
    SecondsPrefixText(u);
    PrefixAfter(a + "'", sec.0 + "." + sec.1, u);
    assert (a + "'") + (sec.0 + "." + sec.1) == a + "'" + sec.0 + "." + sec.1;
  }

  lemma PrefixAfter(a: string, x: string, u: string)
    requires IsPrefix(x, u)
    ensures IsPrefix(a + x, a + u)
  {
    assert (a + u)[..|a + x|] == a + u[..|x|];
  }

  /** The match starting at index p. */
  function MatchAt(s: string, p: nat): Option<GapMatch>
    requires p <= |s|
  {
    MatchPrefix(s[p..])
  }

  /** The first index in [p, n) at which f gives a value, and that value. */
  function FirstSome<T>(f: int -> Option<T>, p: int, n: int): Option<T>
    decreases n - p
  {
    if p >= n then None
    else if f(p).Some? then f(p)
    else FirstSome(f, p + 1, n)
  }

  /** The search finds a value exactly when f gives one somewhere in [p, n),
      and then it is the value at the first such index. */
  lemma {:induction false} FirstSomeLeftmost<T>(f: int -> Option<T>, p: int, n: int)
    ensures FirstSome(f, p, n).Some? <==> exists j :: p <= j < n && f(j).Some?
    ensures FirstSome(f, p, n).Some? ==> exists j :: (
      && p <= j < n && f(j) == FirstSome(f, p, n)
      && forall i :: p <= i < j ==> f(i).None?)
    decreases n - p
  {
    if p < n && f(p).None? {
      FirstSomeLeftmost(f, p + 1, n);
    }
  }

  /** Indices at which f gives nothing are passed over. */
  lemma {:induction false} FirstSomeSkip<T>(f: int -> Option<T>, p: int, q: int, n: int)
    requires p <= q <= n
    requires forall i :: p <= i < q ==> f(i).None?
    ensures FirstSome(f, p, n) == FirstSome(f, q, n)
    decreases q - p
  {
    if p < q {
      FirstSomeSkip(f, p + 1, q, n);
    }
  }

  /** The match starting at each index of s. */
  function Matches(s: string): int -> Option<GapMatch> {
    j => if 0 <= j <= |s| then MatchAt(s, j) else None
  }

  /** `value.match(re)` without the g flag: the leftmost match at or after p. */
  function FirstMatch(s: string, p: nat): Option<GapMatch>
    requires p <= |s|
  {
    FirstSome(Matches(s), p, |s|)
  }

  /** The rewritten gap: `00:` + minutes padded to two digits + `:` +
      seconds to three decimals padded to six characters. */
  function GapText(m: GapMatch): string {
    var minutes := ParseInt(m.minutes);
    var seconds := ParseFloat(m.whole + "." + m.frac);
    "00:" + PadStart(IntNumToString(minutes), 2, '0') + ":" + PadStart(NumToFixed3(seconds), 6, '0')
  }

  /** `parseInterval(value)`: null, empty and "-" give null, so does any
      value mentioning "lap" in any letter case; a value holding
      `minutes'seconds.fraction` anywhere is rewritten; any other value is
      kept. */
  function ParseInterval(value: Option<string>): Option<string> {
    if value.None? || value.value == "" || value.value == "-" then None
    else if Contains(ToLower(value.value), "lap") then None
    else
      match FirstMatch(value.value, 0)
      case Some(m) => Some(GapText(m))
      case None => value
  }

  /** FirstMatch returns the match at the first index where one starts. */
  lemma FirstMatchLeftmost(s: string, p: nat)
    requires p <= |s|
    ensures FirstMatch(s, p).Some? <==> exists j :: p <= j < |s| && MatchAt(s, j).Some?
    ensures FirstMatch(s, p).Some? ==> exists j :: (
      && p <= j < |s| && MatchAt(s, j) == FirstMatch(s, p)
      && forall i :: p <= i < j ==> MatchAt(s, i).None?)
  {
    FirstSomeLeftmost(Matches(s), p, |s|);
    assert forall j :: 0 <= j <= |s| ==> Matches(s)(j) == MatchAt(s, j);
  }

  /** No match starts without an apostrophe after its minutes. */
  lemma NoApostropheNoMatchAt(t: string)
    requires forall i :: 0 <= i < |t| ==> t[i] != '\''
    ensures MatchPrefix(t).None?
  {
    var a := LeadingDigits(t);
    var rest := t[|a|..];
    if rest != [] {
      assert rest[0] == t[|a|];
    }
  }

  /** A text without an apostrophe has no match. */
  lemma NoApostropheNoMatch(s: string)
    requires forall i :: 0 <= i < |s| ==> s[i] != '\''
    ensures FirstMatch(s, 0).None?
  {
    forall j | 0 <= j < |s|
      ensures MatchAt(s, j).None?
    {
      NoApostropheNoMatchAt(s[j..]);
    }
    FirstMatchLeftmost(s, 0);
  }

  /** Characters of a rewritten gap: digits, colons and decimal points. */
  predicate GapChars(s: string) {
    forall i :: 0 <= i < |s| ==> IsDigit(s[i]) || s[i] == ':' || s[i] == '.'
  }

  lemma GapCharsConcat(a: string, b: string)
    requires GapChars(a) && GapChars(b)
    ensures GapChars(a + b)
  {
  }

  lemma GapCharsPad(s: string, width: nat)
    requires GapChars(s)
    ensures GapChars(PadStart(s, width, '0'))
  {
  }

  lemma DigitsGapChars(s: string)
    requires AllDigits(s)
    ensures GapChars(s)
  {
  }

  lemma MillisTextChars(n: nat)
    ensures GapChars(MillisText(n))
  {
    var w, f := NatToString(n / 1000), NatToString(n % 1000);
    DigitsGapChars(w);
    DigitsGapChars(f);
    GapCharsConcat(w, ".");
    GapCharsPad(f, 3);
    GapCharsConcat(w + ".", PadStart(f, 3, '0'));
  }

  /** The layout of a rewritten gap from its minutes and seconds texts. */
  lemma GapLayoutChars(mm: string, ss: string)
    requires GapChars(mm) && GapChars(ss)
    ensures var t := "00:" + PadStart(mm, 2, '0') + ":" + PadStart(ss, 6, '0');
      GapChars(t) && |t| >= 3 && t[..3] == "00:"
  {
    GapCharsPad(mm, 2);
    GapCharsPad(ss, 6);
    GapCharsConcat("00:", PadStart(mm, 2, '0'));
    GapCharsConcat("00:" + PadStart(mm, 2, '0'), ":");
    GapCharsConcat("00:" + PadStart(mm, 2, '0') + ":", PadStart(ss, 6, '0'));
  }

  /** The minutes and seconds of a match are written with digits, a decimal
      point and colons only. */
  lemma GapTextChars(m: GapMatch)
    requires AllDigits(m.minutes) && AllDigits(m.whole) && AllDigits(m.frac)
    requires m.minutes != [] && m.whole != []
    ensures GapChars(GapText(m))
    ensures |GapText(m)| >= 3 && GapText(m)[..3] == "00:"
  {
    ParseIntNumeral(m.minutes);
    ParseFloatDecimal(m.whole, m.frac);
    var mm := NatToString(DigitsValue(m.minutes));
    var ss := MillisText(RoundMillis(DecimalValue(m.whole, m.frac)));
    assert IntNumToString(ParseInt(m.minutes)) == mm;
    assert NumToFixed3(ParseFloat(m.whole + "." + m.frac)) == ss;
    DigitsGapChars(mm);
    MillisTextChars(RoundMillis(DecimalValue(m.whole, m.frac)));
    GapLayoutChars(mm, ss);
  }

  /** A rewritten gap passes through `parseInterval` unchanged. */
  lemma GapTextStable(m: GapMatch)
    requires AllDigits(m.minutes) && AllDigits(m.whole) && AllDigits(m.frac)
    requires m.minutes != [] && m.whole != []
    ensures ParseInterval(Some(GapText(m))) == Some(GapText(m))
  {
    var t := GapText(m);
    GapTextChars(m);
    assert t != "" && t != "-" by {
      assert t[0] == '0';
    }
    var lower := ToLower(t);
    assert forall i :: 0 <= i < |lower| ==> lower[i] != "lap"[0];
    ContainsNeedsChar(lower, "lap", 0);
    NoApostropheNoMatch(t);
  }

  /** `parseInterval` is idempotent: its rewritten outputs carry no
      apostrophe, no "lap", and are neither empty nor "-". */
  lemma ParseIntervalIdempotent(value: Option<string>)
    ensures ParseInterval(ParseInterval(value)) == ParseInterval(value)
  {
    if value.Some? && value.value != "" && value.value != "-" && !Contains(ToLower(value.value), "lap") {
      var m := FirstMatch(value.value, 0);
      if m.Some? {
        FirstMatchLeftmost(value.value, 0);
        GapTextStable(m.value);
      }
    }
  }

  /** `parseInterval` gives null exactly for null, "", "-" and values
      mentioning "lap"; otherwise it rewrites the first match or keeps the
      value. */
  lemma ParseIntervalSpec(value: Option<string>)
    ensures ParseInterval(value).None? <==>
      value.None? || value.value == "" || value.value == "-" || Contains(ToLower(value.value), "lap")
    ensures ParseInterval(value).Some? && FirstMatch(value.value, 0).None? ==> ParseInterval(value) == value
    ensures ParseInterval(value).Some? && FirstMatch(value.value, 0).Some? ==>
      var t := ParseInterval(value).value;
      GapChars(t) && |t| >= 3 && t[..3] == "00:"
  {
    if value.Some? && FirstMatch(value.value, 0).Some? {
      FirstMatchLeftmost(value.value, 0);
      var m := FirstMatch(value.value, 0).value;
      if ParseInterval(value).Some? {
        GapTextChars(m);
      }
    }
  }

  lemma GapTextFrom(m: GapMatch, minutes: Num, seconds: Num)
    requires minutes == ParseInt(m.minutes) && seconds == ParseFloat(m.whole + "." + m.frac)
    ensures GapText(m) == "00:" + PadStart(IntNumToString(minutes), 2, '0') + ":" + PadStart(NumToFixed3(seconds), 6, '0')
  {
  }

  lemma IntNumOfNat(k: nat)
    ensures IntNumToString(Fin(k as real)) == NatToString(k)
  {
  }

  /** A gap written `minutes'whole.fff` with three decimals is rewritten
      keeping its digits: the minutes (without leading zeros) padded to two
      digits, and the seconds (without leading zeros) padded to six
      characters. */
  lemma GapTextThreeDecimals(a: string, b: string, c: string)
    requires AllDigits(a) && AllDigits(b) && AllDigits(c)
    requires a != [] && b != [] && |c| == 3
    ensures GapText(GapMatch(a, b, c)) ==
      "00:" + PadStart(NatToString(DigitsValue(a)), 2, '0') + ":"
      + PadStart(NatToString(DigitsValue(b)) + "." + c, 6, '0')
  {
    ParseIntNumeral(a);
    ParseFloatDecimal(b, c);
    GapTextFrom(GapMatch(a, b, c), Fin(DigitsValue(a) as real), Fin(DecimalValue(b, c)));
    IntNumOfNat(DigitsValue(a));
    ToFixed3Decimal(b, c);
  }

  /** A text that starts with `minutes'whole.frac`, followed by anything
      that does not continue the last digit run, matches at its start. */
  lemma MatchGapPrefix(a: string, b: string, c: string, post: string)
    requires AllDigits(a) && AllDigits(b) && AllDigits(c)
    requires a != [] && b != [] && c != []
    requires post == [] || !IsDigit(post[0])
    ensures MatchPrefix(a + "'" + b + "." + c + post) == Some(GapMatch(a, b, c))
  {
    var u := b + "." + c + post;
    var t := a + "'" + b + "." + c + post;
    assert t == a + ("'" + u);
    LeadingDigitsOf(a, "'" + u);
    assert t[|a|..] == "'" + u;
    assert t[|a|..][1..] == u;
    SecondsPrefixOf(b, c, post);
  }

  /** A value that is exactly `minutes'whole.frac` matches from its first
      character, with the three digit runs as groups. */
  lemma MatchWhole(a: string, b: string, c: string)
    requires AllDigits(a) && AllDigits(b) && AllDigits(c)
    requires a != [] && b != [] && c != []
    ensures FirstMatch(a + "'" + b + "." + c, 0) == Some(GapMatch(a, b, c))
  {
    var s := a + "'" + b + "." + c;
    MatchGapPrefix(a, b, c, []);
    assert s[0..] == s + [];
  }

  /** A value that is neither empty nor "-", does not mention "lap" and
      matches is rewritten from its first match. */
  lemma ParseIntervalOfMatch(v: string, m: GapMatch)
    requires v != "" && v != "-" && !Contains(ToLower(v), "lap")
    requires FirstMatch(v, 0) == Some(m)
    ensures ParseInterval(Some(v)) == Some(GapText(m))
  {
  }

  /** A text of digits, apostrophes and points does not mention "lap". */
  lemma NoLap(s: string)
    requires forall i :: 0 <= i < |s| ==> s[i] == '\'' || IsDigit(s[i]) || s[i] == '.'
    ensures !Contains(ToLower(s), "lap")
  {
    assert forall i :: 0 <= i < |ToLower(s)| ==> ToLower(s)[i] != "lap"[0];
    ContainsNeedsChar(ToLower(s), "lap", 0);
  }

  /** A fraction of fewer than three digits reads as if padded with zeros
      to three. */
  lemma GapTextShortFraction(a: string, b: string, c: string)
    requires AllDigits(a) && AllDigits(b) && AllDigits(c)
    requires a != [] && b != [] && |c| <= 3
    ensures AllDigits(c + Repeat('0', 3 - |c|))
    ensures GapText(GapMatch(a, b, c)) == GapText(GapMatch(a, b, c + Repeat('0', 3 - |c|)))
  {
    var c3 := c + Repeat('0', 3 - |c|);
    DecimalTrailingZeros(b, c, c3);
    ParseFloatSameDecimal(b, c, c3);
    SameSeconds(GapMatch(a, b, c), GapMatch(a, b, c3));
  }

  lemma SameSeconds(m1: GapMatch, m2: GapMatch)
    requires m1.minutes == m2.minutes
    requires ParseFloat(m1.whole + "." + m1.frac) == ParseFloat(m2.whole + "." + m2.frac)
    ensures GapText(m1) == GapText(m2)
  {
  }

  /** A value that is exactly `minutes'whole.frac`, with canonical minutes
      and whole seconds and at most three decimals, is rewritten to
      `00:` + minutes padded to two digits + `:` + the seconds with their
      decimals completed to three, padded to six characters. */
  lemma GapExample(a: string, b: string, c: string, expected: string)
    requires AllDigits(a) && AllDigits(b) && AllDigits(c)
    requires a != [] && b != [] && c != [] && |c| <= 3
    requires Canonical(a) && Canonical(b)
    requires expected == "00:" + PadStart(a, 2, '0') + ":" + PadStart(b + "." + (c + Repeat('0', 3 - |c|)), 6, '0')
    ensures ParseInterval(Some(a + "'" + b + "." + c)) == Some(expected)
  {
    var m := GapMatch(a, b, c);
    var c3 := c + Repeat('0', 3 - |c|);
    CanonicalRoundTrip(a);
    CanonicalRoundTrip(b);
    GapTextShortFraction(a, b, c);
    GapTextThreeDecimals(a, b, c3);
    assert GapText(m) == expected;
    GapShape(a, b, c);
    MatchWhole(a, b, c);
    ParseIntervalOfMatch(a + "'" + b + "." + c, m);
  }

  /** The gap "1'23.456" becomes "00:01:23.456". */
  lemma ParseIntervalExample(v: string, r: string)
    requires v == "1'23.456" && r == "00:01:23.456"
    ensures ParseInterval(Some(v)) == Some(r)
  {
    ExampleSplit(v);
    ExampleRewrite(v, r);
  }

  lemma ExampleSplit(v: string)
    requires v == "1'23.456"
    ensures v == "1" + "'" + "23" + "." + "456"
  {
  }

  lemma ExampleRewrite(v: string, r: string)
    requires v == "1" + "'" + "23" + "." + "456" && r == "00:01:23.456"
    ensures ParseInterval(Some(v)) == Some(r)
  {
    ExampleDigits();
    GapExample("1", "23", "456", r);
  }

  lemma ExampleDigits()
    ensures AllDigits("1") && AllDigits("23") && AllDigits("456")
    ensures Canonical("1") && Canonical("23")
    ensures "00:01:23.456" == "00:" + PadStart("1", 2, '0') + ":" + PadStart("23" + "." + ("456" + Repeat('0', 0)), 6, '0')
  {
    assert PadStart("1", 2, '0') == "01";
    assert Repeat('0', 0) == [];
  }

  /** The gap "1'5.2" becomes "00:01:05.200": the seconds get three decimals
      and a leading zero. */
  lemma ParseIntervalShortExample(v: string, r: string)
    requires v == "1'5.2" && r == "00:01:05.200"
    ensures ParseInterval(Some(v)) == Some(r)
  {
    ShortExampleSplit(v);
    ShortExampleRewrite(v, r);
  }

  lemma ShortExampleSplit(v: string)
    requires v == "1'5.2"
    ensures v == "1" + "'" + "5" + "." + "2"
  {
  }

  lemma ShortExampleRewrite(v: string, r: string)
    requires v == "1" + "'" + "5" + "." + "2" && r == "00:01:05.200"
    ensures ParseInterval(Some(v)) == Some(r)
  {
    ShortExampleDigits();
    GapExample("1", "5", "2", r);
  }

  lemma ShortExampleDigits()
    ensures AllDigits("1") && AllDigits("5") && AllDigits("2")
    ensures Canonical("1") && Canonical("5")
    ensures "00:01:05.200" == "00:" + PadStart("1", 2, '0') + ":" + PadStart("5" + "." + ("2" + Repeat('0', 2)), 6, '0')
  {
    assert PadStart("1", 2, '0') == "01";
    assert Repeat('0', 2) == "00";
    assert PadStart("5.200", 6, '0') == "05.200";
  }

  /** The pattern is not anchored: text without digits before a gap, and
      text after it that does not continue its last digit run, are
      discarded, and the gap alone is matched. */
  lemma SurroundingTextDiscarded(pre: string, a: string, b: string, c: string, post: string)
    requires AllDigits(a) && AllDigits(b) && AllDigits(c)
    requires a != [] && b != [] && c != []
    requires forall i :: 0 <= i < |pre| ==> !IsDigit(pre[i])
    requires post == [] || !IsDigit(post[0])
    ensures FirstMatch(pre + (a + "'" + b + "." + c) + post, 0) == Some(GapMatch(a, b, c))
  {
    var s := pre + (a + "'" + b + "." + c) + post;
    FoundAfter(s, pre, a, b, c, post);
    assert s[..|pre|] == pre;
    SkipNonDigits(s, pre);
  }

  /** The search from the start of the gap finds it. */
  lemma FoundAfter(s: string, pre: string, a: string, b: string, c: string, post: string)
    requires AllDigits(a) && AllDigits(b) && AllDigits(c)
    requires a != [] && b != [] && c != []
    requires post == [] || !IsDigit(post[0])
    requires s == pre + (a + "'" + b + "." + c) + post
    ensures |pre| < |s| && FirstMatch(s, |pre|) == Some(GapMatch(a, b, c))
  {
    MatchAfter(pre, a, b, c, post);
    FoundAt(s, |pre|);
  }

  /** A search starting where a match starts finds it. */
  lemma FoundAt(s: string, p: nat)
    requires p < |s| && MatchAt(s, p).Some?
    ensures FirstMatch(s, p) == MatchAt(s, p)
  {
    assert Matches(s)(p) == MatchAt(s, p);
  }

  /** No match starts at a character that is not a digit. */
  lemma NonDigitNoMatchAt(t: string)
    requires t != [] && !IsDigit(t[0])
    ensures MatchPrefix(t).None?
  {
  }

  /** The search passes over a prefix without digits. */
  lemma SkipNonDigits(s: string, pre: string)
    requires |pre| <= |s| && s[..|pre|] == pre
    requires forall i :: 0 <= i < |pre| ==> !IsDigit(pre[i])
    ensures FirstMatch(s, 0) == FirstMatch(s, |pre|)
  {
    forall i | 0 <= i < |pre|
      ensures Matches(s)(i).None?
    {
      assert s[i..][0] == pre[i];
      NonDigitNoMatchAt(s[i..]);
    }
    FirstSomeSkip(Matches(s), 0, |pre|, |s|);
  }

  /** The gap matches where it starts, whatever follows it when that does
      not continue its last digit run. */
  lemma MatchAfter(pre: string, a: string, b: string, c: string, post: string)
    requires AllDigits(a) && AllDigits(b) && AllDigits(c)
    requires a != [] && b != [] && c != []
    requires post == [] || !IsDigit(post[0])
    ensures var s := pre + (a + "'" + b + "." + c) + post;
      |pre| < |s| && MatchAt(s, |pre|) == Some(GapMatch(a, b, c))
  {
    var s := pre + (a + "'" + b + "." + c) + post;
    assert s[|pre|..] == a + "'" + b + "." + c + post;
    MatchGapPrefix(a, b, c, post);
  }

  /** `minutes'whole.frac` is neither empty nor "-" and does not mention
      "lap". */
  lemma GapShape(a: string, b: string, c: string)
    requires AllDigits(a) && AllDigits(b) && AllDigits(c) && a != []
    ensures var s := a + "'" + b + "." + c;
      s != "" && s != "-" && !Contains(ToLower(s), "lap")
  {
    var s := a + "'" + b + "." + c;
    assert IsDigit(s[0]);
    NoLap(s);
  }

  // ---------------------------------------------------------------------
  // Mapping the results sheet

  /** The command-line argument choosing the sheet. */
  datatype RaceNumber = RaceOne | RaceTwo

  /** Only "1" and "2" are accepted; anything else ends the script. */
  function RaceNumberArg(arg: Option<string>): (n: Option<RaceNumber>)
    ensures n == Some(RaceOne) <==> arg == Some("1")
    ensures n == Some(RaceTwo) <==> arg == Some("2")
  {
    if arg == Some("1") then Some(RaceOne)
    else if arg == Some("2") then Some(RaceTwo)
    else None
  }

  function RaceName(n: RaceNumber): string {
    match n
    case RaceOne => "Race 1"
    case RaceTwo => "Race 2"
  }

  /** A row of the `races` table as selected: id and name. */
  datatype RaceRow = RaceRow(id: string, name: string)

  /** A row of the `drivers` table as selected: id and car number. */
  datatype DriverRow = DriverRow(id: string, number: Option<int>)

  /** `races.find(r => r.name.includes(name))`. */
  function FindRace(races: seq<RaceRow>, name: string): (r: Option<RaceRow>)
    ensures r.None? <==> forall i :: 0 <= i < |races| ==> !Contains(races[i].name, name)
    ensures r.Some? ==> exists i :: (
      && 0 <= i < |races| && races[i] == r.value && Contains(r.value.name, name)
      && forall j :: 0 <= j < i ==> !Contains(races[j].name, name))
  {
    if races == [] then None
    else if Contains(races[0].name, name) then Some(races[0])
    else
      var r := FindRace(races[1..], name);
      assert forall i :: 1 <= i < |races| ==> races[i] == races[1..][i - 1];
      r
  }

  /** `d.number === n`: strict equality, so a missing number or NaN never
      matches. */
  predicate NumberIs(d: DriverRow, n: Num) {
    d.number.Some? && n == Fin(d.number.value as real)
  }

  /** `drivers.find(d => d.number === n)`. */
  function FindDriver(drivers: seq<DriverRow>, n: Num): (d: Option<DriverRow>)
    ensures d.None? <==> forall i :: 0 <= i < |drivers| ==> !NumberIs(drivers[i], n)
    ensures d.Some? ==> exists i :: (
      && 0 <= i < |drivers| && drivers[i] == d.value && NumberIs(d.value, n)
      && forall j :: 0 <= j < i ==> !NumberIs(drivers[j], n))
  {
    if drivers == [] then None
    else if NumberIs(drivers[0], n) then Some(drivers[0])
    else
      var d := FindDriver(drivers[1..], n);
      assert forall i :: 1 <= i < |drivers| ==> drivers[i] == drivers[1..][i - 1];
      d
  }

  /** A record of the `race_results` table. */
  datatype RaceResult = RaceResult(
    raceId: string,
    driverId: string,
    classType: Option<string>,
    position: Num,
    positionInClass: Option<Num>,
    vehicle: Option<string>,
    laps: Num,
    elapsedTime: Option<string>,
    gapToFirst: Option<string>,
    gapToPrevious: Option<string>,
    bestLapNumber: Num,
    bestLapTime: Option<string>,
    bestLapSpeedKph: Num)

  /** The columns of one sheet row, named as each race's sheet names them:
      race 2's sheet has no class position. */
  function RowData(n: RaceNumber, raceId: string, driverId: string, row: CsvRow): RaceResult {
    match n
    case RaceOne =>
      RaceResult(raceId, driverId, Cell(row, "CLASS_TYPE"), ParseIntOpt(Cell(row, "POS")),
        Some(ParseIntOpt(Cell(row, "PIC"))), Cell(row, "VEHICLE"), ParseIntOpt(Cell(row, "LAPS")),
        OrNull(Cell(row, "ELAPSED")), ParseInterval(Cell(row, "GAP_FIRST")),
        ParseInterval(Cell(row, "GAP_PREVIOUS")), ParseIntOpt(Cell(row, "BEST_LAP_NUM")),
        OrNull(Cell(row, "BEST_LAP_TIME")), ParseFloatOpt(Cell(row, "BEST_LAP_KPH")))
    case RaceTwo =>
      RaceResult(raceId, driverId, Cell(row, "CLASS"), ParseIntOpt(Cell(row, "POSITION")),
        None, Cell(row, "VEHICLE"), ParseIntOpt(Cell(row, "LAPS")),
        OrNull(Cell(row, "TOTAL_TIME")), ParseInterval(Cell(row, "GAP_FIRST")),
        ParseInterval(Cell(row, "GAP_PREVIOUS")), ParseIntOpt(Cell(row, "FL_LAPNUM")),
        OrNull(Cell(row, "FL_TIME")), ParseFloatOpt(Cell(row, "FL_KPH")))
  }

  /** The mapping of one row: null for a row without a car number, and for a
      row whose race or driver cannot be found. */
  function ResultRow(n: RaceNumber, races: seq<RaceRow>, drivers: seq<DriverRow>, row: CsvRow): (r: Option<RaceResult>)
    ensures r.Some? <==>
      && OrNull(Cell(row, "NUMBER")).Some?
      && (exists i :: 0 <= i < |races| && Contains(races[i].name, RaceName(n)))
      && (exists i :: 0 <= i < |drivers| && NumberIs(drivers[i], ParseIntOpt(Cell(row, "NUMBER"))))
    ensures r.Some? ==>
      && (exists i :: 0 <= i < |races| && races[i].id == r.value.raceId && Contains(races[i].name, RaceName(n)))
      && (exists i :: 0 <= i < |drivers| && drivers[i].id == r.value.driverId
            && NumberIs(drivers[i], ParseIntOpt(Cell(row, "NUMBER"))))
      && r.value.gapToFirst == ParseInterval(Cell(row, "GAP_FIRST"))
      && r.value.gapToPrevious == ParseInterval(Cell(row, "GAP_PREVIOUS"))
      && (r.value.positionInClass.None? <==> n == RaceTwo)
      && FindRace(races, RaceName(n)).Some? && r.value.raceId == FindRace(races, RaceName(n)).value.id
  {
    var number := Cell(row, "NUMBER");
    if OrNull(number).None? then None
    else
      var race := FindRace(races, RaceName(n));
      var driver := FindDriver(drivers, ParseIntOpt(number));
      if race.None? || driver.None? then None
      else Some(RowData(n, race.value.id, driver.value.id, row))
  }

  /** `parsedResults.data.map(...).filter(Boolean)`: the records the script
      inserts. */
  function Results(n: RaceNumber, races: seq<RaceRow>, drivers: seq<DriverRow>, rows: seq<CsvRow>): seq<RaceResult> {
    Present(MapAll(row => ResultRow(n, races, drivers, row), rows))
  }

  /** Surviving rows keep their sheet order: the records of a sheet split in
      two parts are those of the first part followed by those of the second. */
  lemma ResultsAppend(n: RaceNumber, races: seq<RaceRow>, drivers: seq<DriverRow>, a: seq<CsvRow>, b: seq<CsvRow>)
    ensures Results(n, races, drivers, a + b) == Results(n, races, drivers, a) + Results(n, races, drivers, b)
  {
    var f := row => ResultRow(n, races, drivers, row);
    MapAllAppend(f, a, b);
    PresentAppend(MapAll(f, a), MapAll(f, b));
  }

  /** Every row yields at most one record, every row yields one exactly when
      none is skipped, and every record comes from a row of the sheet and
      belongs to the one race whose name holds "Race 1" (or "Race 2") first. */
  lemma ResultsFromRows(n: RaceNumber, races: seq<RaceRow>, drivers: seq<DriverRow>, rows: seq<CsvRow>)
    ensures |Results(n, races, drivers, rows)| <= |rows|
    ensures |Results(n, races, drivers, rows)| == |rows| <==>
      forall k :: 0 <= k < |rows| ==> ResultRow(n, races, drivers, rows[k]).Some?
    ensures forall r :: r in Results(n, races, drivers, rows) ==>
      && (exists k :: 0 <= k < |rows| && ResultRow(n, races, drivers, rows[k]) == Some(r))
      && FindRace(races, RaceName(n)).Some?
      && r.raceId == FindRace(races, RaceName(n)).value.id
  {
    var f := row => ResultRow(n, races, drivers, row);
    PresentMapAll(f, rows);
    assert forall k :: 0 <= k < |rows| ==> f(rows[k]) == ResultRow(n, races, drivers, rows[k]);
  }
}
