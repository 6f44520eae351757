/**
  The lap summary card: `formatInterval`, which shows a stored
  `HH:MM:SS.fff` interval as unpadded minutes and three-decimal seconds,
  and `improvementIndicator`, which marks a positive improvement as slower
  and a negative one as faster.
 */
module LapDataDisplay {
  import opened Wrappers
  import opened JsNumber
  import opened JsText
  import DeltaDisplay

  /** `parts[i]`, undefined past the end. */
  function Part(parts: seq<string>, i: nat): (p: Option<string>)
    ensures p.Some? <==> i < |parts|
  {
    if i < |parts| then Some(parts[i]) else None
  }

  /** `formatInterval(interval)`: "N/A" for a missing or empty interval;
      otherwise `parseInt` of the second ':'-separated part, a colon, and
      `parseFloat` of the third part to three decimals. */
  function FormatInterval(interval: Option<string>): string {
    if interval.None? || interval.value == "" then "N/A"
    else
      var parts := Split(interval.value, ':');
      IntNumToString(ParseIntOpt(Part(parts, 1))) + ":" + NumToFixed3(ParseFloatOpt(Part(parts, 2)))
  }

  /** "N/A" is shown exactly for a missing or empty interval: any other
      interval is shown with a colon. */
  lemma FormatIntervalMissing(interval: Option<string>)
    ensures FormatInterval(interval) == "N/A" <==> interval.None? || interval.value == ""
  {
    if interval.Some? && interval.value != "" {
      var parts := Split(interval.value, ':');
      var minutes := IntNumToString(ParseIntOpt(Part(parts, 1)));
      var text := minutes + ":" + NumToFixed3(ParseFloatOpt(Part(parts, 2)));
      assert text[|minutes|] == ':';
      assert forall i :: 0 <= i < |"N/A"| ==> "N/A"[i] != ':';
    }
  }

  predicate NoColon(s: string) {
    forall i :: 0 <= i < |s| ==> s[i] != ':'
  }

  /** Only the second and third parts are read, so the hours (or whatever
      comes before the first colon) are discarded. */
  lemma HoursDiscarded(h1: string, h2: string, rest: string)
    requires NoColon(h1) && NoColon(h2)
    ensures FormatInterval(Some(h1 + ":" + rest)) == FormatInterval(Some(h2 + ":" + rest))
  {
    SplitAtSeparator(h1, ':', rest);
    SplitAtSeparator(h2, ':', rest);
    assert (h1 + ":" + rest)[|h1|] == ':';
    assert (h2 + ":" + rest)[|h2|] == ':';
    assert h1 + ":" + rest == h1 + [':'] + rest;
    assert h2 + ":" + rest == h2 + [':'] + rest;
  }

  lemma NoColonNumeral(ss: string, fff: string)
    requires AllDigits(ss) && AllDigits(fff)
    ensures NoColon(ss + "." + fff)
  {
    var t := ss + "." + fff;
    forall i | 0 <= i < |t|
      ensures t[i] != ':'
    {
      if i < |ss| {
        assert t[i] == ss[i];
      } else if i > |ss| {
        assert t[i] == fff[i - |ss| - 1];
      }
    }
  }

  /** The parts of `h:m:ss.fff`. */
  lemma IntervalParts(h: string, m: string, ss: string, fff: string)
    requires NoColon(h) && AllDigits(m) && AllDigits(ss) && AllDigits(fff)
    ensures Split(h + ":" + m + ":" + (ss + "." + fff), ':') == [h, m, ss + "." + fff]
  {
    var sec := ss + "." + fff;
    NoColonNumeral(ss, fff);
    SplitNoSeparator(sec, ':');
    SplitAtSeparator(m, ':', sec);
    SplitAtSeparator(h, ':', m + [':'] + sec);
    assert h + ":" + m + ":" + sec == h + [':'] + (m + [':'] + sec);
  }

  /** The card's text from the second and third parts and the values read
      from them. */
  lemma FormatParts(s: string, parts: seq<string>, minutes: Num, seconds: Num)
    requires s != "" && parts == Split(s, ':') && |parts| == 3
    requires ParseInt(parts[1]) == minutes && ParseFloat(parts[2]) == seconds
    ensures FormatInterval(Some(s)) == IntNumToString(minutes) + ":" + NumToFixed3(seconds)
  {
    assert Part(parts, 1) == Some(parts[1]) && Part(parts, 2) == Some(parts[2]);
  }

  /** A stored `HH:MM:SS.f` interval with at most three decimals is shown as
      the minutes without leading zeros, a colon, the whole seconds without
      leading zeros, and the decimals completed to three; the hours do not
      appear. */
  lemma FormatIntervalFields(h: string, m: string, ss: string, fff: string)
    requires NoColon(h) && AllDigits(m) && AllDigits(ss) && AllDigits(fff)
    requires m != [] && ss != [] && |fff| <= 3
    ensures AllDigits(fff + Repeat('0', 3 - |fff|))
    ensures FormatInterval(Some(h + ":" + m + ":" + (ss + "." + fff))) ==
      NatToString(DigitsValue(m)) + ":" + (NatToString(DigitsValue(ss)) + "." + (fff + Repeat('0', 3 - |fff|)))
  {
    var s := h + ":" + m + ":" + (ss + "." + fff);
    IntervalLayout(h, m, ss, fff, s);
    FormatLayout(h, m, ss, fff, s);
    IntNumToStringNumeral(m);
    ToFixed3OfDecimal(ss, fff);
  }

  lemma IntervalLayout(h: string, m: string, ss: string, fff: string, s: string)
    requires NoColon(h) && AllDigits(m) && AllDigits(ss) && AllDigits(fff)
    requires s == h + ":" + m + ":" + (ss + "." + fff)
    ensures s != "" && Split(s, ':') == [h, m, ss + "." + fff]
  {
    IntervalParts(h, m, ss, fff);
    assert s[|h|] == ':';
  }

  lemma FormatLayout(h: string, m: string, ss: string, fff: string, s: string)
    requires NoColon(h) && AllDigits(m) && AllDigits(ss) && AllDigits(fff)
    requires m != [] && ss != [] && |fff| <= 3
    requires s != "" && Split(s, ':') == [h, m, ss + "." + fff]
    ensures FormatInterval(Some(s)) == IntNumToString(ParseInt(m)) + ":" + NumToFixed3(ParseFloat(ss + "." + fff))
  {
    FormatParts(s, [h, m, ss + "." + fff], ParseInt(m), ParseFloat(ss + "." + fff));
  }

  /** "00:01:05.1" is shown as "1:5.100": neither the minutes nor the
      seconds are zero-padded. */
  lemma FormatIntervalExample(v: string, r: string)
    requires v == "00:01:05.1" && r == "1:5.100"
    ensures FormatInterval(Some(v)) == r
  {
    assert v == "00" + ":" + "01" + ":" + ("05" + "." + "1");
    ExampleFields(v, r);
  }

  lemma ExampleFields(v: string, r: string)
    requires v == "00" + ":" + "01" + ":" + ("05" + "." + "1") && r == "1:5.100"
    ensures FormatInterval(Some(v)) == r
  {
    ExampleDigits();
    FormatIntervalFields("00", "01", "05", "1");
  }

  lemma ExampleDigits()
    ensures NoColon("00") && AllDigits("01") && AllDigits("05") && AllDigits("1")
    ensures "1:5.100" == NatToString(DigitsValue("01")) + ":" + NatToString(DigitsValue("05")) + "." + ("1" + Repeat('0', 2))
  {
    assert DigitsValue("01") == 1 by {
      assert "01"[..1] == "0";
    }
    assert DigitsValue("05") == 5 by {
      assert "05"[..1] == "0";
    }
    assert Repeat('0', 2) == "00";
  }

  /** The marker beside a time. */
  datatype Indicator = Slower | Faster | NoMarker

  /** `improvementIndicator(improvement)`: ▼ (slower) above zero, ▲ (faster)
      below zero, nothing at zero (or for NaN, which compares false both
      ways). */
  function ImprovementIndicator(improvement: Num): (mark: Indicator)
    ensures mark == Slower <==> Gt(improvement, Fin(0.0))
    ensures mark == Faster <==> Lt(improvement, Fin(0.0))
    ensures mark == NoMarker <==> improvement == Fin(0.0) || improvement.NaN?
  {
    if Gt(improvement, Fin(0.0)) then Slower
    else if Lt(improvement, Fin(0.0)) then Faster
    else NoMarker
  }

  /** The card and the deep-dive table read the sign of an improvement in
      opposite ways: a value above the 0.001 band that the table classes as
      good is marked slower here, and one below it that the table classes as
      bad is marked faster. */
  lemma SignConventionsDisagree(d: Num)
    ensures DeltaDisplay.GetDeltaInfo(Some(d)).style == DeltaDisplay.DeltaGood ==> ImprovementIndicator(d) == Slower
    ensures DeltaDisplay.GetDeltaInfo(Some(d)).style == DeltaDisplay.DeltaBad ==> ImprovementIndicator(d) == Faster
  {
    DeltaDisplay.DeltaInfoSpec(Some(d));
    if Gt(d, Fin(0.001)) {
      assert Gt(d, Fin(0.0));
    }
    if Lt(d, Fin(-0.001)) {
      assert Lt(d, Fin(0.0));
    }
  }

  /** The fields of a lap the card shows. */
  datatype LapData = LapData(
    lapTime: Option<string>, s1: Option<string>, s2: Option<string>, s3: Option<string>,
    pitTime: Option<string>,
    lapImprovement: Num, s1Improvement: Num, s2Improvement: Num, s3Improvement: Num)

  /** A time cell: the formatted interval and its marker. */
  datatype TimeCell = TimeCell(text: string, mark: Indicator)

  /** What the card shows for a lap: four time cells and, when the lap has a
      pit time, a pit-time line. */
  datatype Card = Loading | Summary(lapTime: TimeCell, s1: TimeCell, s2: TimeCell, s3: TimeCell, pitTime: Option<string>)

  /** The card for `lapData` (null while loading). */
  function RenderCard(lapData: Option<LapData>): (card: Card)
    ensures card.Loading? <==> lapData.None?
    ensures card.Summary? ==> (card.pitTime.Some? <==> lapData.value.pitTime.Some? && lapData.value.pitTime.value != "")
    ensures card.Summary? && card.pitTime.Some? ==> card.pitTime.value != "N/A"
  {
    if lapData.None? then Loading
    else
      var lap := lapData.value;
      Summary(
        TimeCell(FormatInterval(lap.lapTime), ImprovementIndicator(lap.lapImprovement)),
        TimeCell(FormatInterval(lap.s1), ImprovementIndicator(lap.s1Improvement)),
        TimeCell(FormatInterval(lap.s2), ImprovementIndicator(lap.s2Improvement)),
        TimeCell(FormatInterval(lap.s3), ImprovementIndicator(lap.s3Improvement)),
        if lap.pitTime.Some? && lap.pitTime.value != "" then Some(FormatInterval(lap.pitTime)) else None)
  }
}
