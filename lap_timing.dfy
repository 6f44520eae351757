/**
  Duration text of the driver-laps deep-dive page: `intervalToSeconds`, which
  reads `H:MM:SS.fff`, `M:SS.fff` or bare seconds, and `formatTime`, which
  writes seconds back as `M:SS.fff`.
 */
module LapTiming {
  import opened JsNumber
  import opened JsText

  /** intervalToSeconds: the rule is chosen by how many ':'-separated parts
      the text has: three give hours, minutes and seconds, two give minutes
      and seconds, anything else is read whole as seconds. The running total
      starts at 0 and each part is added to it. */
  function IntervalToSeconds(interval: string): Num {
    var parts := Split(interval, ':');
    if |parts| == 3 then
      var total := Add(Fin(0.0), Mul(ParseInt(parts[0]), Fin(3600.0)));
      var total' := Add(total, Mul(ParseInt(parts[1]), Fin(60.0)));
      Add(total', ParseFloat(parts[2]))
    else if |parts| == 2 then
      var total := Add(Fin(0.0), Mul(ParseInt(parts[0]), Fin(60.0)));
      Add(total, ParseFloat(parts[1]))
    else
      Add(Fin(0.0), ParseFloat(interval))
  }

  /** JavaScript's `x % d` on finite values: the remainder takes the sign of
      the dividend. */
  function JsRem(x: real, d: real): real
    requires d > 0.0
  {
    var q := x / d;
    var t := if q >= 0.0 then q.Floor else -((-q).Floor);
    x - d * t as real
  }

  /** formatTime: whole minutes (`Math.floor(seconds / 60)`, unpadded), a
      colon, then `seconds % 60` to three decimals left-padded with zeros to
      six characters. NaN and the infinities print as JavaScript prints them. */
  function FormatTime(seconds: Num): string {
    match seconds
    case Fin(x) => IntToString((x / 60.0).Floor) + ":" + PadStart(ToFixed3(JsRem(x, 60.0)), 6, '0')
    case NaN => "NaN:000NaN"
    case PosInf => "Infinity:000NaN"
    case NegInf => "-Infinity:000NaN"
  }
}

/** What intervalToSeconds reads from each text layout, and the round trip
    through formatTime. */
module LapTimingFacts {
  import opened JsNumber
  import opened JsText
  import opened LapTiming

  predicate NoColon(s: string) {
    forall i :: 0 <= i < |s| ==> s[i] != ':'
  }

  /** Seconds text `ss.fff` as the timing system writes it. */
  predicate SecondsText(ss: string, fff: string) {
    |ss| > 0 && AllDigits(ss) && AllDigits(fff)
  }

  lemma NoColonDecimal(ss: string, fff: string)
    requires AllDigits(ss) && AllDigits(fff)
    ensures NoColon(ss + "." + fff)
  {
    forall i | 0 <= i < |ss + "." + fff|
      ensures (ss + "." + fff)[i] != ':'
    {
      if i < |ss| {
        assert (ss + "." + fff)[i] == ss[i];
      } else if i > |ss| {
        assert (ss + "." + fff)[i] == fff[i - |ss| - 1];
      }
    }
  }

  lemma NoColonDigits(s: string)
    requires AllDigits(s)
    ensures NoColon(s)
  {
  }

  /** Unfolds intervalToSeconds on a three-part text, naming the parsed parts. */
  lemma ThreeParts(s: string, h: string, m: string, sec: string, x: Num, y: Num, z: Num)
    requires Split(s, ':') == [h, m, sec]
    requires ParseInt(h) == x && ParseInt(m) == y && ParseFloat(sec) == z
    ensures IntervalToSeconds(s) == Add(Add(Add(Fin(0.0), Mul(x, Fin(3600.0))), Mul(y, Fin(60.0))), z)
  {
  }

  /** Unfolds intervalToSeconds on a two-part text, naming the parsed parts. */
  lemma TwoParts(s: string, m: string, sec: string, y: Num, z: Num)
    requires Split(s, ':') == [m, sec]
    requires ParseInt(m) == y && ParseFloat(sec) == z
    ensures IntervalToSeconds(s) == Add(Add(Fin(0.0), Mul(y, Fin(60.0))), z)
  {
  }

  lemma HoursSum(a: real, b: real, c: real)
    ensures Add(Add(Add(Fin(0.0), Mul(Fin(a), Fin(3600.0))), Mul(Fin(b), Fin(60.0))), Fin(c))
         == Fin(a * 3600.0 + b * 60.0 + c)
  {
  }

  lemma MinutesSum(b: real, c: real)
    ensures Add(Add(Fin(0.0), Mul(Fin(b), Fin(60.0))), Fin(c)) == Fin(b * 60.0 + c)
  {
  }

  lemma SplitThree(h: string, m: string, rest: string)
    requires AllDigits(h) && AllDigits(m) && NoColon(rest)
    ensures Split(h + ":" + m + ":" + rest, ':') == [h, m, rest]
  {
    SplitNoSeparator(rest, ':');
    NoColonDigits(m);
    SplitAtSeparator(m, ':', rest);
    NoColonDigits(h);
    SplitAtSeparator(h, ':', m + ":" + rest);
    assert h + ":" + m + ":" + rest == h + [':'] + (m + [':'] + rest);
  }

  lemma SplitTwo(m: string, rest: string)
    requires AllDigits(m) && NoColon(rest)
    ensures Split(m + ":" + rest, ':') == [m, rest]
  {
    SplitNoSeparator(rest, ':');
    NoColonDigits(m);
    SplitAtSeparator(m, ':', rest);
  }

  lemma HoursSplit(h: string, m: string, ss: string, fff: string)
    requires AllDigits(h) && AllDigits(m) && SecondsText(ss, fff)
    ensures Split(h + ":" + m + ":" + ss + "." + fff, ':') == [h, m, ss + "." + fff]
  {
    NoColonDecimal(ss, fff);
    SplitThree(h, m, ss + "." + fff);
    assert h + ":" + m + ":" + ss + "." + fff == h + ":" + m + ":" + (ss + "." + fff);
  }

  lemma MinutesSplit(m: string, ss: string, fff: string)
    requires AllDigits(m) && SecondsText(ss, fff)
    ensures Split(m + ":" + ss + "." + fff, ':') == [m, ss + "." + fff]
  {
    NoColonDecimal(ss, fff);
    SplitTwo(m, ss + "." + fff);
    assert m + ":" + ss + "." + fff == m + ":" + (ss + "." + fff);
  }

  lemma HoursParts(s: string, h: string, m: string, rest: string, a: real, b: real, c: real)
    requires |h| > 0 && AllDigits(h) && |m| > 0 && AllDigits(m)
    requires a == DigitsValue(h) as real && b == DigitsValue(m) as real
    requires Split(s, ':') == [h, m, rest] && ParseFloat(rest) == Fin(c)
    ensures IntervalToSeconds(s) == Fin(a * 3600.0 + b * 60.0 + c)
  {
    ParseIntNumeral(h);
    ParseIntNumeral(m);
    ThreeParts(s, h, m, rest, Fin(a), Fin(b), Fin(c));
    HoursSum(a, b, c);
  }

  lemma MinutesParts(s: string, m: string, rest: string, b: real, c: real)
    requires |m| > 0 && AllDigits(m) && b == DigitsValue(m) as real
    requires Split(s, ':') == [m, rest] && ParseFloat(rest) == Fin(c)
    ensures IntervalToSeconds(s) == Fin(b * 60.0 + c)
  {
    ParseIntNumeral(m);
    TwoParts(s, m, rest, Fin(b), Fin(c));
    MinutesSum(b, c);
  }

  lemma HoursValue(s: string, h: string, m: string, ss: string, fff: string, a: real, b: real, c: real)
    requires |h| > 0 && AllDigits(h) && |m| > 0 && AllDigits(m) && SecondsText(ss, fff)
    requires s == h + ":" + m + ":" + ss + "." + fff
    requires a == DigitsValue(h) as real && b == DigitsValue(m) as real && c == DecimalValue(ss, fff)
    ensures IntervalToSeconds(s) == Fin(a * 3600.0 + b * 60.0 + c)
  {
    HoursSplit(h, m, ss, fff);
    ParseFloatDecimal(ss, fff);
    HoursParts(s, h, m, ss + "." + fff, a, b, c);
  }

  lemma MinutesValue(s: string, m: string, ss: string, fff: string, b: real, c: real)
    requires |m| > 0 && AllDigits(m) && SecondsText(ss, fff)
    requires s == m + ":" + ss + "." + fff
    requires b == DigitsValue(m) as real && c == DecimalValue(ss, fff)
    ensures IntervalToSeconds(s) == Fin(b * 60.0 + c)
  {
    MinutesSplit(m, ss, fff);
    ParseFloatDecimal(ss, fff);
    MinutesParts(s, m, ss + "." + fff, b, c);
  }

  /** `H:MM:SS.fff` is H hours, MM minutes and SS.fff seconds. */
  lemma HoursLayout(h: string, m: string, ss: string, fff: string)
    requires |h| > 0 && AllDigits(h) && |m| > 0 && AllDigits(m) && SecondsText(ss, fff)
    ensures IntervalToSeconds(h + ":" + m + ":" + ss + "." + fff)
         == Fin(DigitsValue(h) as real * 3600.0 + DigitsValue(m) as real * 60.0 + DecimalValue(ss, fff))
  {
    HoursValue(h + ":" + m + ":" + ss + "." + fff, h, m, ss, fff,
               DigitsValue(h) as real, DigitsValue(m) as real, DecimalValue(ss, fff));
  }

  /** `M:SS.fff` is M minutes and SS.fff seconds. */
  lemma MinutesLayout(m: string, ss: string, fff: string)
    requires |m| > 0 && AllDigits(m) && SecondsText(ss, fff)
    ensures IntervalToSeconds(m + ":" + ss + "." + fff)
         == Fin(DigitsValue(m) as real * 60.0 + DecimalValue(ss, fff))
  {
    MinutesValue(m + ":" + ss + "." + fff, m, ss, fff, DigitsValue(m) as real, DecimalValue(ss, fff));
  }

  /** A text that does not split into two or three parts at its colons
      (no colon at all, or three or more) is read whole by parseFloat. */
  lemma SecondsLayout(text: string)
    requires |Split(text, ':')| != 2 && |Split(text, ':')| != 3
    ensures IntervalToSeconds(text) == Add(Fin(0.0), ParseFloat(text))
    ensures IntervalToSeconds(text) == ParseFloat(text)
  {
  }

  /** A text without a colon is a single part. */
  lemma NoColonOnePart(text: string)
    requires NoColon(text)
    ensures |Split(text, ':')| == 1
  {
    SplitNoSeparator(text, ':');
  }

  /** With four parts only the leading number is read: "1:2:3:4" is 1
      second. */
  lemma FourPartsExample()
    ensures IntervalToSeconds("1:2:3:4") == Fin(1.0)
  {
    assert "1:2:3:4" == "1" + [':'] + "2:3:4";
    assert "2:3:4" == "2" + [':'] + "3:4";
    assert "3:4" == "3" + [':'] + "4";
    SplitNoSeparator("4", ':');
    SplitAtSeparator("3", ':', "4");
    SplitAtSeparator("2", ':', "3:4");
    SplitAtSeparator("1", ':', "2:3:4");
    assert "1:2:3:4" == "1" + ":2:3:4";
    ParseFloatWhole("1", ":2:3:4");
    assert DigitsValue("1") == 1 by {
      assert "1"[..0] == [];
    }
    SecondsLayout("1:2:3:4");
  }

  lemma TwoLapsValue(s: string)
    requires s == "2" + " laps"
    ensures ParseFloat(s) == Fin(DigitsValue("2") as real)
  {
    ParseFloatWhole("2", " laps");
  }

  /** parseFloat stops at the first character it cannot read, so a lap-count
      gap such as "2 laps" reads as 2 seconds. */
  lemma LapCountGap()
    ensures IntervalToSeconds("2 laps") == Fin(2.0)
  {
    assert DigitsValue("2") == 2 by {
      assert "2"[..0] == [];
    }
    assert NoColon("2 laps");
    NoColonOnePart("2 laps");
    TwoLapsValue("2 laps");
    SecondsLayout("2 laps");
  }

  /** An empty text has no number in it. */
  lemma EmptyInterval()
    ensures IntervalToSeconds("") == NaN
  {
    NoColonOnePart("");
    SecondsLayout("");
    assert TrimStart("") == "";
    assert LeadingDigits("") == [];
    assert DecimalPrefix("").None?;
  }

  /** Whole minutes of `60 * mins + y` for `0 <= y < 60`. */
  lemma MinutesOfTotal(mins: nat, y: real, x: real)
    requires 0.0 <= y < 60.0 && x == (mins * 60) as real + y
    ensures (x / 60.0).Floor == mins
    ensures JsRem(x, 60.0) == y
  {
    assert x / 60.0 == mins as real + y / 60.0;
  }

  /** formatTime of a finite, non-negative total: the minutes and the
      seconds within the minute. */
  lemma FormatFinite(mins: nat, y: real, x: real)
    requires 0.0 <= y < 60.0 && x == (mins * 60) as real + y
    ensures FormatTime(Fin(x)) == NatToString(mins) + ":" + PadStart(ToFixed3(y), 6, '0')
  {
    MinutesOfTotal(mins, y, x);
  }

  /** The seconds field `SS.fff` is written back as it was read. */
  lemma SecondsField(ss: string, fff: string, y: real)
    requires |ss| == 2 && AllDigits(ss) && |fff| == 3 && AllDigits(fff)
    requires y == DecimalValue(ss, fff)
    ensures PadStart(ToFixed3(y), 6, '0') == ss + "." + fff
  {
    var secs := DigitsValue(ss);
    FractionOfThree(fff);
    assert y == secs as real + DigitsValue(fff) as real / 1000.0;
    ToFixed3Exact(secs, fff);
    PadStartAppend(NatToString(secs), "." + fff, 2, '0');
    assert NatToString(secs) + "." + fff == NatToString(secs) + ("." + fff);
    PaddedRoundTrip(ss);
  }

  lemma SecondsBelowMinute(ss: string, fff: string, y: real)
    requires |ss| == 2 && AllDigits(ss) && DigitsValue(ss) < 60
    requires |fff| == 3 && AllDigits(fff)
    requires y == DecimalValue(ss, fff)
    ensures 0.0 <= y < 60.0
  {
  }

  lemma RoundTripValue(t: Num, m: string, ss: string, fff: string, mins: nat, y: real, x: real)
    requires Canonical(m) && mins == DigitsValue(m)
    requires |ss| == 2 && AllDigits(ss) && DigitsValue(ss) < 60
    requires |fff| == 3 && AllDigits(fff)
    requires y == DecimalValue(ss, fff) && x == (mins * 60) as real + y && t == Fin(x)
    ensures FormatTime(t) == m + ":" + ss + "." + fff
  {
    SecondsBelowMinute(ss, fff, y);
    FormatFinite(mins, y, x);
    SecondsField(ss, fff, y);
    CanonicalRoundTrip(m);
    assert m + ":" + ss + "." + fff == m + ":" + (ss + "." + fff);
  }

  lemma RoundTripText(text: string, m: string, ss: string, fff: string, mins: nat, y: real)
    requires Canonical(m)
    requires |ss| == 2 && AllDigits(ss) && DigitsValue(ss) < 60
    requires |fff| == 3 && AllDigits(fff)
    requires text == m + ":" + ss + "." + fff
    requires mins == DigitsValue(m) && y == DecimalValue(ss, fff)
    ensures FormatTime(IntervalToSeconds(text)) == text
  {
    MinutesValue(text, m, ss, fff, mins as real, y);
    RoundTripValue(IntervalToSeconds(text), m, ss, fff, mins, y, (mins * 60) as real + y);
  }

  /** formatTime undoes intervalToSeconds on `M:SS.fff` text whose minutes
      have no leading zero and whose seconds are below 60. */
  lemma FormatTimeRoundTrip(m: string, ss: string, fff: string)
    requires Canonical(m)
    requires |ss| == 2 && AllDigits(ss) && DigitsValue(ss) < 60
    requires |fff| == 3 && AllDigits(fff)
    ensures FormatTime(IntervalToSeconds(m + ":" + ss + "." + fff)) == m + ":" + ss + "." + fff
  {
    RoundTripText(m + ":" + ss + "." + fff, m, ss, fff, DigitsValue(m), DecimalValue(ss, fff));
  }
}
