/**
  The two cell stylers of the driver-laps deep-dive table: `getDeltaInfo`,
  which writes an improvement as a signed three-decimal text and classes it
  good, bad or neutral around a 0.001 s dead band, and `getValueStyle`, which
  highlights a value within 0.001 of the driver's best.
 */
module DeltaDisplay {
  import opened Wrappers
  import opened JsNumber
  import opened JsText
  import opened BestScan
  import opened LapRecords
  import opened LapSummary

  /** The CSS class a cell gets; `Plain` is the empty class name. */
  datatype Style = Plain | DeltaGood | DeltaBad | DeltaNeutral

  datatype DeltaInfo = DeltaInfo(text: string, style: Style)

  /** `getDeltaInfo(delta)`: null or NaN is "N/A" with no class; otherwise the
      delta to three decimals with a "+" in front of non-negative values and
      "s" after, classed good above 0.001, bad below -0.001, neutral between. */
  function GetDeltaInfo(delta: Option<Num>): DeltaInfo {
    if delta.None? || delta.value.NaN? then DeltaInfo("N/A", Plain)
    else
      var d := delta.value;
      var text := (if Ge(d, Fin(0.0)) then "+" else "") + NumToFixed3(d) + "s";
      var style :=
        if Gt(d, Fin(0.001)) then DeltaGood
        else if Lt(d, Fin(-0.001)) then DeltaBad
        else DeltaNeutral;
      DeltaInfo(text, style)
  }

  /** The text of a number's `toFixed(3)` never starts with "+", and starts
      with "-" exactly for the negative numbers. */
  lemma FixedSign(d: Num)
    requires !d.NaN?
    ensures |NumToFixed3(d)| > 0 && NumToFixed3(d)[0] != '+'
    ensures NumToFixed3(d)[0] == '-' <==> Lt(d, Fin(0.0))
  {
    if d.Fin? {
      var x := d.v;
      var m := if x < 0.0 then RoundMillis(-x) else RoundMillis(x);
      var t := NatToString(m / 1000);
      assert IsDigit(t[0]);
      assert MillisText(m)[0] == t[0];
    }
  }

  /** What a delta cell shows: "N/A" with no class exactly for null or NaN;
      otherwise the three-decimal text of the delta followed by "s", with a
      leading "+" exactly when the delta is at least zero, and exactly one of
      the three classes according to the 0.001 dead band. */
  lemma DeltaInfoSpec(delta: Option<Num>)
    ensures var info := GetDeltaInfo(delta);
      (delta.None? || delta.value.NaN?) <==> info.style == Plain
    ensures var info := GetDeltaInfo(delta);
      info.style == Plain ==> info.text == "N/A"
    ensures var info := GetDeltaInfo(delta);
      info.style != Plain ==>
        var d := delta.value;
        && |info.text| > 1 && info.text[|info.text| - 1] == 's'
        && (info.text[0] == '+' <==> Ge(d, Fin(0.0)))
        && info.text == (if Ge(d, Fin(0.0)) then "+" else "") + NumToFixed3(d) + "s"
        && (info.style == DeltaGood <==> Gt(d, Fin(0.001)))
        && (info.style == DeltaBad <==> Lt(d, Fin(-0.001)))
        && (info.style == DeltaNeutral <==> d.Fin? && -0.001 <= d.v <= 0.001)
  {
    if delta.Some? && !delta.value.NaN? {
      FixedSign(delta.value);
    }
  }

  /** `getValueStyle(current, best)`: no class when the best or the current
      value is null or the current value is NaN; otherwise the neutral class
      when `Math.abs(current - best) < 0.001`. So a value is highlighted
      exactly when both it and the best are finite and within 0.001 of each
      other, and any other value gets no class. */
  function GetValueStyle(current: Option<Num>, best: Option<Num>): (style: Style)
    ensures style == DeltaNeutral <==>
      && current.Some? && best.Some? && current.value.Fin? && best.value.Fin?
      && -0.001 < current.value.v - best.value.v < 0.001
    ensures style == DeltaNeutral || style == Plain
  {
    if best.None? || current.None? || current.value.NaN? then Plain
    else if Lt(Abs(Sub(current.value, best.value)), Fin(0.001)) then DeltaNeutral
    else Plain
  }

  /** In the table, the lap reported as the best lap has its lap-time cell
      highlighted whenever the best lap time is finite. */
  lemma BestLapCellHighlighted(laps: seq<Lap>)
    requires |laps| > 0 && SummaryOf(laps).bestLap.lapTime.Fin?
    ensures exists k :: (
      && 0 <= k < |laps| && SummaryOf(laps).bestLap == BestLapOf(LapSeconds(laps[k]), Some(laps[k]))
      && GetValueStyle(Some(LapSeconds(laps[k])), Some(SummaryOf(laps).bestLap.lapTime)) == DeltaNeutral)
  {
    BestLapSpec(laps);
    var b := SummaryOf(laps).bestLap;
    var k :| 0 <= k < |laps| && LapTimes(laps)[k] == b.lapTime && b == BestLapOf(b.lapTime, Some(laps[k]));
    LapTimesAt(laps, k);
  }

  /** A numeric column as the styler receives it: `number | null`. */
  function OrNullNum(x: Nullable): Option<Num> {
    match x
    case Null => None
    case Value(n) => Some(n)
  }

  /** In the table, the lap holding a reported finite best sector time or
      speed has that cell highlighted. */
  lemma BestCellHighlighted(laps: seq<Lap>, m: Metric)
    requires Report(laps, m).value.Some? && Report(laps, m).value.value.Fin?
    ensures exists k :: (
      && 0 <= k < |laps| && Report(laps, m).lapNumber == Some(laps[k].lapNumber)
      && GetValueStyle(OrNullNum(MetricOf(laps[k], m)), Report(laps, m).value) == DeltaNeutral)
  {
    ReportSpec(laps, m);
  }
}
