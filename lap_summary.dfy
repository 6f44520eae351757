/**
  The summary block of the driver-laps deep-dive page: one pass over the laps
  (with their improvements) that tracks the best lap time and the lap that set
  it, the best sector times, the best top speed and average speed with their
  lap numbers, and collects the lap times for the average and the variance.
 */
module LapSummary {
  import opened Wrappers
  import opened JsNumber
  import opened LapRecords
  import opened BestScan
  import opened LapStats

  /** The per-lap values the page takes a best of, besides the lap time. */
  datatype Metric = S1 | S2 | S3 | TopSpeed | Kph

  /** The row's own value of metric m, `null` included. */
  function MetricOf(lap: Lap, m: Metric): Nullable {
    match m
    case S1 => lap.s1Seconds
    case S2 => lap.s2Seconds
    case S3 => lap.s3Seconds
    case TopSpeed => lap.topSpeed
    case Kph => lap.kph
  }

  /** Sector times are minimised, speeds maximised. */
  function GoalOf(m: Metric): Goal {
    match m
    case S1 => Lowest
    case S2 => Lowest
    case S3 => Lowest
    case TopSpeed => Highest
    case Kph => Highest
  }

  /** The number `<` and `>` see of lap's metric m: `null` compares as 0. */
  function Key(lap: Lap, m: Metric): Num {
    ToNumber(MetricOf(lap, m))
  }

  /** The numbers compared for one metric, in lap order. */
  function Keys(laps: seq<Lap>, m: Metric): (vs: seq<Num>)
    ensures |vs| == |laps|
  {
    seq(|laps|, i requires 0 <= i < |laps| => Key(laps[i], m))
  }

  /** `{ time, lapNumber }` / `{ speed, lapNumber }`: the sentinel and a
      `null` best are shown as null. */
  datatype Reported = Reported(value: Option<Num>, lapNumber: Option<int>)

  /** `{ lapTime, lapNumber: bestLap?.lap_number || null, s1: bestLap?.s1 || null, ... }`:
      the lap time is reported raw, and a lap number 0 or an empty sector text
      counts as missing. */
  datatype BestLapInfo = BestLapInfo(
    lapTime: Num, lapNumber: Option<int>, s1: Option<string>, s2: Option<string>, s3: Option<string>)

  datatype Summary = Summary(
    bestLap: BestLapInfo,
    s1: Reported, s2: Reported, s3: Reported,
    topSpeed: Reported, kph: Reported,
    average: Num, variance: Num)

  function OwnerLap(laps: seq<Lap>, owner: Option<nat>): Option<Lap> {
    if owner.Some? && owner.value < |laps| then Some(laps[owner.value]) else None
  }

  function OwnerNumber(laps: seq<Lap>, owner: Option<nat>): Option<int> {
    if owner.Some? && owner.value < |laps| then Some(laps[owner.value].lapNumber) else None
  }

  function BestLapOf(lapTime: Num, bestLap: Option<Lap>): BestLapInfo {
    match bestLap
    case None => BestLapInfo(lapTime, None, None, None, None)
    case Some(lap) =>
      BestLapInfo(
        lapTime,
        if lap.lapNumber != 0 then Some(lap.lapNumber) else None,
        if lap.s1 != "" then Some(lap.s1) else None,
        if lap.s2 != "" then Some(lap.s2) else None,
        if lap.s3 != "" then Some(lap.s3) else None)
  }

  /** `bestS1Time === Infinity ? null : bestS1Time`, and `-Infinity` for
      the speeds. */
  function ReportOf(goal: Goal, value: Nullable, lapNumber: Option<int>): Reported {
    Reported(if value.Null? || value.n == Sentinel(goal) then None else Some(value.n), lapNumber)
  }

  /** A running best of a metric as the page holds it: the row's own value
      (`null` included) and the index of the lap that set it. */
  datatype Held = Held(value: Nullable, owner: Option<nat>)

  /** The value held once the comparisons settle on lap `owner`: that lap's
      own value, or the sentinel when no lap set one. */
  function HeldValue(laps: seq<Lap>, m: Metric, owner: Option<nat>): Nullable {
    if owner.Some? && owner.value < |laps| then MetricOf(laps[owner.value], m) else Value(Sentinel(GoalOf(m)))
  }

  /** The best of metric m over all laps, as the page reports it. */
  function Report(laps: seq<Lap>, m: Metric): Reported {
    var b := Scan(GoalOf(m), Keys(laps, m));
    ReportOf(GoalOf(m), HeldValue(laps, m, b.owner), OwnerNumber(laps, b.owner))
  }

  /** The summary the page computes for a non-empty list of laps. */
  function SummaryOf(laps: seq<Lap>): Summary
    requires |laps| > 0
  {
    var ts := LapTimes(laps);
    var best := Scan(Lowest, ts);
    Summary(
      BestLapOf(best.value, OwnerLap(laps, best.owner)),
      Report(laps, S1), Report(laps, S2), Report(laps, S3),
      Report(laps, TopSpeed), Report(laps, Kph),
      Mean(ts), Variance(ts))
  }

  /** The `forEach` over the laps and the statistics after it. Nothing is
      computed for an empty list. */
  method SummarizeLaps(laps: seq<Lap>) returns (summary: Option<Summary>)
    ensures |laps| == 0 ==> summary == None
    ensures |laps| > 0 ==> summary == Some(SummaryOf(laps))
  {
    if |laps| == 0 {
      return None;
    }
    var bestLapTime, bestLap: Option<Lap> := PosInf, None;
    var bestS1Time, bestS1LapNumber: Option<int> := Value(PosInf), None;
    var bestS2Time, bestS2LapNumber: Option<int> := Value(PosInf), None;
    var bestS3Time, bestS3LapNumber: Option<int> := Value(PosInf), None;
    var bestTopSpeed, bestTopSpeedLapNumber: Option<int> := Value(NegInf), None;
    var bestKph, bestKphLapNumber: Option<int> := Value(NegInf), None;
    var lapTimes: seq<Num> := [];
    for i := 0 to |laps|
      invariant TracksTime(laps, i, lapTimes, bestLapTime, bestLap)
      invariant Tracks(laps, S1, i, bestS1Time, bestS1LapNumber)
      invariant Tracks(laps, S2, i, bestS2Time, bestS2LapNumber)
      invariant Tracks(laps, S3, i, bestS3Time, bestS3LapNumber)
      invariant Tracks(laps, TopSpeed, i, bestTopSpeed, bestTopSpeedLapNumber)
      invariant Tracks(laps, Kph, i, bestKph, bestKphLapNumber)
    {
      lapTimes, bestLapTime, bestLap := UpdateBestLap(laps, i, lapTimes, bestLapTime, bestLap);
      bestS1Time, bestS1LapNumber := UpdateBest(laps, i, S1, bestS1Time, bestS1LapNumber);
      bestS2Time, bestS2LapNumber := UpdateBest(laps, i, S2, bestS2Time, bestS2LapNumber);
      bestS3Time, bestS3LapNumber := UpdateBest(laps, i, S3, bestS3Time, bestS3LapNumber);
      bestTopSpeed, bestTopSpeedLapNumber := UpdateBest(laps, i, TopSpeed, bestTopSpeed, bestTopSpeedLapNumber);
      bestKph, bestKphLapNumber := UpdateBest(laps, i, Kph, bestKph, bestKphLapNumber);
    }
    var s := Summarize(laps, lapTimes, bestLapTime, bestLap,
      bestS1Time, bestS1LapNumber, bestS2Time, bestS2LapNumber, bestS3Time, bestS3LapNumber,
      bestTopSpeed, bestTopSpeedLapNumber, bestKph, bestKphLapNumber);
    summary := Some(s);
  }

  /** The lap-time part of one iteration: the lap's time in seconds is pushed
      onto the list of lap times and replaces the best lap time (and the best
      lap) when it is strictly lower. */
  method UpdateBestLap(laps: seq<Lap>, i: nat, lapTimes: seq<Num>, bestLapTime: Num, bestLap: Option<Lap>)
    returns (lapTimes': seq<Num>, bestLapTime': Num, bestLap': Option<Lap>)
    requires i < |laps| && TracksTime(laps, i, lapTimes, bestLapTime, bestLap)
    ensures TracksTime(laps, i + 1, lapTimes', bestLapTime', bestLap')
  {
    var lap := laps[i];
    var lapTimeSeconds := LapSeconds(lap);
    LapTimesPrefix(laps, i);
    lapTimes' := lapTimes + [lapTimeSeconds];
    bestLapTime', bestLap' := bestLapTime, bestLap;
    if Lt(lapTimeSeconds, bestLapTime) {
      bestLapTime' := lapTimeSeconds;
      bestLap' := Some(lap);
    }
  }

  /** One of the five sibling updates of one iteration: lap i's value of
      metric m replaces the running best (and its lap number) when it is
      strictly lower (a sector time) or strictly higher (a speed), `null`
      on either side comparing as 0. */
  method UpdateBest(laps: seq<Lap>, i: nat, m: Metric, best: Nullable, lapNumber: Option<int>)
    returns (best': Nullable, lapNumber': Option<int>)
    requires i < |laps| && Tracks(laps, m, i, best, lapNumber)
    ensures Tracks(laps, m, i + 1, best', lapNumber')
  {
    var lap := laps[i];
    best', lapNumber' := best, lapNumber;
    if Beats(GoalOf(m), ToNumber(MetricOf(lap, m)), ToNumber(best)) {
      best' := MetricOf(lap, m);
      lapNumber' := Some(lap.lapNumber);
    }
  }

  /** The running best lap time after i laps, the lap that set it, and the
      lap times collected so far. */
  predicate TracksTime(laps: seq<Lap>, i: nat, lapTimes: seq<Num>, bestLapTime: Num, bestLap: Option<Lap>)
    requires i <= |laps|
  {
    && lapTimes == LapTimes(laps[..i])
    && bestLapTime == TimeScan(laps, i).value
    && bestLap == OwnerLap(laps, TimeScan(laps, i).owner)
  }

  /** What the page does after the loop: the best lap, the best sectors and
      speeds (the sentinel shown as null), the average lap time and the
      variance of the lap times. The running values the loop ends with make
      up the summary of all the laps. */
  method Summarize(
    laps: seq<Lap>, lapTimes: seq<Num>, bestLapTime: Num, bestLap: Option<Lap>,
    bestS1Time: Nullable, bestS1LapNumber: Option<int>, bestS2Time: Nullable, bestS2LapNumber: Option<int>,
    bestS3Time: Nullable, bestS3LapNumber: Option<int>, bestTopSpeed: Nullable, bestTopSpeedLapNumber: Option<int>,
    bestKph: Nullable, bestKphLapNumber: Option<int>)
    returns (summary: Summary)
    requires |laps| > 0
    requires TracksTime(laps, |laps|, lapTimes, bestLapTime, bestLap)
    requires Tracks(laps, S1, |laps|, bestS1Time, bestS1LapNumber)
    requires Tracks(laps, S2, |laps|, bestS2Time, bestS2LapNumber)
    requires Tracks(laps, S3, |laps|, bestS3Time, bestS3LapNumber)
    requires Tracks(laps, TopSpeed, |laps|, bestTopSpeed, bestTopSpeedLapNumber)
    requires Tracks(laps, Kph, |laps|, bestKph, bestKphLapNumber)
    ensures summary == SummaryOf(laps)
  {
    var totalLapTime := Sum(lapTimes);
    var averageLapTime := DivCount(totalLapTime, |lapTimes|);
    var variance := DivCount(SquaredDeviations(lapTimes, averageLapTime), |lapTimes|);
    summary := Summary(
      BestLapOf(bestLapTime, bestLap),
      ReportOf(Lowest, bestS1Time, bestS1LapNumber),
      ReportOf(Lowest, bestS2Time, bestS2LapNumber),
      ReportOf(Lowest, bestS3Time, bestS3LapNumber),
      ReportOf(Highest, bestTopSpeed, bestTopSpeedLapNumber),
      ReportOf(Highest, bestKph, bestKphLapNumber),
      averageLapTime, variance);
    assert laps[..|laps|] == laps;
    TimeScanIsScan(laps, |laps|);
    ReportFromScan(laps, S1, bestS1Time, bestS1LapNumber);
    ReportFromScan(laps, S2, bestS2Time, bestS2LapNumber);
    ReportFromScan(laps, S3, bestS3Time, bestS3LapNumber);
    ReportFromScan(laps, TopSpeed, bestTopSpeed, bestTopSpeedLapNumber);
    ReportFromScan(laps, Kph, bestKph, bestKphLapNumber);
  }

  /** The running best of metric m after all the laps is what the page
      reports for m. */
  lemma ReportFromScan(laps: seq<Lap>, m: Metric, best: Nullable, lapNumber: Option<int>)
    requires Tracks(laps, m, |laps|, best, lapNumber)
    ensures Report(laps, m) == ReportOf(GoalOf(m), best, lapNumber)
  {
    MetricScanIsScan(laps, m, |laps|);
    assert Keys(laps, m)[..|laps|] == Keys(laps, m);
  }

  /** The running best of metric m after the first i laps, as the page
      holds it. */
  function MetricScan(laps: seq<Lap>, m: Metric, i: nat): Held
    requires i <= |laps|
  {
    if i == 0 then Held(Value(Sentinel(GoalOf(m))), None)
    else
      var h := MetricScan(laps, m, i - 1);
      if Beats(GoalOf(m), Key(laps[i - 1], m), ToNumber(h.value)) then Held(MetricOf(laps[i - 1], m), Some(i - 1))
      else h
  }

  /** The running best lap time after the first i laps. */
  function TimeScan(laps: seq<Lap>, i: nat): Best
    requires i <= |laps|
  {
    if i == 0 then Best(PosInf, None)
    else Step(Lowest, TimeScan(laps, i - 1), LapSeconds(laps[i - 1]), i - 1)
  }

  /** The running best of metric m after i laps, and its lap number. */
  predicate Tracks(laps: seq<Lap>, m: Metric, i: nat, best: Nullable, lapNumber: Option<int>)
    requires i <= |laps|
  {
    best == MetricScan(laps, m, i).value && lapNumber == OwnerNumber(laps, MetricScan(laps, m, i).owner)
  }

  /** The page's running best of metric m moves exactly as the scan of the
      compared numbers: it is held by the same lap, compares as that scan's
      best, and is that lap's own value (or the sentinel). */
  lemma {:induction false} MetricScanIsScan(laps: seq<Lap>, m: Metric, i: nat)
    requires i <= |laps|
    ensures var h, b := MetricScan(laps, m, i), Scan(GoalOf(m), Keys(laps, m)[..i]);
      && h.owner == b.owner && ToNumber(h.value) == b.value && h.value == HeldValue(laps, m, b.owner)
  {
    if i > 0 {
      MetricScanIsScan(laps, m, i - 1);
      var col := Keys(laps, m);
      ScanPrefix(GoalOf(m), col, i - 1);
      assert col[i - 1] == Key(laps[i - 1], m);
    }
  }

  lemma {:induction false} TimeScanIsScan(laps: seq<Lap>, i: nat)
    requires i <= |laps|
    ensures TimeScan(laps, i) == Scan(Lowest, LapTimes(laps[..i]))
  {
    if i > 0 {
      TimeScanIsScan(laps, i - 1);
      LapTimesPrefix(laps, i - 1);
      ScanSnocAt(LapTimes(laps[..i - 1]), LapSeconds(laps[i - 1]), TimeScan(laps, i - 1), i - 1);
    }
  }

  lemma ScanSnocAt(ts: seq<Num>, t: Num, b: Best, i: nat)
    requires b == Scan(Lowest, ts) && i == |ts|
    ensures Scan(Lowest, ts + [t]) == Step(Lowest, b, t, i)
  {
    ScanSnoc(Lowest, ts, t);
  }

  /** What the page reports for metric m. There is no lap number exactly
      when no lap's compared number beats the sentinel, and then no value
      either. Otherwise the lap number is that of the first lap k whose
      compared number no lap beats, and the value is lap k's own: null when
      its row holds `null`. */
  lemma ReportSpec(laps: seq<Lap>, m: Metric)
    ensures var r := Report(laps, m);
      r.lapNumber.None? <==> forall i :: 0 <= i < |laps| ==> !Beats(GoalOf(m), Key(laps[i], m), Sentinel(GoalOf(m)))
    ensures var r := Report(laps, m);
      r.lapNumber.None? ==> r.value.None?
    ensures var r := Report(laps, m);
      r.lapNumber.Some? ==> exists k :: (
        && 0 <= k < |laps| && r.lapNumber == Some(laps[k].lapNumber)
        && Beats(GoalOf(m), Key(laps[k], m), Sentinel(GoalOf(m)))
        && (forall i :: 0 <= i < |laps| ==> !Beats(GoalOf(m), Key(laps[i], m), Key(laps[k], m)))
        && (forall j :: 0 <= j < k ==> Key(laps[j], m) != Key(laps[k], m))
        && r.value == (if MetricOf(laps[k], m).Null? then None else Some(MetricOf(laps[k], m).n)))
  {
    var col := Keys(laps, m);
    assert forall i :: 0 <= i < |laps| ==> col[i] == Key(laps[i], m);
    ScanSpec(GoalOf(m), col);
    var b := Scan(GoalOf(m), col);
    if b.owner.Some? {
      var k := b.owner.value;
      assert col[k] == Key(laps[k], m);
    }
  }

  /** A `null` sector time compares as 0. When a sector's times are all
      positive or `null`, the first lap whose row holds `null` therefore
      keeps the best of that sector, and the page reports that sector's best
      time as null with that lap's number. */
  lemma NullSectorWins(laps: seq<Lap>, m: Metric, k: nat)
    requires GoalOf(m) == Lowest
    requires k < |laps| && MetricOf(laps[k], m).Null?
    requires forall j :: 0 <= j < k ==> MetricOf(laps[j], m).Value?
    requires forall j :: 0 <= j < |laps| ==>
      MetricOf(laps[j], m).Null? || (MetricOf(laps[j], m).n.Fin? && MetricOf(laps[j], m).n.v > 0.0)
    ensures Report(laps, m) == Reported(None, Some(laps[k].lapNumber))
  {
    var col := Keys(laps, m);
    assert forall i :: 0 <= i < |laps| ==> col[i] == Key(laps[i], m);
    ScanSpec(Lowest, col);
    var b := Scan(Lowest, col);
    assert col[k] == Fin(0.0);
    var o := b.owner.value;
    assert MetricOf(laps[o], m).Null?;
    assert o == k;
  }

  /** What the best-lap block promises about lap times ts of laps:
      the best lap time is never NaN and no lap is faster; it stays at
      +Infinity (with no lap details) exactly when no lap time is below
      +Infinity, and otherwise the details come from the first lap with that
      time. */
  predicate IsBestLap(laps: seq<Lap>, ts: seq<Num>, b: BestLapInfo)
    requires |ts| == |laps|
  {
    && !b.lapTime.NaN?
    && (forall i :: 0 <= i < |ts| ==> !Lt(ts[i], b.lapTime))
    && (b.lapTime == PosInf <==> forall i :: 0 <= i < |ts| ==> !Lt(ts[i], PosInf))
    && (b.lapTime == PosInf ==> b.lapNumber.None? && b.s1.None? && b.s2.None? && b.s3.None?)
    && (b.lapTime != PosInf ==> exists k :: (
        && 0 <= k < |ts| && ts[k] == b.lapTime
        && (forall j :: 0 <= j < k ==> ts[j] != b.lapTime)
        && b == BestLapOf(b.lapTime, Some(laps[k]))))
  }

  lemma BestLapSpec(laps: seq<Lap>)
    requires |laps| > 0
    ensures IsBestLap(laps, LapTimes(laps), SummaryOf(laps).bestLap)
  {
    var ts := LapTimes(laps);
    var r := Scan(Lowest, ts);
    assert SummaryOf(laps).bestLap == BestLapOf(r.value, OwnerLap(laps, r.owner));
    BestLapFacts(laps, ts, r, SummaryOf(laps).bestLap);
  }

  lemma BestLapFacts(laps: seq<Lap>, ts: seq<Num>, r: Best, b: BestLapInfo)
    requires |ts| == |laps| && r == Scan(Lowest, ts) && b == BestLapOf(r.value, OwnerLap(laps, r.owner))
    ensures IsBestLap(laps, ts, b)
  {
    ScanSpec(Lowest, ts);
  }

  /** With finite lap times, the average is never below the best lap time,
      and the variance is zero exactly when all lap times are equal. */
  lemma LapTimeStatistics(laps: seq<Lap>)
    requires |laps| > 0 && AllFinite(LapTimes(laps))
    ensures var s, ts := SummaryOf(laps), LapTimes(laps);
      && s.average.Fin? && s.bestLap.lapTime.Fin?
      && s.bestLap.lapTime.v <= s.average.v
    ensures var s, ts := SummaryOf(laps), LapTimes(laps);
      s.variance == Fin(0.0) <==> forall i :: 0 <= i < |ts| ==> ts[i] == ts[0]
  {
    var s := SummaryOf(laps);
    SummaryTimes(laps);
    TimeStatistics(LapTimes(laps), s.bestLap.lapTime, s.average, s.variance);
  }

  /** The time fields of the summary are the best of, the mean of and the
      variance of the lap times. */
  lemma SummaryTimes(laps: seq<Lap>)
    requires |laps| > 0
    ensures var s, ts := SummaryOf(laps), LapTimes(laps);
      && s.average == Mean(ts) && s.variance == Variance(ts)
      && s.bestLap.lapTime == Scan(Lowest, ts).value
  {
  }

  lemma TimeStatistics(ts: seq<Num>, best: Num, average: Num, variance: Num)
    requires |ts| > 0 && AllFinite(ts)
    requires best == Scan(Lowest, ts).value && average == Mean(ts) && variance == Variance(ts)
    ensures average.Fin? && best.Fin? && best.v <= average.v
    ensures variance == Fin(0.0) <==> forall i :: 0 <= i < |ts| ==> ts[i] == ts[0]
  {
    var worst := Scan(Highest, ts).value;
    ScanSpec(Lowest, ts);
    ScanSpec(Highest, ts);
    forall i | 0 <= i < |ts|
      ensures best.v <= ts[i].v <= worst.v
    {
      BestBounds(Lowest, ts, i);
      BestBounds(Highest, ts, i);
    }
    MeanBetween(ts, best.v, worst.v);
    VarianceZeroIffConstant(ts);
  }
}
