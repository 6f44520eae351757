/**
  The lap rows of the driver-laps deep-dive page and the "improvement versus
  the previous lap" columns the page adds to them before display.
 */
module LapRecords {
  import opened Wrappers
  import opened JsNumber
  import opened LapTiming

  /** The fields of a `laps` row that the page reads. The improvement fields
      are the ones the page overwrites; `null` is None. The numeric columns
      may be `null`. */
  datatype Lap = Lap(
    lapNumber: int,
    lapTime: string,
    s1: string,
    s2: string,
    s3: string,
    s1Seconds: Nullable,
    s2Seconds: Nullable,
    s3Seconds: Nullable,
    kph: Nullable,
    topSpeed: Nullable,
    lapImprovement: Option<Num>,
    s1Improvement: Option<Num>,
    s2Improvement: Option<Num>,
    s3Improvement: Option<Num>)

  /** The lap time in seconds, as the page reads it from the interval text. */
  function LapSeconds(lap: Lap): Num {
    IntervalToSeconds(lap.lapTime)
  }

  /** The two rows agree on every field except the four improvements. */
  predicate SameRecord(a: Lap, b: Lap) {
    && a.lapNumber == b.lapNumber && a.lapTime == b.lapTime
    && a.s1 == b.s1 && a.s2 == b.s2 && a.s3 == b.s3
    && a.s1Seconds == b.s1Seconds && a.s2Seconds == b.s2Seconds && a.s3Seconds == b.s3Seconds
    && a.kph == b.kph && a.topSpeed == b.topSpeed
  }

  /** One row of the improvements `map`: the first lap gets four nulls, any
      other lap the previous lap's value minus its own, a `null` sector
      counting as 0. */
  function Improved(lap: Lap, prev: Option<Lap>): Lap {
    match prev
    case None =>
      lap.(lapImprovement := None, s1Improvement := None, s2Improvement := None, s3Improvement := None)
    case Some(p) =>
      lap.(lapImprovement := Some(Sub(LapSeconds(p), LapSeconds(lap))),
           s1Improvement := Some(Sub(ToNumber(p.s1Seconds), ToNumber(lap.s1Seconds))),
           s2Improvement := Some(Sub(ToNumber(p.s2Seconds), ToNumber(lap.s2Seconds))),
           s3Improvement := Some(Sub(ToNumber(p.s3Seconds), ToNumber(lap.s3Seconds))))
  }

  /** `allLaps.map((currentLap, index) => ...)`. */
  function WithImprovements(laps: seq<Lap>): (r: seq<Lap>)
    ensures |r| == |laps|
  {
    seq(|laps|, i requires 0 <= i < |laps| => ImprovedAt(laps, i))
  }

  /** Row i of the improvements `map`, with lap i - 1 as its previous lap. */
  function ImprovedAt(laps: seq<Lap>, i: nat): Lap
    requires i < |laps|
  {
    Improved(laps[i], if i == 0 then None else Some(laps[i - 1]))
  }

  /** The rows keep their order and every field but the improvements, and
      the first lap has no improvements. */
  lemma WithImprovementsKeepsRows(laps: seq<Lap>)
    ensures |WithImprovements(laps)| == |laps|
    ensures forall i :: 0 <= i < |laps| ==> SameRecord(WithImprovements(laps)[i], laps[i])
    ensures |laps| > 0 ==>
      var first := WithImprovements(laps)[0];
      first.lapImprovement.None? && first.s1Improvement.None? && first.s2Improvement.None? && first.s3Improvement.None?
  {
    var r := WithImprovements(laps);
    forall i | 0 <= i < |laps|
      ensures SameRecord(r[i], laps[i])
    {
      KeepsRowAt(laps, i);
    }
  }

  lemma KeepsRowAt(laps: seq<Lap>, i: nat)
    requires i < |laps|
    ensures SameRecord(WithImprovements(laps)[i], laps[i])
  {
    assert WithImprovements(laps)[i] == ImprovedAt(laps, i);
    ImprovedKeepsRow(laps[i], if i == 0 then None else Some(laps[i - 1]));
  }

  lemma ImprovedKeepsRow(lap: Lap, prev: Option<Lap>)
    ensures SameRecord(Improved(lap, prev), lap)
  {
  }

  /** Every lap after the first has all four improvements, each the previous
      lap's value minus the current one (positive means faster). */
  lemma WithImprovementsDeltas(laps: seq<Lap>)
    ensures forall i :: 0 < i < |laps| ==>
      var r, p, c := WithImprovements(laps)[i], laps[i - 1], laps[i];
      && r.lapImprovement == Some(Sub(LapSeconds(p), LapSeconds(c)))
      && r.s1Improvement == Some(Sub(ToNumber(p.s1Seconds), ToNumber(c.s1Seconds)))
      && r.s2Improvement == Some(Sub(ToNumber(p.s2Seconds), ToNumber(c.s2Seconds)))
      && r.s3Improvement == Some(Sub(ToNumber(p.s3Seconds), ToNumber(c.s3Seconds)))
  {
    var r := WithImprovements(laps);
    forall i | 0 < i < |laps|
      ensures r[i] == Improved(laps[i], Some(laps[i - 1]))
    {
    }
  }

  /** A lap's improvement is positive exactly when it was faster than the
      lap before it (a `null` sector taken as 0 seconds). */
  lemma ImprovementMeansFaster(laps: seq<Lap>, i: nat)
    requires 0 < i < |laps|
    ensures WithImprovements(laps)[i].lapImprovement.Some?
    ensures Gt(WithImprovements(laps)[i].lapImprovement.value, Fin(0.0)) <==> Lt(LapSeconds(laps[i]), LapSeconds(laps[i - 1]))
    ensures Gt(WithImprovements(laps)[i].s1Improvement.value, Fin(0.0)) <==>
      Lt(ToNumber(laps[i].s1Seconds), ToNumber(laps[i - 1].s1Seconds))
    ensures Gt(WithImprovements(laps)[i].s2Improvement.value, Fin(0.0)) <==>
      Lt(ToNumber(laps[i].s2Seconds), ToNumber(laps[i - 1].s2Seconds))
    ensures Gt(WithImprovements(laps)[i].s3Improvement.value, Fin(0.0)) <==>
      Lt(ToNumber(laps[i].s3Seconds), ToNumber(laps[i - 1].s3Seconds))
  {
    SubPositive(LapSeconds(laps[i - 1]), LapSeconds(laps[i]));
    SubPositive(ToNumber(laps[i - 1].s1Seconds), ToNumber(laps[i].s1Seconds));
    SubPositive(ToNumber(laps[i - 1].s2Seconds), ToNumber(laps[i].s2Seconds));
    SubPositive(ToNumber(laps[i - 1].s3Seconds), ToNumber(laps[i].s3Seconds));
  }

  /** The lap times in seconds, in lap order (`lapTimesInSeconds`). */
  function LapTimes(laps: seq<Lap>): (ts: seq<Num>)
    ensures |ts| == |laps|
  {
    if laps == [] then [] else LapTimes(laps[..|laps| - 1]) + [LapSeconds(laps[|laps| - 1])]
  }

  /** The times of a longer prefix add the next lap's time at the end. */
  lemma LapTimesPrefix(laps: seq<Lap>, i: nat)
    requires i < |laps|
    ensures LapTimes(laps[..i + 1]) == LapTimes(laps[..i]) + [LapSeconds(laps[i])]
  {
    assert laps[..i + 1][..i] == laps[..i];
  }

  /** Entry k of the lap times is lap k's time in seconds. */
  lemma {:induction false} LapTimesAt(laps: seq<Lap>, k: nat)
    requires k < |laps|
    ensures LapTimes(laps)[k] == LapSeconds(laps[k])
    decreases |laps|
  {
    var init := laps[..|laps| - 1];
    if k < |laps| - 1 {
      LapTimesAt(init, k);
    }
  }
}
