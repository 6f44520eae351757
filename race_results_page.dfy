/**
  The race results page: a year select listing the years from the current
  one back to 1974, the races of the picked year (those dated from its
  first of January up to, not including, the next one), the results of the
  picked race with the joined driver's number or "N/A", and the duration
  labels shown without their "PT" and in lower case. The query answers are
  inputs; the current year is given.
 */
module RaceResultsPage {
  import opened Wrappers
  import opened JsText

  // ---------------------------------------------------------------------
  // The year select

  /** The earliest year offered. */
  const FirstYear: int := 1974

  /** `Array.from({ length: currentYear - 1974 + 1 }, (_, i) => currentYear - i)`;
      a negative length gives no year. */
  function Years(currentYear: int): (years: seq<int>)
    ensures |years| == if currentYear >= FirstYear then currentYear - FirstYear + 1 else 0
    ensures forall i :: 0 <= i < |years| ==> years[i] == currentYear - i
  {
    var n := if currentYear >= FirstYear then currentYear - FirstYear + 1 else 0;
    seq(n, i requires 0 <= i < n => currentYear - i)
  }

  /** The select lists every year from 1974 to the current one, newest
      first, each once: it starts at the current year and ends at 1974. */
  lemma YearsSpec(currentYear: int)
    ensures forall y :: y in Years(currentYear) <==> FirstYear <= y <= currentYear
    ensures forall i, j :: 0 <= i < j < |Years(currentYear)| ==> Years(currentYear)[i] > Years(currentYear)[j]
    ensures currentYear >= FirstYear ==>
      Years(currentYear)[0] == currentYear && Years(currentYear)[|Years(currentYear)| - 1] == FirstYear
  {
    var years := Years(currentYear);
    forall y | FirstYear <= y <= currentYear
      ensures y in years
    {
      assert years[currentYear - y] == y;
    }
  }

  // ---------------------------------------------------------------------
  // The date window of a year

  /** A calendar date as the `date` column holds it. */
  datatype Date = Date(year: int, month: int, day: int)

  predicate ValidDate(d: Date) {
    1 <= d.month <= 12 && 1 <= d.day <= 31
  }

  /** Calendar order. */
  predicate Before(a: Date, b: Date) {
    a.year < b.year || (a.year == b.year && (a.month < b.month || (a.month == b.month && a.day < b.day)))
  }

  /** `.gte('date', `${year}-01-01`).lt('date', `${year + 1}-01-01`)`. */
  predicate InYearWindow(d: Date, year: int) {
    !Before(d, Date(year, 1, 1)) && Before(d, Date(year + 1, 1, 1))
  }

  /** A date is in the window of a year exactly when it falls in that year. */
  lemma YearWindowSpec(d: Date, year: int)
    requires ValidDate(d)
    ensures InYearWindow(d, year) <==> d.year == year
  {
  }

  /** The text of a bound: `${year}-01-01`. */
  function BoundText(year: int): string {
    IntToString(year) + "-01-01"
  }

  /** A date written `YYYY-MM-DD`. */
  function IsoText(d: Date): string
    requires 0 <= d.year && 0 <= d.month && 0 <= d.day
  {
    PadStart(NatToString(d.year), 4, '0') + "-" + PadStart(NatToString(d.month), 2, '0') + "-" +
      PadStart(NatToString(d.day), 2, '0')
  }

  lemma FourDigits(n: nat)
    requires 1000 <= n <= 9999
    ensures |NatToString(n)| == 4
  {
    assert |NatToString(n / 1000)| == 1;
    assert |NatToString(n / 100)| == 2 by {
      assert (n / 100) / 10 == n / 1000;
    }
    assert |NatToString(n / 10)| == 3 by {
      assert (n / 10) / 10 == n / 100;
    }
  }

  /** For a four-digit year both bounds are the first of January written
      as the `date` column writes it. */
  lemma BoundsAreJanuaryFirst(year: int)
    requires 1000 <= year && year + 1 <= 9999
    ensures BoundText(year) == IsoText(Date(year, 1, 1))
    ensures BoundText(year + 1) == IsoText(Date(year + 1, 1, 1))
  {
    FourDigits(year);
    FourDigits(year + 1);
    assert PadStart(NatToString(1), 2, '0') == "01";
  }

  // ---------------------------------------------------------------------
  // Query answers and results

  /** A row of `races`. */
  datatype RaceRow = RaceRow(id: string, name: string, date: Date)

  /** The `drivers(number)` join of a result. */
  datatype JoinedDriver = JoinedDriver(number: Option<int>)

  /** A row of `race_results` as the query returns it. */
  datatype StoredResult = StoredResult(
    id: string, position: int, vehicle: string, classType: string, laps: int,
    elapsedTime: Option<string>, gapToFirst: Option<string>, bestLapTime: Option<string>,
    bestLapSpeedKph: Option<real>, drivers: Option<JoinedDriver>)

  /** `driver_number`: the joined number (which may be `null`), or 'N/A'. */
  datatype DriverNumber = Number(value: Option<int>) | NotAvailable

  /** A result as the page keeps it: the row spread, plus `driver_number`. */
  datatype RaceResult = RaceResult(row: StoredResult, driverNumber: DriverNumber)

  /** `{ ...result, driver_number: result.drivers ? result.drivers.number : 'N/A' }`. */
  function WithDriverNumber(result: StoredResult): (r: RaceResult)
    ensures r.row == result
    ensures r.driverNumber == NotAvailable <==> result.drivers.None?
    ensures result.drivers.Some? ==> r.driverNumber == Number(result.drivers.value.number)
  {
    RaceResult(result, if result.drivers.Some? then Number(result.drivers.value.number) else NotAvailable)
  }

  /** The races of a year: the query's date filter over the `races` rows
      (the ordering is left to the database). */
  function RacesOfYear(races: seq<RaceRow>, year: int): seq<RaceRow>
    decreases |races|
  {
    if races == [] then []
    else
      var last := races[|races| - 1];
      RacesOfYear(races[..|races| - 1], year) + (if InYearWindow(last.date, year) then [last] else [])
  }

  /** With valid dates, the races offered for a year are exactly the rows
      dated in that year. */
  lemma {:induction false} RacesOfYearSpec(races: seq<RaceRow>, year: int)
    requires forall i :: 0 <= i < |races| ==> ValidDate(races[i].date)
    ensures forall r :: r in RacesOfYear(races, year) <==> r in races && r.date.year == year
    decreases |races|
  {
    if races != [] {
      var init := races[..|races| - 1];
      RacesOfYearSpec(init, year);
      assert races == init + [races[|races| - 1]];
      YearWindowSpec(races[|races| - 1].date, year);
    }
  }

  // ---------------------------------------------------------------------
  // The page's state

  datatype PageState = PageState(
    selectedYear: int, selectedRace: string, racesList: seq<RaceRow>, raceResults: seq<RaceResult>,
    errorRaces: Option<string>, errorResults: Option<string>)

  /** The state when the page opens in `currentYear`. */
  function Initial(currentYear: int): (s: PageState)
    ensures s.selectedYear == currentYear && s.selectedRace == "" && s.raceResults == []
  {
    PageState(currentYear, "", [], [], None, None)
  }

  /** A year is picked: `fetchRaces` starts by clearing the error, the
      picked race and the results. */
  function ChangeYear(s: PageState, year: int): PageState {
    s.(selectedYear := year, selectedRace := "", raceResults := [], errorRaces := None)
  }

  /** The races query answers: on an error the list is emptied and the
      message kept, otherwise the list is `data || []`. */
  function RacesLoaded(s: PageState, q: Query<RaceRow>): PageState {
    match q
    case Failed(message) => s.(errorRaces := Some(message), racesList := [])
    case Rows(data) => s.(racesList := data.GetOr([]))
  }

  /** A race is picked in the select. */
  function ChangeRace(s: PageState, race: string): PageState {
    s.(selectedRace := race)
  }

  /** `fetchRaceResults`: with no race picked the results are cleared and no
      query is made; otherwise the error is cleared and the results are set
      from the query's answer. */
  function ResultsLoaded(s: PageState, q: Query<StoredResult>): PageState {
    if s.selectedRace == "" then s.(raceResults := [])
    else
      match q
      case Failed(message) => s.(errorResults := Some(message), raceResults := [])
      case Rows(data) => s.(errorResults := None, raceResults := MapAll(WithDriverNumber, data.GetOr([])))
  }

  /** After a year change, whatever the races query answers, no race is
      picked and, whatever the results query answers, there are no results;
      the races listed are those of the answer. */
  lemma YearChangeClears(s: PageState, year: int, races: Query<RaceRow>, results: Query<StoredResult>)
    ensures var t := ResultsLoaded(RacesLoaded(ChangeYear(s, year), races), results);
      && t.selectedYear == year && t.selectedRace == "" && t.raceResults == []
      && t.racesList == if races.Rows? then races.data.GetOr([]) else []
  {
  }

  /** With no race picked the results are empty and nothing else changes,
      whatever a query would have answered. */
  lemma NoRaceNoResults(s: PageState, q: Query<StoredResult>)
    requires s.selectedRace == ""
    ensures ResultsLoaded(s, q) == s.(raceResults := [])
  {
  }

  /** With a race picked and rows returned, there is one result per row, in
      the query's order, each carrying its row and 'N/A' exactly when the row
      has no joined driver. */
  lemma ResultsOfRows(s: PageState, data: seq<StoredResult>)
    requires s.selectedRace != ""
    ensures var rs := ResultsLoaded(s, Rows(Some(data))).raceResults;
      && |rs| == |data|
      && forall i :: 0 <= i < |data| ==>
        rs[i].row == data[i] && (rs[i].driverNumber == NotAvailable <==> data[i].drivers.None?)
  {
  }

  // ---------------------------------------------------------------------
  // Duration labels

  /** `value?.replace('PT', '').toLowerCase() || ''`. */
  function Label(value: Option<string>): string {
    if value.None? then "" else ToLower(ReplaceFirst(value.value, "PT", ""))
  }

  /** An ISO duration `PT…` is shown without its prefix, in lower case. */
  lemma LabelOfDuration(rest: string)
    ensures Label(Some("PT" + rest)) == ToLower(rest)
  {
    assert "PT" + rest == [] + "PT" + rest;
    ReplaceFirstAt([], "PT", rest, "");
    assert [] + "" + rest == rest;
  }

  /** Only the first "PT" goes: a value without one is only lower-cased. */
  lemma LabelWithoutPrefix(value: string)
    requires !Contains(value, "PT")
    ensures Label(Some(value)) == ToLower(value)
  {
    ReplaceFirstAbsent(value, "PT", "");
  }

  /** A lower-cased text has no capital letter. */
  lemma LowerHasNoCapital(s: string)
    ensures forall i :: 0 <= i < |ToLower(s)| ==> ToLower(s)[i] != 'P'
  {
  }

  /** Cleaning a label that is already clean changes nothing. */
  lemma LabelIdempotent(value: Option<string>)
    ensures Label(Some(Label(value))) == Label(value)
  {
    var l := Label(value);
    if value.Some? {
      LowerHasNoCapital(ReplaceFirst(value.value, "PT", ""));
      ContainsNeedsChar(l, "PT", 0);
    } else {
      assert !Contains(l, "PT");
    }
    ReplaceFirstAbsent(l, "PT", "");
    assert ToLower(l) == l;
  }

  /** A sample label: "PT83S" is shown as "83s". */
  lemma LabelExample(value: string, rest: string)
    requires rest == "83S" && value == "PT" + rest
    ensures Label(Some(value)) == "83s"
  {
    LabelOfDuration(rest);
    LowerExample(rest);
  }

  lemma LowerExample(rest: string)
    requires rest == "83S"
    ensures ToLower(rest) == "83s"
  {
    var l := ToLower(rest);
    assert l[0] == '8' && l[1] == '3' && l[2] == 's';
  }
}
