/**
  The weather card of the driver-laps deep-dive page: the race's weather
  samples averaged field by field (rounded to one decimal), and a rain status
  from the sum of the rain column.
 */
module WeatherSummary {
  import opened Wrappers
  import opened JsNumber
  import opened LapStats

  /** One `weather` row as the page selects it; any column may be `null`. */
  datatype WeatherRow = WeatherRow(
    airTemp: Nullable, trackTemp: Nullable, humidity: Nullable, windSpeed: Nullable, rain: Nullable,
    pressure: Nullable)

  datatype Field = AirTemp | TrackTemp | Humidity | WindSpeed | Rain | Pressure

  /** The number `sum + row.f` adds for column f: `null` adds 0. */
  function FieldOf(row: WeatherRow, f: Field): Num {
    match f
    case AirTemp => ToNumber(row.airTemp)
    case TrackTemp => ToNumber(row.trackTemp)
    case Humidity => ToNumber(row.humidity)
    case WindSpeed => ToNumber(row.windSpeed)
    case Rain => ToNumber(row.rain)
    case Pressure => ToNumber(row.pressure)
  }

  function Column(rows: seq<WeatherRow>, f: Field): (vs: seq<Num>)
    ensures |vs| == |rows|
  {
    seq(|rows|, i requires 0 <= i < |rows| => FieldOf(rows[i], f))
  }

  /** `data.reduce((sum, row) => sum + row.f, 0)`. */
  function Total(rows: seq<WeatherRow>, f: Field): Num {
    Sum(Column(rows, f))
  }

  /** `parseFloat((total / data.length).toFixed(1))`. */
  function Average(rows: seq<WeatherRow>, f: Field): Num
    requires |rows| > 0
  {
    RoundTenth(DivCount(Total(rows, f), |rows|))
  }

  /** "No Rain" unless the rain total is above zero; then "Constant Rain"
      when it equals the number of samples and "Intermittent Rain" otherwise.
      The three statuses split the possible totals. */
  function RainStatus(totalRain: Num, count: nat): (status: string)
    ensures status == "No Rain" <==> !Gt(totalRain, Fin(0.0))
    ensures status == "Constant Rain" <==> count > 0 && totalRain == Fin(count as real)
    ensures status == "Intermittent Rain" <==> Gt(totalRain, Fin(0.0)) && totalRain != Fin(count as real)
  {
    if Gt(totalRain, Fin(0.0)) then
      if totalRain == Fin(count as real) then "Constant Rain" else "Intermittent Rain"
    else "No Rain"
  }

  datatype Weather = Weather(
    avgAirTemp: Num, avgTrackTemp: Num, avgHumidity: Num, avgWindSpeed: Num, avgPressure: Num,
    rainStatus: string)

  /** The card's data: null when the race has no weather samples. */
  function WeatherOf(rows: seq<WeatherRow>): Option<Weather> {
    if |rows| == 0 then None
    else Some(Weather(
      Average(rows, AirTemp), Average(rows, TrackTemp), Average(rows, Humidity),
      Average(rows, WindSpeed), Average(rows, Pressure),
      RainStatus(Total(rows, Rain), |rows|)))
  }

  /** The weather card as the page shows it: the summary and the error
      message of the last query. */
  datatype WeatherCard = WeatherCard(weather: Option<Weather>, error: Option<string>)

  /** `fetchWeatherData`: with no race the summary is cleared and the error
      left as it was; otherwise the error is cleared and the query answered.
      A failed query shows its message and no summary; rows give their
      summary, none when `data` is null or empty. */
  function FetchWeather(selectedRaceId: string, card: WeatherCard, answer: Query<WeatherRow>): WeatherCard {
    if selectedRaceId == "" then card.(weather := None)
    else
      match answer
      case Failed(message) => WeatherCard(None, Some(message))
      case Rows(data) => WeatherCard(if data.Some? then WeatherOf(data.value) else None, None)
  }

  /** A summary is shown exactly when a race is selected and its query
      returns at least one row, and never together with an error; a failed
      query shows its own message, and with no race the previous error
      stays. */
  lemma FetchWeatherSpec(selectedRaceId: string, card: WeatherCard, answer: Query<WeatherRow>)
    ensures var c := FetchWeather(selectedRaceId, card, answer);
      c.weather.Some? <==> selectedRaceId != "" && answer.Rows? && answer.data.Some? && |answer.data.value| > 0
    ensures var c := FetchWeather(selectedRaceId, card, answer);
      c.weather.Some? ==> c.error.None? && c.weather == WeatherOf(answer.data.value)
    ensures var c := FetchWeather(selectedRaceId, card, answer);
      selectedRaceId != "" && answer.Failed? ==> c.error == Some(answer.message) && c.weather.None?
    ensures var c := FetchWeather(selectedRaceId, card, answer);
      selectedRaceId == "" ==> c.error == card.error && c.weather.None?
  {
    if selectedRaceId != "" && answer.Rows? && answer.data.Some? {
      WeatherSpec(answer.data.value, Rain);
    }
  }

  /** No samples give no card; otherwise each finite average is within a
      twentieth of the field's sum divided by the number of samples. */
  lemma WeatherSpec(rows: seq<WeatherRow>, f: Field)
    ensures WeatherOf(rows).None? <==> |rows| == 0
    ensures |rows| > 0 && Total(rows, f).Fin? ==>
      var mean := Total(rows, f).v / |rows| as real;
      Average(rows, f).Fin? && -0.05 <= Average(rows, f).v - mean <= 0.05
  {
    if |rows| > 0 && Total(rows, f).Fin? {
      RoundTenthClose(Total(rows, f).v / |rows| as real);
    }
  }

  /** The number of samples flagged as raining. */
  function Raining(rows: seq<WeatherRow>): (n: nat)
    ensures n <= |rows|
  {
    if rows == [] then 0
    else Raining(rows[..|rows| - 1]) + (if FieldOf(rows[|rows| - 1], Rain) == Fin(1.0) then 1 else 0)
  }

  predicate RainFlags(rows: seq<WeatherRow>) {
    forall i :: 0 <= i < |rows| ==> FieldOf(rows[i], Rain) == Fin(0.0) || FieldOf(rows[i], Rain) == Fin(1.0)
  }

  /** With 0/1 rain flags the rain total counts the raining samples. */
  lemma {:induction false} RainTotalCounts(rows: seq<WeatherRow>)
    requires RainFlags(rows)
    ensures Total(rows, Rain) == Fin(Raining(rows) as real)
  {
    if rows != [] {
      var init := rows[..|rows| - 1];
      assert RainFlags(init) by {
        forall i | 0 <= i < |init| ensures init[i] == rows[i] { }
      }
      RainTotalCounts(init);
      assert Column(rows, Rain)[..|rows| - 1] == Column(init, Rain);
    }
  }

  /** No sample is flagged as raining exactly when the count is zero. */
  lemma {:induction false} RainingNone(rows: seq<WeatherRow>)
    requires RainFlags(rows)
    ensures Raining(rows) == 0 <==> forall i :: 0 <= i < |rows| ==> FieldOf(rows[i], Rain) == Fin(0.0)
  {
    if rows != [] {
      var init := rows[..|rows| - 1];
      assert forall i :: 0 <= i < |init| ==> init[i] == rows[i];
      RainingNone(init);
    }
  }

  /** Every sample is flagged as raining exactly when the count is the
      number of samples. */
  lemma {:induction false} RainingAll(rows: seq<WeatherRow>)
    requires RainFlags(rows)
    ensures Raining(rows) == |rows| <==> forall i :: 0 <= i < |rows| ==> FieldOf(rows[i], Rain) == Fin(1.0)
  {
    if rows != [] {
      var init := rows[..|rows| - 1];
      assert forall i :: 0 <= i < |init| ==> init[i] == rows[i];
      RainingAll(init);
    }
  }

  /** With 0/1 rain flags: "No Rain" when no sample rains, "Constant Rain"
      when a non-empty set of samples all rain, "Intermittent Rain" when some
      but not all do. */
  lemma RainStatusOfFlags(rows: seq<WeatherRow>)
    requires |rows| > 0 && RainFlags(rows)
    ensures var s := WeatherOf(rows).value.rainStatus;
      && (s == "No Rain" <==> forall i :: 0 <= i < |rows| ==> FieldOf(rows[i], Rain) == Fin(0.0))
      && (s == "Constant Rain" <==> forall i :: 0 <= i < |rows| ==> FieldOf(rows[i], Rain) == Fin(1.0))
  {
    RainTotalCounts(rows);
    RainingNone(rows);
    RainingAll(rows);
  }
}
