/**
  The race analysis page: the drivers picked in a multiple select, the
  per-distance chart rows that put the selected drivers' speed, throttle or
  brake samples side by side, the race lines handed to the map, the reset
  when another race is chosen, and the colour of a driver's line.
 */
module TelemetryAnalysis {
  import opened Wrappers

  // ---------------------------------------------------------------------
  // The driver select

  /** An `<option>` of the driver select. */
  datatype SelectOption = SelectOption(value: string, selected: bool)

  /** The values of the selected options, in option order. */
  function SelectedValues(options: seq<SelectOption>): seq<string>
    decreases |options|
  {
    if options == [] then []
    else
      var last := options[|options| - 1];
      SelectedValues(options[..|options| - 1]) + (if last.selected then [last.value] else [])
  }

  /** `handleDriverChange`: the index loop pushing the value of every
      selected option. */
  method HandleDriverChange(options: seq<SelectOption>) returns (value: seq<string>)
    ensures value == SelectedValues(options)
  {
    value := [];
    var i := 0;
    var l := |options|;
    while i < l
      invariant 0 <= i <= l == |options|
      invariant value == SelectedValues(options[..i])
    {
      assert options[..i + 1][..i] == options[..i];
      if options[i].selected {
        value := value + [options[i].value];
      }
      i := i + 1;
    }
    assert options[..i] == options;
  }

  /** The number of selected options. */
  function CountSelected(options: seq<SelectOption>): nat
    decreases |options|
  {
    if options == [] then 0
    else CountSelected(options[..|options| - 1]) + (if options[|options| - 1].selected then 1 else 0)
  }

  /** The picked drivers are exactly the values of the selected options: a
      value is picked iff some selected option carries it, and there is one
      entry per selected option. */
  lemma {:induction false} SelectedValuesSpec(options: seq<SelectOption>)
    ensures forall x :: x in SelectedValues(options) <==>
      exists i :: 0 <= i < |options| && options[i].selected && options[i].value == x
    ensures |SelectedValues(options)| == CountSelected(options) <= |options|
    decreases |options|
  {
    if options != [] {
      var init := options[..|options| - 1];
      SelectedValuesSpec(init);
      assert forall i :: 0 <= i < |init| ==> init[i] == options[i];
    }
  }

  /** The picked drivers keep the option order: the options of a first part
      come before those of a second part. */
  lemma {:induction false} SelectedValuesAppend(a: seq<SelectOption>, b: seq<SelectOption>)
    ensures SelectedValues(a + b) == SelectedValues(a) + SelectedValues(b)
    decreases |b|
  {
    if b == [] {
      assert a + b == a;
    } else {
      var init := b[..|b| - 1];
      SelectedValuesAppend(a, init);
      assert (a + b)[..|a + b| - 1] == a + init;
    }
  }

  // ---------------------------------------------------------------------
  // Driver colours

  /** An entry of `availableDrivers`. */
  datatype DriverInfo = DriverInfo(id: string, name: string, color: string)

  const AvailableDrivers: seq<DriverInfo> := [
    DriverInfo("driver1", "Driver A", "#E30613"),
    DriverInfo("driver2", "Driver B", "#FFFFFF"),
    DriverInfo("driver3", "Driver C", "#00FF00"),
    DriverInfo("driver4", "Driver D", "#00FFFF"),
    DriverInfo("driver5", "Driver E", "#FF00FF"),
    DriverInfo("driver6", "Driver F", "#FFFF00"),
    DriverInfo("driver7", "Driver G", "#800000"),
    DriverInfo("driver8", "Driver H", "#008000"),
    DriverInfo("driver9", "Driver I", "#000080"),
    DriverInfo("driver10", "Driver J", "#808000")
  ]

  /** The colour used when a driver is not listed (or has no colour). */
  const FallbackColor: string := "#CCCCCC"

  /** `drivers.find(d => d.id === driverId)?.color || '#CCCCCC'`: the colour
      of the first entry with the id, unless there is none or its colour is
      empty. */
  function ColorIn(drivers: seq<DriverInfo>, driverId: string): (c: string)
    ensures (forall i :: 0 <= i < |drivers| ==> drivers[i].id != driverId) ==> c == FallbackColor
    ensures forall i ::
      (0 <= i < |drivers| && drivers[i].id == driverId && forall j :: 0 <= j < i ==> drivers[j].id != driverId) ==>
        c == if drivers[i].color != "" then drivers[i].color else FallbackColor
    decreases |drivers|
  {
    if drivers == [] then FallbackColor
    else if drivers[0].id == driverId then (if drivers[0].color != "" then drivers[0].color else FallbackColor)
    else ColorIn(drivers[1..], driverId)
  }

  /** `getDriverColor(driverId)`: an id that is not one of the ten listed
      drivers is drawn grey. */
  function GetDriverColor(driverId: string): (c: string)
    ensures (forall i :: 0 <= i < |AvailableDrivers| ==> AvailableDrivers[i].id != driverId) ==> c == FallbackColor
  {
    ColorIn(AvailableDrivers, driverId)
  }

  // ---------------------------------------------------------------------
  // Chart rows

  /** One telemetry sample: where on the lap and the value there. */
  datatype Sample = Sample(distance: real, value: real)

  /** A driver's data for the selected lap. */
  datatype DriverTelemetry = DriverTelemetry(
    speed: seq<Sample>, throttle: seq<Sample>, brake: seq<Sample>, raceLines: seq<(real, real)>)

  /** The three charts. */
  datatype Channel = Speed | Throttle | Brake

  function Series(t: DriverTelemetry, c: Channel): seq<Sample> {
    match c
    case Speed => t.speed
    case Throttle => t.throttle
    case Brake => t.brake
  }

  /** A chart row: the object with a `distance` key and one key per
      selected driver; an undefined value is `None`. */
  type Row = map<string, Option<real>>

  /** `currentLapData.drivers[driverId]?.<channel>[index]?.value`. */
  function ValueAt(drivers: map<string, DriverTelemetry>, driverId: string, c: Channel, index: nat): (v: Option<real>)
    ensures v.Some? <==> driverId in drivers && index < |Series(drivers[driverId], c)|
    ensures v.Some? ==> v.value == Series(drivers[driverId], c)[index].value
  {
    if driverId in drivers && index < |Series(drivers[driverId], c)| then
      Some(Series(drivers[driverId], c)[index].value)
    else None
  }

  /** The row for sample `index` once the drivers `selected` have been set
      into it in order. */
  function RowOf(distance: real, drivers: map<string, DriverTelemetry>, selected: seq<string>, c: Channel, index: nat): Row
    decreases |selected|
  {
    if selected == [] then map["distance" := Some(distance)]
    else
      var d := selected[|selected| - 1];
      RowOf(distance, drivers, selected[..|selected| - 1], c, index)[d := ValueAt(drivers, d, c, index)]
  }

  /** The `forEach` that fills one row. */
  method BuildRow(distance: real, drivers: map<string, DriverTelemetry>, selected: seq<string>, c: Channel, index: nat)
    returns (row: Row)
    ensures row == RowOf(distance, drivers, selected, c, index)
  {
    row := map["distance" := Some(distance)];
    for i := 0 to |selected|
      invariant row == RowOf(distance, drivers, selected[..i], c, index)
    {
      assert selected[..i + 1][..i] == selected[..i];
      row := row[selected[i] := ValueAt(drivers, selected[i], c, index)];
    }
    assert selected[..|selected|] == selected;
  }

  /** A row has the `distance` key and a key per selected driver and no
      other; each selected driver's entry is that driver's value at the same
      index (undefined when the driver has no data or a shorter series); the
      distance is the sample's unless a selected id is "distance". */
  lemma {:induction false} RowOfSpec(distance: real, drivers: map<string, DriverTelemetry>, selected: seq<string>, c: Channel, index: nat)
    ensures RowOf(distance, drivers, selected, c, index).Keys == {"distance"} + set d | d in selected
    ensures forall d :: d in selected ==> RowOf(distance, drivers, selected, c, index)[d] == ValueAt(drivers, d, c, index)
    ensures "distance" !in selected ==> RowOf(distance, drivers, selected, c, index)["distance"] == Some(distance)
    decreases |selected|
  {
    if selected != [] {
      var init := selected[..|selected| - 1];
      RowOfSpec(distance, drivers, init, c, index);
      assert selected == init + [selected[|selected| - 1]];
      assert forall d :: d in selected <==> d in init || d == selected[|selected| - 1];
    }
  }

  /** `telemetryData.<channel>`: one row per sample of the first selected
      driver's series, or `[]` when no driver is selected or the first has
      no data. */
  function Pivot(drivers: map<string, DriverTelemetry>, selected: seq<string>, c: Channel): (rows: seq<Row>)
    ensures selected == [] || selected[0] !in drivers ==> rows == []
    ensures selected != [] && selected[0] in drivers ==> |rows| == |Series(drivers[selected[0]], c)|
  {
    if selected == [] || selected[0] !in drivers then []
    else
      var first := Series(drivers[selected[0]], c);
      seq(|first|, index requires 0 <= index < |first| => RowOf(first[index].distance, drivers, selected, c, index))
  }

  /** Each chart row carries the first driver's distance at that index and,
      for every selected driver, that driver's value at the same index, or
      undefined when the driver is missing or its series is shorter. */
  lemma PivotRows(drivers: map<string, DriverTelemetry>, selected: seq<string>, c: Channel, k: nat)
    requires selected != [] && selected[0] in drivers && k < |Series(drivers[selected[0]], c)|
    requires "distance" !in selected
    ensures var row := Pivot(drivers, selected, c)[k];
      && "distance" in row && row["distance"] == Some(Series(drivers[selected[0]], c)[k].distance)
      && forall d :: d in selected ==> d in row && row[d] == ValueAt(drivers, d, c, k)
  {
    RowOfSpec(Series(drivers[selected[0]], c)[k].distance, drivers, selected, c, k);
  }

  // ---------------------------------------------------------------------
  // Race lines and the race select

  /** `raceLinesForMap`: the `reduce` that sets each selected driver's race
      line, or `[]` when the driver has none. */
  method RaceLinesForMap(drivers: map<string, DriverTelemetry>, selected: seq<string>)
    returns (acc: map<string, seq<(real, real)>>)
    ensures acc.Keys == set d | d in selected
    ensures forall d :: d in selected ==> acc[d] == if d in drivers then drivers[d].raceLines else []
  {
    acc := map[];
    for i := 0 to |selected|
      invariant acc.Keys == set d | d in selected[..i]
      invariant forall d :: d in selected[..i] ==> acc[d] == if d in drivers then drivers[d].raceLines else []
    {
      assert forall d :: d in selected[..i + 1] <==> d in selected[..i] || d == selected[i];
      acc := acc[selected[i] := if selected[i] in drivers then drivers[selected[i]].raceLines else []];
    }
    assert selected[..|selected|] == selected;
  }

  /** The page's selection. */
  datatype Selection = Selection(race: string, lap: string, drivers: seq<string>)

  /** `handleRaceChange`: the new race, with the lap and the drivers back to
      their initial values. */
  function HandleRaceChange(s: Selection, race: string): (t: Selection)
    ensures t.race == race && t.lap == "lap1" && t.drivers == ["driver1", "driver2"]
  {
    Selection(race, "lap1", ["driver1", "driver2"])
  }

  /** After a race change the selection no longer depends on the previous
      one, and both reset drivers are listed drivers with their own colour. */
  lemma RaceChangeResets(s1: Selection, s2: Selection, race: string)
    ensures HandleRaceChange(s1, race) == HandleRaceChange(s2, race)
    ensures forall d :: d in HandleRaceChange(s1, race).drivers ==> GetDriverColor(d) != FallbackColor
  {
    assert GetDriverColor("driver1") == "#E30613";
    assert GetDriverColor("driver2") == "#FFFFFF";
  }
}
