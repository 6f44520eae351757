/**
  The race map: each driver's path gets numbered markers, thinned so that a
  marker is placed only once a second has passed since the driver's last
  marker, each coloured by speed on a blue-to-red scale; the points picked
  on a chart are drawn on top; the map is centred on the first point of the
  first race line. Times are whole milliseconds (`new Date(timestamp).getTime()`
  is taken as given with each point).
 */
module RaceMap {
  import opened Wrappers

  // ---------------------------------------------------------------------
  // Speed colours

  /** The colour of a marker: grey for no data, blue for a constant speed,
      else `hsl(hue, 100%, 50%)`. */
  datatype SpeedColor = Grey | Blue | Hue(hue: real)

  /** `getColorForSpeed(speed, minSpeed, maxSpeed)`. */
  function GetColorForSpeed(speed: Option<real>, minSpeed: real, maxSpeed: real): (c: SpeedColor)
    ensures c == Grey <==> speed.None?
    ensures c == Blue <==> speed.Some? && maxSpeed - minSpeed == 0.0
    ensures c.Hue? ==> c.hue == (1.0 - (speed.value - minSpeed) / (maxSpeed - minSpeed)) * 240.0
  {
    if speed.None? then Grey
    else
      var speedRange := maxSpeed - minSpeed;
      if speedRange == 0.0 then Blue
      else
        var percentage := (speed.value - minSpeed) / speedRange;
        Hue((1.0 - percentage) * 240.0)
  }

  /** On a proper range the slowest speed is blue (hue 240), the fastest red
      (hue 0), every speed in between has a hue in between, and a faster
      speed never has a larger hue. */
  lemma SpeedScale(s1: real, s2: real, minSpeed: real, maxSpeed: real)
    requires minSpeed < maxSpeed
    ensures GetColorForSpeed(Some(minSpeed), minSpeed, maxSpeed) == Hue(240.0)
    ensures GetColorForSpeed(Some(maxSpeed), minSpeed, maxSpeed) == Hue(0.0)
    ensures minSpeed <= s1 <= maxSpeed ==> 0.0 <= GetColorForSpeed(Some(s1), minSpeed, maxSpeed).hue <= 240.0
    ensures s1 <= s2 ==> GetColorForSpeed(Some(s2), minSpeed, maxSpeed).hue <= GetColorForSpeed(Some(s1), minSpeed, maxSpeed).hue
  {
    var range := maxSpeed - minSpeed;
    FractionBounds(s1 - minSpeed, range);
    FractionMonotone(s1 - minSpeed, s2 - minSpeed, range);
  }

  lemma FractionBounds(x: real, range: real)
    requires range > 0.0
    ensures 0.0 <= x <= range ==> 0.0 <= x / range <= 1.0
  {
  }

  lemma FractionMonotone(x: real, y: real, range: real)
    requires range > 0.0
    ensures x <= y ==> x / range <= y / range
  {
  }

  // ---------------------------------------------------------------------
  // Marker thinning

  /** A point of a race line. */
  datatype TelemetryPoint = TelemetryPoint(lat: real, lon: real, timestamp: string, time: int, speed: Option<real>)

  /** A marker: the index of its point in the path, its number (the label shown) and colour. */
  datatype Marker = Marker(index: nat, number: nat, color: SpeedColor)

  /** `lastMarkerTime` once the first `n` points have been visited. */
  function LastMarkTime(path: seq<TelemetryPoint>, n: nat): Option<int>
    requires n <= |path|
    decreases n, 0
  {
    if n == 0 then None
    else if Marked(path, n - 1) then Some(path[n - 1].time)
    else LastMarkTime(path, n - 1)
  }

  /** Point `j` gets a marker: it is the first, or a second or more has
      passed since the last marker. */
  predicate Marked(path: seq<TelemetryPoint>, j: nat)
    requires j < |path|
    decreases j, 1
  {
    var last := LastMarkTime(path, j);
    last.None? || path[j].time - last.value >= 1000
  }

  /** The markers of the first `n` points. */
  function MarkersOf(path: seq<TelemetryPoint>, n: nat, minSpeed: real, maxSpeed: real): seq<Marker>
    requires n <= |path|
  {
    if n == 0 then []
    else
      var prev := MarkersOf(path, n - 1, minSpeed, maxSpeed);
      if Marked(path, n - 1) then
        prev + [Marker(n - 1, |prev| + 1, GetColorForSpeed(path[n - 1].speed, minSpeed, maxSpeed))]
      else prev
  }

  /** The `path.map` of one driver, with its own `lastMarkerTime` and
      `markerIndex`. */
  method ThinPath(path: seq<TelemetryPoint>, minSpeed: real, maxSpeed: real) returns (markers: seq<Marker>)
    ensures markers == MarkersOf(path, |path|, minSpeed, maxSpeed)
  {
    var lastMarkerTime: Option<int> := None;
    var markerIndex := 0;
    markers := [];
    for index := 0 to |path|
      invariant lastMarkerTime == LastMarkTime(path, index)
      invariant markers == MarkersOf(path, index, minSpeed, maxSpeed)
      invariant markerIndex == |markers|
    {
      var currentTime := path[index].time;
      if lastMarkerTime.None? || currentTime - lastMarkerTime.value >= 1000 {
        lastMarkerTime := Some(currentTime);
        markerIndex := markerIndex + 1;
        var color := GetColorForSpeed(path[index].speed, minSpeed, maxSpeed);
        markers := markers + [Marker(index, markerIndex, color)];
      }
    }
  }

  /** `lastMarkerTime` is the time of the last marker placed so far. */
  lemma {:induction false} LastMarkIsLastMarker(path: seq<TelemetryPoint>, n: nat, minSpeed: real, maxSpeed: real)
    requires n <= |path|
    ensures var ms := MarkersOf(path, n, minSpeed, maxSpeed);
      && (LastMarkTime(path, n).None? <==> ms == [])
      && (ms != [] ==> ms[|ms| - 1].index < n && LastMarkTime(path, n) == Some(path[ms[|ms| - 1].index].time))
  {
    if n > 0 {
      LastMarkIsLastMarker(path, n - 1, minSpeed, maxSpeed);
    }
  }

  /** Markers come in path order, labelled 1, 2, 3, … with no gap, each on
      a marked point; the first point always has one. */
  lemma {:induction false} MarkersSpec(path: seq<TelemetryPoint>, n: nat, minSpeed: real, maxSpeed: real)
    requires n <= |path|
    ensures var ms := MarkersOf(path, n, minSpeed, maxSpeed);
      && |ms| <= n
      && (forall k :: 0 <= k < |ms| ==> ms[k].number == k + 1 && ms[k].index < n && Marked(path, ms[k].index))
      && (forall k :: 0 < k < |ms| ==> ms[k - 1].index < ms[k].index)
      && (n > 0 ==> |ms| > 0 && ms[0].index == 0)
  {
    if n > 0 {
      MarkersSpec(path, n - 1, minSpeed, maxSpeed);
      LastMarkIsLastMarker(path, n - 1, minSpeed, maxSpeed);
      if n == 1 {
        assert LastMarkTime(path, 0).None?;
      }
    }
  }

  /** Markers sit on the path, and two successive markers are at least a
      second (1000 ms) apart. */
  lemma {:induction false} MarkersApart(path: seq<TelemetryPoint>, n: nat, minSpeed: real, maxSpeed: real)
    requires n <= |path|
    ensures var ms := MarkersOf(path, n, minSpeed, maxSpeed);
      && (forall k :: 0 <= k < |ms| ==> ms[k].index < n)
      && (forall k :: 0 < k < |ms| ==> path[ms[k].index].time - path[ms[k - 1].index].time >= 1000)
  {
    if n > 0 {
      MarkersApart(path, n - 1, minSpeed, maxSpeed);
      LastMarkIsLastMarker(path, n - 1, minSpeed, maxSpeed);
    }
  }

  /** A point gets a marker exactly when it is marked. */
  lemma {:induction false} MarkedHasMarker(path: seq<TelemetryPoint>, n: nat, minSpeed: real, maxSpeed: real, j: nat)
    requires j < n <= |path|
    ensures Marked(path, j) <==>
      exists k :: 0 <= k < |MarkersOf(path, n, minSpeed, maxSpeed)| && MarkersOf(path, n, minSpeed, maxSpeed)[k].index == j
  {
    var ms := MarkersOf(path, n, minSpeed, maxSpeed);
    MarkersSpec(path, n, minSpeed, maxSpeed);
    if j < n - 1 {
      MarkedHasMarker(path, n - 1, minSpeed, maxSpeed, j);
      var prev := MarkersOf(path, n - 1, minSpeed, maxSpeed);
      assert forall k :: 0 <= k < |prev| ==> ms[k] == prev[k];
      MarkersSpec(path, n - 1, minSpeed, maxSpeed);
    } else {
      MarkersSpec(path, n - 1, minSpeed, maxSpeed);
      if Marked(path, j) {
        assert ms[|ms| - 1].index == j;
      }
    }
  }

  /** The markers of every race line, each driver starting afresh. */
  method RenderMarkers(raceLines: seq<(string, seq<TelemetryPoint>)>, minSpeed: real, maxSpeed: real)
    returns (markers: seq<seq<Marker>>)
    ensures |markers| == |raceLines|
    ensures forall k :: 0 <= k < |raceLines| ==>
      markers[k] == MarkersOf(raceLines[k].1, |raceLines[k].1|, minSpeed, maxSpeed)
  {
    markers := [];
    for i := 0 to |raceLines|
      invariant |markers| == i
      invariant forall k :: 0 <= k < i ==> markers[k] == MarkersOf(raceLines[k].1, |raceLines[k].1|, minSpeed, maxSpeed)
    {
      var m := ThinPath(raceLines[i].1, minSpeed, maxSpeed);
      markers := markers + [m];
    }
  }

  // ---------------------------------------------------------------------
  // Selected points and the centre

  /** `telemetryPath.filter(p => selectedDataPoints.includes(p.timestamp))`. */
  function SelectedPointsToRender(telemetryPath: seq<TelemetryPoint>, selectedDataPoints: seq<string>): seq<TelemetryPoint>
    decreases |telemetryPath|
  {
    if telemetryPath == [] then []
    else
      var last := telemetryPath[|telemetryPath| - 1];
      SelectedPointsToRender(telemetryPath[..|telemetryPath| - 1], selectedDataPoints) +
        (if last.timestamp in selectedDataPoints then [last] else [])
  }

  /** The points drawn are exactly the path's points whose timestamp was
      picked, never more points than the path has. */
  lemma {:induction false} SelectedPointsMembers(path: seq<TelemetryPoint>, selected: seq<string>)
    ensures |SelectedPointsToRender(path, selected)| <= |path|
    ensures forall p :: p in SelectedPointsToRender(path, selected) <==> p in path && p.timestamp in selected
    decreases |path|
  {
    if path != [] {
      var init := path[..|path| - 1];
      SelectedPointsMembers(init, selected);
      assert path == init + [path[|path| - 1]];
    }
  }

  /** The selected points keep the path order. */
  lemma {:induction false} SelectedPointsAppend(a: seq<TelemetryPoint>, b: seq<TelemetryPoint>, selected: seq<string>)
    ensures SelectedPointsToRender(a + b, selected) == SelectedPointsToRender(a, selected) + SelectedPointsToRender(b, selected)
    decreases |b|
  {
    if b == [] {
      assert a + b == a;
    } else {
      SelectedPointsAppend(a, b[..|b| - 1], selected);
      assert (a + b)[..|a + b| - 1] == a + b[..|b| - 1];
      assert (a + b)[|a + b| - 1] == b[|b| - 1];
    }
  }

  /** The centre used when there is no race line to start from. */
  const DefaultCenter: (real, real) := (33.59, -86.79)

  /** The centre: the first point of the first race line, when its driver id
      is not empty and the line has points; the default otherwise. */
  function Center(raceLines: seq<(string, seq<TelemetryPoint>)>): (c: (real, real))
    ensures c != DefaultCenter ==> |raceLines| > 0 && |raceLines[0].1| > 0
    ensures |raceLines| > 0 && raceLines[0].0 != "" && |raceLines[0].1| > 0 ==>
      c == (raceLines[0].1[0].lat, raceLines[0].1[0].lon)
    ensures raceLines == [] || raceLines[0].0 == "" || raceLines[0].1 == [] ==> c == DefaultCenter
  {
    if |raceLines| > 0 && raceLines[0].0 != "" && |raceLines[0].1| > 0 then
      (raceLines[0].1[0].lat, raceLines[0].1[0].lon)
    else DefaultCenter
  }
}
