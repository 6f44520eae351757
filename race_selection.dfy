/**
  The race selection page: picking a race clears the drivers picked so far,
  and clicking a driver toggles it in the list of picked drivers (added at
  the end when absent, every entry with its id removed when present).
 */
module RaceSelection {
  import opened Wrappers

  /** An entry of the races list. */
  datatype Race = Race(id: int, name: string, date: string, drivers: nat)

  /** An entry of a race's drivers list. */
  datatype RaceDriver = RaceDriver(id: int, name: string, team: string)

  /** The page's state: the race picked (`null` before any) and the drivers
      picked. */
  datatype PageState = PageState(selectedRace: Option<Race>, selectedDrivers: seq<RaceDriver>)

  /** The state when the page opens. */
  const Initial: PageState := PageState(None, [])

  /** `prev.some(d => d.id === id)`. */
  predicate HasId(drivers: seq<RaceDriver>, id: int) {
    exists i :: 0 <= i < |drivers| && drivers[i].id == id
  }

  /** `prev.filter(d => d.id !== id)`. */
  function WithoutId(drivers: seq<RaceDriver>, id: int): seq<RaceDriver>
    decreases |drivers|
  {
    if drivers == [] then []
    else
      var last := drivers[|drivers| - 1];
      WithoutId(drivers[..|drivers| - 1], id) + (if last.id != id then [last] else [])
  }

  /** `handleDriverSelect`'s functional update of the picked drivers. */
  function Toggle(prev: seq<RaceDriver>, driver: RaceDriver): seq<RaceDriver> {
    if HasId(prev, driver.id) then WithoutId(prev, driver.id) else prev + [driver]
  }

  /** `handleRaceSelect`: the race becomes the picked one and the drivers are
      cleared. */
  function SelectRace(s: PageState, race: Race): (t: PageState)
    ensures t.selectedRace == Some(race) && t.selectedDrivers == []
  {
    PageState(Some(race), [])
  }

  /** `handleDriverSelect`: the race stays, the drivers are toggled. */
  function SelectDriver(s: PageState, driver: RaceDriver): (t: PageState)
    ensures t.selectedRace == s.selectedRace
  {
    PageState(s.selectedRace, Toggle(s.selectedDrivers, driver))
  }

  /** A click on the page. */
  datatype Click = RaceClick(race: Race) | DriverClick(driver: RaceDriver)

  function Apply(s: PageState, c: Click): PageState {
    match c
    case RaceClick(race) => SelectRace(s, race)
    case DriverClick(driver) => SelectDriver(s, driver)
  }

  /** The state after a series of clicks from the opening state. */
  function Run(clicks: seq<Click>): PageState
    decreases |clicks|
  {
    if clicks == [] then Initial
    else Apply(Run(clicks[..|clicks| - 1]), clicks[|clicks| - 1])
  }

  /** No two picked drivers share an id. */
  predicate DistinctIds(drivers: seq<RaceDriver>) {
    forall i, j :: 0 <= i < j < |drivers| ==> drivers[i].id != drivers[j].id
  }

  // ---------------------------------------------------------------------
  // Properties

  /** Filtering keeps exactly the entries with another id, never adds one,
      and leaves no entry with the id. */
  lemma {:induction false} WithoutIdSpec(drivers: seq<RaceDriver>, id: int)
    ensures forall d :: d in WithoutId(drivers, id) <==> d in drivers && d.id != id
    ensures !HasId(WithoutId(drivers, id), id)
    ensures |WithoutId(drivers, id)| <= |drivers|
    ensures HasId(drivers, id) ==> |WithoutId(drivers, id)| < |drivers|
    decreases |drivers|
  {
    if drivers != [] {
      var init := drivers[..|drivers| - 1];
      WithoutIdSpec(init, id);
      assert drivers == init + [drivers[|drivers| - 1]];
      if HasId(drivers, id) && !HasId(init, id) {
        assert drivers[|drivers| - 1].id == id;
      }
    }
  }

  /** The entries left keep their order: filtering a list in two parts is
      filtering each part. */
  lemma {:induction false} WithoutIdAppend(a: seq<RaceDriver>, b: seq<RaceDriver>, id: int)
    ensures WithoutId(a + b, id) == WithoutId(a, id) + WithoutId(b, id)
    decreases |b|
  {
    if b == [] {
      assert a + b == a;
    } else {
      var init := b[..|b| - 1];
      WithoutIdAppend(a, init, id);
      assert (a + b)[..|a + b| - 1] == a + init;
    }
  }

  /** Filtering out an id that no entry has changes nothing. */
  lemma {:induction false} WithoutAbsentId(drivers: seq<RaceDriver>, id: int)
    requires !HasId(drivers, id)
    ensures WithoutId(drivers, id) == drivers
    decreases |drivers|
  {
    if drivers != [] {
      var init := drivers[..|drivers| - 1];
      WithoutAbsentId(init, id);
      assert drivers == init + [drivers[|drivers| - 1]];
    }
  }

  /** A toggle adds a driver whose id is not picked at the end; it removes a
      picked id entirely and keeps every other entry; after it the id is
      picked exactly when it was not before, and no other id changes. */
  lemma ToggleSpec(prev: seq<RaceDriver>, driver: RaceDriver)
    ensures !HasId(prev, driver.id) ==> Toggle(prev, driver) == prev + [driver]
    ensures HasId(prev, driver.id) ==>
      forall d :: d in Toggle(prev, driver) <==> d in prev && d.id != driver.id
    ensures HasId(Toggle(prev, driver), driver.id) <==> !HasId(prev, driver.id)
    ensures forall id :: id != driver.id ==> (HasId(Toggle(prev, driver), id) <==> HasId(prev, id))
  {
    WithoutIdSpec(prev, driver.id);
    var r := Toggle(prev, driver);
    if HasId(prev, driver.id) {
      forall id | id != driver.id
        ensures HasId(r, id) <==> HasId(prev, id)
      {
        if HasId(prev, id) {
          var i :| 0 <= i < |prev| && prev[i].id == id;
          assert prev[i] in r;
        }
        if HasId(r, id) {
          var i :| 0 <= i < |r| && r[i].id == id;
          assert r[i] in prev;
        }
      }
    } else {
      assert r[|prev|].id == driver.id;
      forall id | id != driver.id
        ensures HasId(r, id) <==> HasId(prev, id)
      {
        if HasId(prev, id) {
          var i :| 0 <= i < |prev| && prev[i].id == id;
          assert r[i] == prev[i];
        }
      }
    }
  }

  /** Clicking a driver that is not picked twice gives back the list it
      started from. */
  lemma ToggleTwice(prev: seq<RaceDriver>, driver: RaceDriver)
    requires !HasId(prev, driver.id)
    ensures Toggle(Toggle(prev, driver), driver) == prev
  {
    var once := prev + [driver];
    assert once[|prev|].id == driver.id;
    WithoutIdAppend(prev, [driver], driver.id);
    WithoutAbsentId(prev, driver.id);
    assert WithoutId([driver], driver.id) == WithoutId([], driver.id) + [] by {
      assert [driver][..0] == [];
    }
  }

  /** A toggle never makes two picked drivers share an id. */
  lemma ToggleKeepsDistinct(prev: seq<RaceDriver>, driver: RaceDriver)
    requires DistinctIds(prev)
    ensures DistinctIds(Toggle(prev, driver))
  {
    if HasId(prev, driver.id) {
      WithoutIdDistinct(prev, driver.id);
    } else {
      var r := prev + [driver];
      forall i, j | 0 <= i < j < |r|
        ensures r[i].id != r[j].id
      {
        if j == |prev| {
          assert r[i] == prev[i];
        }
      }
    }
  }

  lemma {:induction false} WithoutIdDistinct(drivers: seq<RaceDriver>, id: int)
    requires DistinctIds(drivers)
    ensures DistinctIds(WithoutId(drivers, id))
    decreases |drivers|
  {
    if drivers != [] {
      var init := drivers[..|drivers| - 1];
      var last := drivers[|drivers| - 1];
      assert DistinctIds(init) by {
        assert forall i :: 0 <= i < |init| ==> init[i] == drivers[i];
      }
      WithoutIdDistinct(init, id);
      WithoutIdSpec(init, id);
      var w := WithoutId(init, id);
      if last.id != id {
        assert !HasId(init, last.id) by {
          assert forall i :: 0 <= i < |init| ==> init[i] == drivers[i];
        }
        var r := w + [last];
        forall i, j | 0 <= i < j < |r|
          ensures r[i].id != r[j].id
        {
          if j == |w| {
            assert r[i] == w[i] && w[i] in init;
          }
        }
      }
    }
  }

  /** Whatever the clicks, the picked drivers never repeat an id, and they
      are empty right after a race is picked. */
  lemma {:induction false} RunDistinct(clicks: seq<Click>)
    ensures DistinctIds(Run(clicks).selectedDrivers)
    ensures clicks != [] && clicks[|clicks| - 1].RaceClick? ==> Run(clicks).selectedDrivers == []
    decreases |clicks|
  {
    if clicks != [] {
      var prev := Run(clicks[..|clicks| - 1]);
      RunDistinct(clicks[..|clicks| - 1]);
      if clicks[|clicks| - 1].DriverClick? {
        ToggleKeepsDistinct(prev.selectedDrivers, clicks[|clicks| - 1].driver);
      }
    }
  }
}
