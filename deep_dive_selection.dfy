/**
  The race and driver pickers of the driver-laps deep-dive page: when the
  year's races or the race's drivers arrive, the selection falls back to the
  first entry unless the current choice is still on the list. Ids are
  strings; the empty string stands for "nothing selected" (and for a missing
  URL parameter). A query either fails or returns the ids of its rows.
 */
module DeepDiveSelection {

  /** What a query gives back: an error, or the ids of the rows, in order. */
  datatype Answer = Failed | Ids(ids: seq<string>)

  /** The entries offered and the entry selected once an answer arrives. */
  datatype Choice = Choice(available: seq<string>, selected: string)

  /** `fetchRacesForSelectedYear`: with no year nothing is offered or
      selected; when the races query fails the list is emptied and the
      selected race is left as it was; otherwise the year's races are offered
      and the race from the URL is kept when it is one of them, else the
      first race (or none) is selected. */
  function ChooseRace(selectedYear: string, initialRaceId: string, currentRaceId: string, answer: Answer): (c: Choice)
    ensures selectedYear == "" ==> c == Choice([], "")
    ensures selectedYear != "" && answer.Failed? ==> c == Choice([], currentRaceId)
    ensures selectedYear != "" && answer.Ids? ==> c.available == answer.ids
    ensures selectedYear != "" && answer.Ids? && answer.ids == [] ==> c.selected == ""
    ensures selectedYear != "" && answer.Ids? && initialRaceId != "" && initialRaceId in answer.ids ==>
      c.selected == initialRaceId
    ensures selectedYear != "" && answer.Ids? && (initialRaceId == "" || initialRaceId !in answer.ids) && answer.ids != [] ==>
      c.selected == answer.ids[0]
  {
    if selectedYear == "" then Choice([], "")
    else
      match answer
      case Failed => Choice([], currentRaceId)
      case Ids(raceIds) =>
        var selected :=
          if initialRaceId != "" && initialRaceId in raceIds then initialRaceId
          else if |raceIds| > 0 then raceIds[0]
          else "";
        Choice(raceIds, selected)
  }

  /** Unless the races query fails, the chosen race is one of the offered
      races, or none when none is offered. */
  lemma ChooseRaceOffered(selectedYear: string, initialRaceId: string, currentRaceId: string, answer: Answer)
    requires selectedYear == "" || answer.Ids?
    ensures var c := ChooseRace(selectedYear, initialRaceId, currentRaceId, answer);
      && (c.available == [] ==> c.selected == "")
      && (c.available != [] ==> c.selected in c.available)
  {
  }

  /** A failed races query leaves a selected race that is no longer offered:
      the list is empty while the selection stays. */
  lemma StaleRaceOnError(selectedYear: string, initialRaceId: string, currentRaceId: string)
    requires selectedYear != "" && currentRaceId != ""
    ensures var c := ChooseRace(selectedYear, initialRaceId, currentRaceId, Failed);
      c.selected != "" && c.selected !in c.available
  {
  }

  /** "Go" writes the selected race into the URL (`handleGoClick`), and the
      races effect runs again with it as the URL's race: given the same
      answer, it chooses the same race again. */
  lemma ChooseRaceIdempotent(selectedYear: string, initialRaceId: string, currentRaceId: string, answer: Answer)
    ensures var c := ChooseRace(selectedYear, initialRaceId, currentRaceId, answer);
      ChooseRace(selectedYear, c.selected, currentRaceId, answer) == c
  {
    var c := ChooseRace(selectedYear, initialRaceId, currentRaceId, answer);
    if selectedYear != "" && answer.Ids? && c.selected == "" && answer.ids != [] {
      assert answer.ids[0] == "";
    }
  }

  /** `fetchDriversForSelectedRace`: with no race, or when the drivers query
      fails, nothing is offered or selected; otherwise the race's drivers are
      offered and the current driver stays when still listed, else the first
      listed driver is selected, or none when no driver is listed. */
  function ChooseDriver(selectedRaceId: string, selectedDriverId: string, answer: Answer): (c: Choice)
    ensures selectedRaceId == "" || answer.Failed? ==> c == Choice([], "")
    ensures selectedRaceId != "" && answer.Ids? ==> c.available == answer.ids
    ensures selectedRaceId != "" && answer.Ids? && selectedDriverId in answer.ids ==> c.selected == selectedDriverId
    ensures selectedRaceId != "" && answer.Ids? && selectedDriverId !in answer.ids && answer.ids != [] ==>
      c.selected == answer.ids[0]
    ensures selectedRaceId != "" && answer.Ids? && answer.ids == [] ==> c.selected == ""
  {
    if selectedRaceId == "" then Choice([], "")
    else
      match answer
      case Failed => Choice([], "")
      case Ids(driverIds) =>
        var isCurrentDriverValid := selectedDriverId in driverIds;
        var selected :=
          if !isCurrentDriverValid && |driverIds| > 0 then driverIds[0]
          else if |driverIds| == 0 then ""
          else selectedDriverId;
        Choice(driverIds, selected)
  }

  /** Whatever the answer, the selected driver is an offered one, or none
      when none is offered. */
  lemma ChooseDriverOffered(selectedRaceId: string, selectedDriverId: string, answer: Answer)
    ensures var c := ChooseDriver(selectedRaceId, selectedDriverId, answer);
      && (c.available == [] ==> c.selected == "")
      && (c.available != [] ==> c.selected in c.available)
  {
  }

  /** Choosing again with the chosen driver changes nothing. */
  lemma ChooseDriverIdempotent(selectedRaceId: string, selectedDriverId: string, answer: Answer)
    ensures var c := ChooseDriver(selectedRaceId, selectedDriverId, answer);
      ChooseDriver(selectedRaceId, c.selected, answer) == c
  {
  }
}
