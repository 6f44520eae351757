# trackstar timing core in Dafny

This project models the computational core of the trackstar motorsport
dashboard (a Next.js web app with two CSV ingestion scripts) and proves
properties of it. The core is the code that turns timing text into numbers
and back, derives per-lap improvements, best values and statistics, and
decides what the pages and the upload scripts show or store.

Modules, one per source unit:

- `Wrappers`: `Option`, sheet rows (`CsvRow`) and the map/filter idiom shared by both upload scripts.
- `JsNumber`: JavaScript numbers as `NaN | NegInf | Fin(real) | PosInf`, with IEEE comparison and arithmetic rules for NaN and the infinities.
- `JsText`: the string built-ins the core uses. These are `split`, `parseInt`/`parseFloat` (their prefix grammar), `toFixed(3)`, `padStart`, `trim`, `toUpperCase`/`toLowerCase`, `includes` and `replace` with a string pattern.
- Deep-dive page (`src/app/analysis/driver-laps-deep-dive/page.tsx`):
  - `LapTiming`/`LapTimingFacts`: `intervalToSeconds` and `formatTime`;
  - `LapRecords`: the improvements `map`;
  - `BestScan` and `LapSummary`: the best-value `forEach` and the statistics after it;
  - `LapStats`: sum, mean and variance;
  - `WeatherSummary`: the weather reduction;
  - `DeltaDisplay`: `getDeltaInfo` and `getValueStyle`;
  - `DeepDiveSelection`: the race and driver fallback selection.
- `RaceResultsUpload` (`scripts/upload-race-results.ts`): `parseInterval` and the row mapping.
- `LapsUpload` (`scripts/upload-laps.ts`): the driver lookup, the row skip rules, the lap record, the 1000-record batches and the counters.
- `LapDataDisplay` (`src/components/LapDataDisplay.tsx`): `formatInterval`, `improvementIndicator` and the card.
- `TelemetryAnalysis` (`src/app/analysis/page.tsx`): the driver select, the chart pivots, the race lines, the race reset and the driver colours.
- `RaceMap` (`src/components/Map.tsx`): speed colours, marker thinning, selected points and the centre.
- `RaceSelection` (`src/app/races/page.tsx`): race pick and driver toggle.
- `RaceResultsPage` (`src/app/races/results/page.tsx`): the year list, the date window, the result mapping and the duration labels.

Loops that update variables in the source are methods with loop invariants,
each proved equal to a specification function:

- `HandleDriverChange`, `BuildRow` and `RaceLinesForMap`;
- `ThinPath` and `RenderMarkers`;
- `BuildLookup`;
- the lap-summary `forEach` (`SummarizeLaps` with its per-metric update methods).

The upload of laps is a method over a `LapsTable` class. Its `Insert`
succeeds or fails as the database decides, and `UploadLaps`/`Complete` keep
`rowCount`, `uploadedCount` and the batch buffer exactly as the script does.
The table logs each insert's outcome, so the stored records are stated
exactly: those of the batches whose insert succeeded, in order.

Behaviours of the code as written that the proofs make explicit:

- `intervalToSeconds` has no null rule. An empty text is NaN, and a lap-count gap such as "2 laps" reads as 2 seconds (`LapCountGap`, `EmptyInterval`).
- Headers of the laps sheet are trimmed and upper-cased before the rows are read. The twelve mixed-case columns `IM1a_time` … `FL_elapsed` are still read by their mixed-case names, so they are always stored as null (`MixedCaseColumnsNull`).
- The lap card marks a positive improvement "slower", while the deep-dive table classes the same positive delta as "good" (`SignConventionsDisagree`).
- `formatInterval` pads neither minutes nor seconds, so `00:01:05.1` is shown as `1:5.100` (`FormatIntervalExample`).

- Only `parseInterval` in the results script maps "", "-" and texts mentioning "lap" to null; `intervalToSeconds` on the deep-dive page has no such rule.
- The page takes `Math.sqrt` of the variance for the deviation; the model states the variance.
- A numeric column of a row can be `null`, and `+`, `-`, `<` and `>` read it as 0. A lap whose sector time is `null` therefore beats every positive time. When a sector's times are positive or `null`, the page reports that sector's best as null with the number of the first lap holding `null` (`NullSectorWins`).

## Model

| member | source | states |
|---|---|---|
| LapTimingFacts.HoursLayout | src/app/analysis/driver-laps-deep-dive/page.tsx:76-81 | a three-part `H:MM:SS.fff` text is H·3600 + MM·60 + SS.fff seconds |
| LapTimingFacts.MinutesLayout | src/app/analysis/driver-laps-deep-dive/page.tsx:82-84 | a two-part `M:SS.fff` text is M·60 + SS.fff seconds |
| LapTimingFacts.SecondsLayout | src/app/analysis/driver-laps-deep-dive/page.tsx:85-87 | a text that does not split into two or three parts at its colons is read whole by `parseFloat` |
| LapTimingFacts.NoColonOnePart | src/app/analysis/driver-laps-deep-dive/page.tsx:76 | a text without a colon splits into one part, so it takes the `parseFloat` branch |
| LapTimingFacts.FourPartsExample | src/app/analysis/driver-laps-deep-dive/page.tsx:75-89 | "1:2:3:4" has four parts and reads as 1 second: `parseFloat` stops at the first colon |
| LapTimingFacts.LapCountGap | src/app/analysis/driver-laps-deep-dive/page.tsx:85-87 | "2 laps" reads as 2 seconds: parseFloat stops at the first unreadable character |
| LapTimingFacts.EmptyInterval | src/app/analysis/driver-laps-deep-dive/page.tsx:75-89 | an empty text gives NaN |
| LapTimingFacts.MinutesOfTotal | src/app/analysis/driver-laps-deep-dive/page.tsx:600-601 | for 60·m + y with 0 ≤ y < 60, `Math.floor(s/60)` is m and `s % 60` is y |
| LapTimingFacts.FormatFinite | src/app/analysis/driver-laps-deep-dive/page.tsx:599-603 | formatTime writes the whole minutes, a colon, and the seconds within the minute to three decimals padded to six |
| LapTimingFacts.SecondsField | src/app/analysis/driver-laps-deep-dive/page.tsx:601-602 | a two-digit, three-decimal seconds field is written back exactly as it was read |
| LapTimingFacts.FormatTimeRoundTrip | src/app/analysis/driver-laps-deep-dive/page.tsx:599-603 | formatTime(intervalToSeconds(x)) == x for `M:SS.fff` with canonical M and SS < 60 |
| LapRecords.WithImprovementsKeepsRows | src/app/analysis/driver-laps-deep-dive/page.tsx:365-374 | one row per lap, in order, each equal to its lap except the improvements; the first lap's four improvements are null |
| LapRecords.WithImprovementsDeltas | src/app/analysis/driver-laps-deep-dive/page.tsx:376-400 | every later lap's lap, s1, s2 and s3 improvement is the previous lap's value minus its own, a `null` sector counting as 0 |
| LapRecords.ImprovementMeansFaster | src/app/analysis/driver-laps-deep-dive/page.tsx:380-392 | an improvement is positive exactly when the lap (or sector, `null` read as 0) was faster than the one before |
| LapRecords.LapTimesPrefix | src/app/analysis/driver-laps-deep-dive/page.tsx:422-423 | `lapTimesInSeconds` grows by the next lap's time at the end |
| LapRecords.LapTimesAt | src/app/analysis/driver-laps-deep-dive/page.tsx:422-423 | entry k of `lapTimesInSeconds` is lap k's `intervalToSeconds(lap_time)` |
| BestScan.ScanSpec | src/app/analysis/driver-laps-deep-dive/page.tsx:421-449 | the best is never NaN and nothing beats it; the sentinel survives with no owner exactly when no value beats it; otherwise the owner is the first lap holding the best |
| BestScan.ScanSnoc | src/app/analysis/driver-laps-deep-dive/page.tsx:421-449 | scanning one more lap is one more strict comparison step |
| BestScan.BestBounds | src/app/analysis/driver-laps-deep-dive/page.tsx:425-448 | the best time is ≤ every non-NaN value, the best speed ≥ every non-NaN value |
| BestScan.NotBeatenAfter | src/app/analysis/driver-laps-deep-dive/page.tsx:425-448 | a value that did not beat the old best neither beats nor equals one that did |
| LapSummary.SummarizeLaps | src/app/analysis/driver-laps-deep-dive/page.tsx:405-485 | the loop and the statistics give nothing for no laps and exactly the summary of the laps otherwise |
| LapSummary.UpdateBestLap | src/app/analysis/driver-laps-deep-dive/page.tsx:422-428 | one iteration pushes the lap time and keeps the running best lap time and lap |
| LapSummary.UpdateBest | src/app/analysis/driver-laps-deep-dive/page.tsx:429-448 | one iteration keeps a sector or speed best and its lap number, strict `<` or `>` |
| LapSummary.Summarize | src/app/analysis/driver-laps-deep-dive/page.tsx:451-484 | the values the loop ends with are the summary of all the laps |
| LapSummary.ReportFromScan | src/app/analysis/driver-laps-deep-dive/page.tsx:459-484 | the running best after the loop is what is reported for the metric |
| LapSummary.MetricScanIsScan | src/app/analysis/driver-laps-deep-dive/page.tsx:429-447 | the running best the page holds is set by the same lap as the scan of the compared numbers (`null` as 0), compares as its best, and is that lap's own value |
| LapSummary.ReportSpec | src/app/analysis/driver-laps-deep-dive/page.tsx:459-484 | no lap number exactly when no lap beats the sentinel, and then no value; otherwise the number of the first lap whose compared value no lap beats, and that lap's own value, null when the row holds `null` |
| LapSummary.NullSectorWins | src/app/analysis/driver-laps-deep-dive/page.tsx:429-440 | with positive or `null` sector times, the sector's best is reported as null with the number of the first lap holding `null` |
| LapSummary.BestLapSpec | src/app/analysis/driver-laps-deep-dive/page.tsx:425-457 | the reported best lap is the first lap with the lowest lap time |
| LapSummary.SummaryTimes | src/app/analysis/driver-laps-deep-dive/page.tsx:466-474 | average and variance are the mean and the variance of the lap times, the best lap time their scan |
| LapSummary.LapTimeStatistics | src/app/analysis/driver-laps-deep-dive/page.tsx:466-474 | with finite times the best is ≤ the average and the variance is 0 exactly when all times are equal |
| LapStats.Square | src/app/analysis/driver-laps-deep-dive/page.tsx:472 | `Math.pow(x, 2)` keeps NaN, is ≥ 0 on finite values, +Infinity on the infinities |
| LapStats.SumBounds | src/app/analysis/driver-laps-deep-dive/page.tsx:466 | a sum of values in [lo, hi] lies in [n·lo, n·hi] |
| LapStats.MeanNaN | src/app/analysis/driver-laps-deep-dive/page.tsx:466-467 | a NaN lap time makes the average NaN |
| LapStats.MeanBetween | src/app/analysis/driver-laps-deep-dive/page.tsx:466-467 | the average of finite times lies between the fastest and the slowest |
| LapStats.MeanConstant | src/app/analysis/driver-laps-deep-dive/page.tsx:466-467 | equal times average to that time |
| LapStats.DeviationsZero | src/app/analysis/driver-laps-deep-dive/page.tsx:472 | squared deviations sum to 0 exactly when every value equals the mean |
| LapStats.VarianceNonNegative | src/app/analysis/driver-laps-deep-dive/page.tsx:472 | the variance (divided by N) of finite times is finite and ≥ 0 |
| LapStats.VarianceZeroIffConstant | src/app/analysis/driver-laps-deep-dive/page.tsx:472 | the variance is 0 exactly when all laps took the same time |
| JsNumber.SubPositive | src/app/analysis/driver-laps-deep-dive/page.tsx:380 | `prev - cur > 0` exactly when `cur < prev`, NaN and infinities included |
| JsNumber.LtTrichotomy | src/app/analysis/driver-laps-deep-dive/page.tsx:425 | non-NaN numbers are totally ordered by `<` |
| JsNumber.RoundTenthClose | src/app/analysis/driver-laps-deep-dive/page.tsx:555-559 | `parseFloat(x.toFixed(1))` moves a finite value by at most 0.05 |
| WeatherSummary.RainStatus | src/app/analysis/driver-laps-deep-dive/page.tsx:549-552 | "No Rain" unless the total is above 0; then "Constant Rain" exactly when it equals the count, else "Intermittent Rain" |
| WeatherSummary.FetchWeatherSpec | src/app/analysis/driver-laps-deep-dive/page.tsx:515-565 | a summary exactly when a race is selected and its query returns rows, never with an error; a failed query shows its message and no summary; no race clears the summary and keeps the error |
| WeatherSummary.WeatherSpec | src/app/analysis/driver-laps-deep-dive/page.tsx:536-563 | no samples give no card; each finite average is the field sum over the count to within 0.05 |
| WeatherSummary.RainTotalCounts | src/app/analysis/driver-laps-deep-dive/page.tsx:540 | with 0/1 flags (`null` adding 0) the rain total is the number of raining samples |
| WeatherSummary.RainStatusOfFlags | src/app/analysis/driver-laps-deep-dive/page.tsx:549-552 | with 0/1 flags: "No Rain" iff no sample rains, "Constant Rain" iff all do |
| DeltaDisplay.FixedSign | src/app/analysis/driver-laps-deep-dive/page.tsx:608 | `toFixed(3)` text never starts with "+" and starts with "-" exactly for negative values |
| DeltaDisplay.DeltaInfoSpec | src/app/analysis/driver-laps-deep-dive/page.tsx:605-620 | "N/A" with no class exactly for null or NaN; otherwise "+" exactly when ≥ 0, "s" at the end, and good/bad/neutral by the 0.001 band |
| DeltaDisplay.GetValueStyle | src/app/analysis/driver-laps-deep-dive/page.tsx:622-629 | highlighted exactly when both values are finite and within 0.001 of each other |
| DeltaDisplay.BestCellHighlighted | src/app/analysis/driver-laps-deep-dive/page.tsx:622-629 | the lap owning a reported finite best has that cell highlighted (its own value, passed as `number \| null`) |
| DeltaDisplay.BestLapCellHighlighted | src/app/analysis/driver-laps-deep-dive/page.tsx:833 | when the best lap time is finite, the lap reported as best lap has its lap-time cell highlighted |
| DeepDiveSelection.ChooseRace | src/app/analysis/driver-laps-deep-dive/page.tsx:216-248 | no year: nothing offered or selected; a failed query empties the races and keeps the selected race; otherwise the year's races are offered, the URL's race kept when offered, else the first, else none |
| DeepDiveSelection.ChooseRaceOffered | src/app/analysis/driver-laps-deep-dive/page.tsx:233-248 | unless the query fails, the selected race is an offered one, or none when none is offered |
| DeepDiveSelection.StaleRaceOnError | src/app/analysis/driver-laps-deep-dive/page.tsx:226-230 | after a failed races query a selected race stays selected while no race is offered |
| DeepDiveSelection.ChooseRaceIdempotent | src/app/analysis/driver-laps-deep-dive/page.tsx:236-241 | after "Go" puts the chosen race in the URL (`handleGoClick`, lines 631-636), the races effect chooses it again |
| DeepDiveSelection.ChooseDriver | src/app/analysis/driver-laps-deep-dive/page.tsx:254-294 | no race or a failed query: nothing offered or selected; otherwise the race's drivers are offered, the current driver kept when listed, else the first listed, else none |
| DeepDiveSelection.ChooseDriverOffered | src/app/analysis/driver-laps-deep-dive/page.tsx:262-294 | the selected driver is always an offered one, or none when none is offered |
| DeepDiveSelection.ChooseDriverIdempotent | src/app/analysis/driver-laps-deep-dive/page.tsx:277-286 | choosing again with the chosen driver changes nothing |
| JsText.ParseIntLeadingDigit | src/app/analysis/driver-laps-deep-dive/page.tsx:79 | `parseInt` of a text starting with a digit is the value of its leading digits |
| JsText.ParseFloatWhole | src/app/analysis/driver-laps-deep-dive/page.tsx:86 | `parseFloat` of digits followed by a non-digit, non-point is the whole number |
| JsText.SplitAtSeparator | src/app/analysis/driver-laps-deep-dive/page.tsx:76 | `split(':')` cuts at the first separator |
| JsText.ToFixed3Decimal | src/app/analysis/driver-laps-deep-dive/page.tsx:601 | `toFixed(3)` of `b.c` with three decimals writes b without leading zeros and c unchanged |
| JsText.CanonicalRoundTrip | src/app/analysis/driver-laps-deep-dive/page.tsx:602 | printing the value of a numeral without leading zeros gives it back |
| JsText.PaddedRoundTrip | scripts/upload-race-results.ts:25 | padding the printed value of a fixed-width numeral with zeros gives it back |
| RaceResultsUpload.ParseIntervalSpec | scripts/upload-race-results.ts:18-28 | null exactly for null, "", "-" and values mentioning "lap" in any case; a match is rewritten to digits, colons and points starting "00:"; anything else is kept |
| RaceResultsUpload.ParseIntervalIdempotent | scripts/upload-race-results.ts:18-28 | parseInterval(parseInterval(v)) == parseInterval(v) |
| RaceResultsUpload.GapTextStable | scripts/upload-race-results.ts:25 | a rewritten gap passes through parseInterval unchanged |
| RaceResultsUpload.MatchPrefix | scripts/upload-race-results.ts:21 | a match of `(\d+)'(\d+\.\d+)` has three non-empty digit groups |
| RaceResultsUpload.FirstMatchLeftmost | scripts/upload-race-results.ts:21 | the search finds a match exactly when one starts somewhere, and returns the leftmost |
| RaceResultsUpload.SurroundingTextDiscarded | scripts/upload-race-results.ts:21 | unanchored: digit-free text before the gap and text after it are dropped |
| RaceResultsUpload.NoApostropheNoMatch | scripts/upload-race-results.ts:21 | a value without an apostrophe has no match |
| RaceResultsUpload.GapTextThreeDecimals | scripts/upload-race-results.ts:23-25 | `m'ss.fff` becomes "00:" + m padded to 2 + ":" + ss.fff padded to 6 |
| RaceResultsUpload.GapTextShortFraction | scripts/upload-race-results.ts:24-25 | fewer than three decimals read as if completed with zeros |
| RaceResultsUpload.GapExample | scripts/upload-race-results.ts:18-28 | a value that is exactly `m'ss.f` (canonical numerals, ≤ 3 decimals) becomes `00:` + pad2(m) + `:` + pad6(ss.fff) |
| RaceResultsUpload.ParseIntervalExample | scripts/upload-race-results.ts:18-28 | "1'23.456" becomes "00:01:23.456" |
| RaceResultsUpload.ParseIntervalShortExample | scripts/upload-race-results.ts:18-28 | "1'5.2" becomes "00:01:05.200" |
| RaceResultsUpload.RaceNumberArg | scripts/upload-race-results.ts:31-36 | only "1" and "2" are accepted as the race number |
| RaceResultsUpload.FindRace | scripts/upload-race-results.ts:61 | the first race whose name contains the race name, or none when no name does |
| RaceResultsUpload.FindDriver | scripts/upload-race-results.ts:62 | the first driver whose number strictly equals the parsed number, or none |
| RaceResultsUpload.ResultRow | scripts/upload-race-results.ts:56-104 | a record exactly when NUMBER is non-empty and a race and a driver are found; it carries their ids, the parsed gaps, and no class position exactly for race 2 |
| RaceResultsUpload.ResultsAppend | scripts/upload-race-results.ts:56-105 | the records keep the sheet order |
| RaceResultsUpload.ResultsFromRows | scripts/upload-race-results.ts:56-105 | at most one record per row, one per row exactly when none is dropped, each from a row of the sheet and for the found race |
| Wrappers.OrNull | scripts/upload-race-results.ts:77 | `value \|\| null` here and `toInterval` in scripts/upload-laps.ts:126: null exactly for a missing or empty value, otherwise the value |
| Wrappers.PresentMapAll | scripts/upload-race-results.ts:105 | `.filter(Boolean)` keeps at most one record per row, each from some row |
| LapDataDisplay.FormatIntervalMissing | src/components/LapDataDisplay.tsx:23-24 | "N/A" exactly for a missing or empty interval |
| LapDataDisplay.HoursDiscarded | src/components/LapDataDisplay.tsx:26-28 | whatever comes before the first colon does not change the text |
| LapDataDisplay.FormatIntervalFields | src/components/LapDataDisplay.tsx:26-28 | `H:MM:SS.f` shows MM and SS without leading zeros and the decimals completed to three |
| LapDataDisplay.FormatIntervalExample | src/components/LapDataDisplay.tsx:28 | "00:01:05.1" is shown as "1:5.100" |
| LapDataDisplay.ImprovementIndicator | src/components/LapDataDisplay.tsx:31-35 | ▼ exactly above 0, ▲ exactly below 0, nothing at 0 or NaN |
| LapDataDisplay.SignConventionsDisagree | src/components/LapDataDisplay.tsx:31-35 | a delta the deep-dive table classes good is marked slower here, one it classes bad faster |
| LapDataDisplay.RenderCard | src/components/LapDataDisplay.tsx:37-75 | loading exactly with no lap data; the pit line exactly for a non-empty pit time, never "N/A" |
| LapsUpload.BuildLookup | scripts/upload-laps.ts:95-96 | the `forEach` fill gives the lookup of the drivers |
| LapsUpload.LookupLastWins | scripts/upload-laps.ts:95-96 | a number is in the lookup iff some driver has it, and maps to the last such driver's id |
| LapsUpload.LookupGet | scripts/upload-laps.ts:120 | `get` finds an id only for an integer number present in the lookup |
| LapsUpload.NormalizeHeaderUpper | scripts/upload-laps.ts:109 | a normalised header is its own upper case |
| LapsUpload.NormalizeHeaderIdempotent | scripts/upload-laps.ts:109 | normalising twice is normalising once |
| LapsUpload.Record | scripts/upload-laps.ts:128-168 | race and driver ids set; the pit flag true exactly for "TRUE"; lap and pit times are the non-empty cell or null |
| LapsUpload.LapRow | scripts/upload-laps.ts:114-124 | a row is skipped exactly when NUMBER is not an integer or has no driver id; otherwise its record is `Record` of the row for the driver the lookup holds at the row's parsed NUMBER |
| LapsUpload.MixedCaseColumnsNull | scripts/upload-laps.ts:156-167 | with normalised headers the twelve IM/FL columns are always null |
| LapsUpload.AcceptedFromRows | scripts/upload-laps.ts:111-168 | at most one record per row, each from a row, for the race, with a driver |
| LapsUpload.ChunksSpec | scripts/upload-laps.ts:170-193 | batches concatenate to the records; each has 1..1000, all but the last exactly 1000; ⌈n/1000⌉ batches |
| LapsUpload.ChunksOfFull | scripts/upload-laps.ts:185-193 | full batches then a short rest are the batches of their concatenation |
| LapsUpload.LapsTable.Insert | scripts/upload-laps.ts:173 | every insert is attempted and its outcome logged; the batch is stored whole on success, not at all on error |
| LapsUpload.PushRecord | scripts/upload-laps.ts:170-182 | below 1000 the record is only pushed; at 1000 the batch is inserted and emptied whether or not the insert succeeds, stored and counted as 1000 exactly on success |
| LapsUpload.ReadRows | scripts/upload-laps.ts:111-183 | the `for` loop counts every row, pushes the accepted records in order, inserts each full batch and leaves fewer than 1000 |
| LapsUpload.KeptWithin | scripts/upload-laps.ts:170-193 | the records stored never outnumber the records sent |
| LapsUpload.Complete | scripts/upload-laps.ts:111-193 | every row counted; the inserts attempted are the 1000-record batches of the accepted records, in order; the table gains exactly the records of the batches whose insert succeeded, `uploadedCount` is their number and never exceeds the accepted ones |
| LapsUpload.UploadLaps | scripts/upload-laps.ts:95-193 | the same for the sheet's rows read through the driver lookup built from the drivers |
| TelemetryAnalysis.HandleDriverChange | src/app/analysis/page.tsx:178-187 | the loop yields the selected option values in option order |
| TelemetryAnalysis.SelectedValuesSpec | src/app/analysis/page.tsx:181-185 | a value is picked iff a selected option carries it; one entry per selected option |
| TelemetryAnalysis.SelectedValuesAppend | src/app/analysis/page.tsx:181-185 | the picked values keep the option order |
| TelemetryAnalysis.ColorIn | src/app/analysis/page.tsx:190 | the colour of the first entry with the id, or "#CCCCCC" when none or empty |
| TelemetryAnalysis.GetDriverColor | src/app/analysis/page.tsx:189-191 | an id not among the ten listed is grey "#CCCCCC" |
| TelemetryAnalysis.ValueAt | src/app/analysis/page.tsx:198 | defined exactly when the driver has data and a sample at that index |
| TelemetryAnalysis.BuildRow | src/app/analysis/page.tsx:196-200 | the `forEach` gives the row of the selected drivers |
| TelemetryAnalysis.RowOfSpec | src/app/analysis/page.tsx:196-200 | keys are `distance` and the selected drivers; each driver's entry is its value at the index |
| TelemetryAnalysis.Pivot | src/app/analysis/page.tsx:194-216 | `[]` with no driver or no data for the first; else one row per sample of the first driver |
| TelemetryAnalysis.PivotRows | src/app/analysis/page.tsx:195-215 | each row has the first driver's distance and every selected driver's value at that index, for speed, throttle and brake |
| TelemetryAnalysis.RaceLinesForMap | src/app/analysis/page.tsx:219-222 | a key per selected driver, its race line or `[]` |
| TelemetryAnalysis.HandleRaceChange | src/app/analysis/page.tsx:224-228 | the lap resets to "lap1" and the drivers to driver1, driver2 |
| TelemetryAnalysis.RaceChangeResets | src/app/analysis/page.tsx:224-228 | the reset does not depend on the previous selection; both drivers have their own colour |
| RaceMap.GetColorForSpeed | src/components/Map.tsx:54-62 | grey exactly for no speed, blue exactly for a zero range, else hue (1 − fraction)·240 |
| RaceMap.SpeedScale | src/components/Map.tsx:59-60 | min speed is hue 240, max is 0, in-range speeds in [0, 240], faster never bluer |
| RaceMap.ThinPath | src/components/Map.tsx:100-136 | the per-driver loop gives the markers of the path |
| RaceMap.MarkersSpec | src/components/Map.tsx:101-115 | markers in path order, labelled 1, 2, 3, … on marked points; the first point has one |
| RaceMap.MarkersApart | src/components/Map.tsx:108-110 | successive markers are at least 1000 ms apart |
| RaceMap.MarkedHasMarker | src/components/Map.tsx:108-110 | a point has a marker exactly when it is the first or ≥ 1000 ms after the last marker |
| RaceMap.LastMarkIsLastMarker | src/components/Map.tsx:108-109 | `lastMarkerTime` is the time of the last marker placed |
| RaceMap.RenderMarkers | src/components/Map.tsx:99-140 | each driver's markers are thinned afresh |
| RaceMap.SelectedPointsMembers | src/components/Map.tsx:84 | exactly the path's points whose timestamp was picked |
| RaceMap.SelectedPointsAppend | src/components/Map.tsx:84 | the filter keeps path order |
| RaceMap.Center | src/components/Map.tsx:79-82 | the first point of the first line when there is one, else (33.59, −86.79) |
| RaceSelection.SelectRace | src/app/races/page.tsx:31-34 | the race is picked and the drivers cleared |
| RaceSelection.SelectDriver | src/app/races/page.tsx:36-42 | a driver click keeps the race |
| RaceSelection.WithoutIdSpec | src/app/races/page.tsx:39 | the filter keeps exactly the other ids and leaves none with the id |
| RaceSelection.WithoutIdAppend | src/app/races/page.tsx:39 | the filter keeps order |
| RaceSelection.WithoutAbsentId | src/app/races/page.tsx:38-40 | filtering an absent id changes nothing |
| RaceSelection.ToggleSpec | src/app/races/page.tsx:36-42 | an absent driver is appended, a present id removed entirely; only that id flips |
| RaceSelection.ToggleTwice | src/app/races/page.tsx:36-42 | toggling an absent driver twice restores the list |
| RaceSelection.ToggleKeepsDistinct | src/app/races/page.tsx:36-42 | a toggle keeps the ids distinct |
| RaceSelection.RunDistinct | src/app/races/page.tsx:29-42 | from the opening state, picked ids never repeat and are empty after a race pick |
| RaceResultsPage.Years | src/app/races/results/page.tsx:34 | currentYear − 1973 years (none before 1974), the i-th being currentYear − i |
| RaceResultsPage.YearsSpec | src/app/races/results/page.tsx:34 | exactly the years 1974..currentYear, strictly decreasing, from currentYear to 1974 |
| RaceResultsPage.YearWindowSpec | src/app/races/results/page.tsx:54-55 | a date is in the window exactly when it falls in the year |
| RaceResultsPage.BoundsAreJanuaryFirst | src/app/races/results/page.tsx:54-55 | both bound texts are 1 January of the year and of the next, written YYYY-MM-DD |
| RaceResultsPage.RacesOfYearSpec | src/app/races/results/page.tsx:51-56 | the races offered are exactly the rows dated in the year |
| RaceResultsPage.Initial | src/app/races/results/page.tsx:35-38 | the page opens on the current year with no race and no results |
| RaceResultsPage.YearChangeClears | src/app/races/results/page.tsx:46-64 | after a year change no race is picked and no results shown, whatever the queries answer |
| RaceResultsPage.NoRaceNoResults | src/app/races/results/page.tsx:73-76 | with no race the results are cleared and nothing else changes |
| RaceResultsPage.WithDriverNumber | src/app/races/results/page.tsx:93-96 | the row is kept and `driver_number` is 'N/A' exactly without a joined driver |
| RaceResultsPage.ResultsOfRows | src/app/races/results/page.tsx:87-97 | one result per row in order, each with its row, 'N/A' exactly without a driver |
| RaceResultsPage.LabelOfDuration | src/app/races/results/page.tsx:176 | `PT…` is shown without the prefix, lower-cased |
| RaceResultsPage.LabelWithoutPrefix | src/app/races/results/page.tsx:176 | a value without "PT" is only lower-cased |
| RaceResultsPage.LabelIdempotent | src/app/races/results/page.tsx:176-178 | cleaning a cleaned label changes nothing |
| RaceResultsPage.LabelExample | src/app/races/results/page.tsx:176 | "PT83S" is shown as "83s" |

## Left out

- Supabase queries, `useEffect`/`useState` orchestration and routing. Query answers are inputs (`Query`, `Failed`/`Rows`, `Answer`). A failed query is modelled for the deep-dive race and driver pickers, the deep-dive weather card and the results page.
- The deep-dive lap-data fetch throws on a failed race, driver, telemetry or laps query (src/app/analysis/driver-laps-deep-dive/page.tsx:329-361), and its catch shows the message (505-507). The model takes the answered laps as given and does not model that error path or the loading flags.
- The deep-dive years query and the initial-race lookup (page.tsx:170-214) are not modelled, their errors included. The year and the URL's race are inputs of `ChooseRace`.
- A drivers answer with a result row that has no joined driver makes `d.drivers.id` throw (page.tsx:270). The selection then stays as it was. `ChooseDriver` takes the drivers' ids as given and does not model that throw.
- Stale responses and concurrency are not modelled. Each effect's answer is applied to the state it was issued from.
- Gemini calls and prompt assembly are not modelled: they are calls to a foreign service.
- File reading, PapaParse tokenising, `process.exit` and console output are not modelled. A parsed sheet row is a `map<string, string>`, so duplicate headers collapse as in a JS object.
- Dates are not parsed. `new Date(timestamp).getTime()` is given with each map point as whole milliseconds, and the current year is a parameter of the results page. An unparsable timestamp, whose time is NaN, is not modelled. In the source, when that timestamp is a driver's first point, `lastMarkerTime` becomes NaN and no later point of that driver gets a marker (Map.tsx:106-110).
- Ordering of races by date, and of results by position, is left to the database.
- Binary floating point is not modelled. Numbers are exact reals, so the rounding noise of `toFixed`, `Math.pow` and the division is absent, and `toFixed` above 1e21 (exponent form) is not modelled.
- `Math.sqrt` is not modelled; the standard deviation is stated through the variance.
- `parseInt`/`parseFloat` read no exponent part and no hexadecimal. `trim` and their leading white space cover the JavaScript white space and line terminators, fixed as a list of characters.
- `toLowerCase`/`toUpperCase` map only ASCII letters.
- A `null` numeric column is `Null` (`Nullable`), read as 0 wherever the page adds, subtracts or compares it.
- Deep-dive lap times are non-null strings. A null makes `intervalToSeconds` throw, and the page's catch is not modelled.
- `Object.keys`/`Object.entries` order is taken as the order of the race-line sequence given.
- A selected driver named "distance" overwrites the distance key. The rows are stated only when no driver has that name.
- Ids that are `null` in the source are the empty string in the model.
- The `toFixed(2)` speed cells of the lap card and the marker popups are presentation only.
- The hsl string and the icon HTML are not built; the colour is the hue value. NaN speeds are not modelled.
- The leaflet `fitBounds` updater and `handleLapChange` are framework plumbing.
- The races-page button label is presentation only.
- TelemetryAnalysis.GetDriverColor: states only the grey fallback for an unlisted id. The colour of each listed id is stated by `ColorIn` and shown for driver1 and driver2 in `RaceChangeResets`.
- LapsUpload.Record: states the ids, the pit flag and the lap and pit times. The other columns are read by the same `Cell`, `OrNull`, `ParseIntOpt` and `ParseFloatOpt` helpers, whose contracts are stated.
- RaceResultsUpload.ResultRow: the per-race column names (race 1's CLASS_TYPE/POS/PIC/ELAPSED/BEST_LAP_*, race 2's CLASS/POSITION/TOTAL_TIME/FL_*) are given by `RowData`'s definition. The contract states only the class position and the gaps.
