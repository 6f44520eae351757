/**
  The lap sheet upload: each row of a race's lap sheet becomes a lap record
  for the driver whose car number it names, rows with a bad or unknown number
  are skipped, and the records are inserted into the `laps` table in batches
  of 1000. The table is an object whose insert may fail; the script counts
  the rows it reads and the records whose batch was stored.
 */
module LapsUpload {
  import opened Wrappers
  import opened JsNumber
  import opened JsText

  /** `BATCH_SIZE`. */
  const BatchSize: nat := 1000

  // ---------------------------------------------------------------------
  // The driver lookup

  /** A row of the `drivers` table as selected: id and car number. */
  datatype Driver = Driver(id: string, number: int)

  /** The lookup from car number to driver id once every driver has been
      `set` into it in order. */
  function LookupOf(drivers: seq<Driver>): map<int, string>
    decreases |drivers|
  {
    if drivers == [] then map[]
    else
      var d := drivers[|drivers| - 1];
      LookupOf(drivers[..|drivers| - 1])[d.number := d.id]
  }

  /** `driverLookup.forEach`-style fill of the lookup. */
  method BuildLookup(drivers: seq<Driver>) returns (lookup: map<int, string>)
    ensures lookup == LookupOf(drivers)
  {
    lookup := map[];
    var i := 0;
    while i < |drivers|
      invariant 0 <= i <= |drivers|
      invariant lookup == LookupOf(drivers[..i])
    {
      assert drivers[..i + 1][..i] == drivers[..i];
      lookup := lookup[drivers[i].number := drivers[i].id];
      i := i + 1;
    }
    assert drivers[..i] == drivers;
  }

  /** A number is in the lookup exactly when some driver has it, and it
      leads to the id of the LAST driver with that number: a later driver
      overwrites an earlier one. */
  lemma {:induction false} LookupLastWins(drivers: seq<Driver>, n: int)
    ensures n in LookupOf(drivers) <==> exists i :: 0 <= i < |drivers| && drivers[i].number == n
    ensures n in LookupOf(drivers) ==> exists i :: (
      && 0 <= i < |drivers| && drivers[i].number == n && LookupOf(drivers)[n] == drivers[i].id
      && forall j :: i < j < |drivers| ==> drivers[j].number != n)
    decreases |drivers|
  {
    if drivers != [] {
      var init := drivers[..|drivers| - 1];
      var last := |drivers| - 1;
      LookupLastWins(init, n);
      assert forall i :: 0 <= i < |init| ==> init[i] == drivers[i];
      if drivers[last].number != n && n in LookupOf(drivers) {
        var i :| 0 <= i < |init| && init[i].number == n && LookupOf(init)[n] == init[i].id
          && forall j :: i < j < |init| ==> init[j].number != n;
        assert forall j :: i < j < |drivers| ==> drivers[j].number != n;
      }
    }
  }

  /** `driverLookup.get(driverNumber)`: the id set for a number equal to
      the (integer) car number, undefined otherwise. */
  function LookupGet(lookup: map<int, string>, n: Num): (id: Option<string>)
    ensures id.Some? <==> n.Fin? && n.v == n.v.Floor as real && n.v.Floor in lookup
    ensures id.Some? ==> id.value == lookup[n.v.Floor]
  {
    if n.Fin? && n.v == n.v.Floor as real && n.v.Floor in lookup then Some(lookup[n.v.Floor]) else None
  }

  // ---------------------------------------------------------------------
  // Headers and records

  /** `transformHeader`: a header is trimmed and upper-cased. */
  function NormalizeHeader(header: string): string {
    ToUpper(Trim(header))
  }

  /** A sheet whose column keys are all normalised headers. */
  predicate UpperKeys(row: CsvRow) {
    forall k :: k in row ==> ToUpper(k) == k
  }

  /** A normalised header is its own upper case, so every key of a parsed
      row is. */
  lemma NormalizeHeaderUpper(header: string)
    ensures ToUpper(NormalizeHeader(header)) == NormalizeHeader(header)
  {
    var u := NormalizeHeader(header);
    assert forall i :: 0 <= i < |u| ==> UpperChar(u[i]) == u[i];
  }

  /** Normalising a normalised header changes nothing. */
  lemma NormalizeHeaderIdempotent(header: string)
    ensures NormalizeHeader(NormalizeHeader(header)) == NormalizeHeader(header)
  {
    var t := Trim(header);
    var u := ToUpper(t);
    TrimEdges(header);
    if u != [] {
      UpperKeepsSpace(t[0]);
      UpperKeepsSpace(t[|t| - 1]);
    }
    TrimNoEdgeSpace(u);
    NormalizeHeaderUpper(header);
  }

  /** Upper-casing neither makes nor removes white space. */
  lemma UpperKeepsSpace(c: char)
    ensures IsSpace(UpperChar(c)) <==> IsSpace(c)
  {
  }

  /** A trimmed text neither starts nor ends with white space. */
  lemma TrimEdges(s: string)
    ensures Trim(s) != [] ==> !IsSpace(Trim(s)[0]) && !IsSpace(Trim(s)[|Trim(s)| - 1])
  {
    var st := TrimStart(s);
    var t := Trim(s);
    if t != [] {
      assert t[0] == st[0];
    }
  }

  /** A text that neither starts nor ends with white space is its own trim. */
  lemma TrimNoEdgeSpace(t: string)
    requires t != [] ==> !IsSpace(t[0]) && !IsSpace(t[|t| - 1])
    ensures Trim(t) == t
  {
  }

  /** The record stored for a lap. */
  datatype LapRecord = LapRecord(
    raceId: string, driverId: string, lapNumber: Num, lapTime: Option<string>,
    lapImprovement: Num, crossingFinishLineInPit: bool,
    s1: Option<string>, s1Improvement: Num, s2: Option<string>, s2Improvement: Num,
    s3: Option<string>, s3Improvement: Num, kph: Num, elapsed: Option<string>, hour: Option<string>,
    s1Large: Option<string>, s2Large: Option<string>, s3Large: Option<string>, topSpeed: Num,
    pitTime: Option<string>, className: Option<string>, group: Option<string>,
    manufacturer: Option<string>, flagAtFl: Option<string>,
    s1Seconds: Num, s2Seconds: Num, s3Seconds: Num,
    im1aTime: Option<string>, im1aElapsed: Option<string>, im1Time: Option<string>, im1Elapsed: Option<string>,
    im2aTime: Option<string>, im2aElapsed: Option<string>, im2Time: Option<string>, im2Elapsed: Option<string>,
    im3aTime: Option<string>, im3aElapsed: Option<string>, flTime: Option<string>, flElapsed: Option<string>)

  /** The record built from a row for a known driver: numbers through
      `parseInt`/`parseFloat`, intervals through `toInterval`, the pit flag
      from the text "TRUE", other columns as they are. */
  function Record(raceId: string, driverId: string, row: CsvRow): (r: LapRecord)
    ensures r.raceId == raceId && r.driverId == driverId
    ensures r.crossingFinishLineInPit <==> Cell(row, "CROSSING_FINISH_LINE_IN_PIT") == Some("TRUE")
    ensures r.lapTime.Some? ==> r.lapTime.value != "" && Cell(row, "LAP_TIME") == r.lapTime
    ensures r.pitTime.Some? ==> r.pitTime.value != "" && Cell(row, "PIT_TIME") == r.pitTime
  {
    LapRecord(
      raceId, driverId, ParseIntOpt(Cell(row, "LAP_NUMBER")), OrNull(Cell(row, "LAP_TIME")),
      ParseIntOpt(Cell(row, "LAP_IMPROVEMENT")), Cell(row, "CROSSING_FINISH_LINE_IN_PIT") == Some("TRUE"),
      OrNull(Cell(row, "S1")), ParseIntOpt(Cell(row, "S1_IMPROVEMENT")),
      OrNull(Cell(row, "S2")), ParseIntOpt(Cell(row, "S2_IMPROVEMENT")),
      OrNull(Cell(row, "S3")), ParseIntOpt(Cell(row, "S3_IMPROVEMENT")),
      ParseFloatOpt(Cell(row, "KPH")), OrNull(Cell(row, "ELAPSED")), Cell(row, "HOUR"),
      OrNull(Cell(row, "S1_LARGE")), OrNull(Cell(row, "S2_LARGE")), OrNull(Cell(row, "S3_LARGE")),
      ParseFloatOpt(Cell(row, "TOP_SPEED")), OrNull(Cell(row, "PIT_TIME")),
      Cell(row, "CLASS"), Cell(row, "GROUP"), Cell(row, "MANUFACTURER"), Cell(row, "FLAG_AT_FL"),
      ParseFloatOpt(Cell(row, "S1_SECONDS")), ParseFloatOpt(Cell(row, "S2_SECONDS")), ParseFloatOpt(Cell(row, "S3_SECONDS")),
      OrNull(Cell(row, "IM1a_time")), OrNull(Cell(row, "IM1a_elapsed")),
      OrNull(Cell(row, "IM1_time")), OrNull(Cell(row, "IM1_elapsed")),
      OrNull(Cell(row, "IM2a_time")), OrNull(Cell(row, "IM2a_elapsed")),
      OrNull(Cell(row, "IM2_time")), OrNull(Cell(row, "IM2_elapsed")),
      OrNull(Cell(row, "IM3a_time")), OrNull(Cell(row, "IM3a_elapsed")),
      OrNull(Cell(row, "FL_time")), OrNull(Cell(row, "FL_elapsed")))
  }

  /** The record of a row, or none when the row is skipped: its NUMBER does
      not parse as an integer, or no driver (or a driver with an empty id)
      has that number. A record goes to the driver the lookup holds for the
      row's own NUMBER. */
  function LapRow(raceId: string, lookup: map<int, string>, row: CsvRow): (r: Option<LapRecord>)
    ensures r.None? <==>
      || ParseIntOpt(Cell(row, "NUMBER")).NaN?
      || LookupGet(lookup, ParseIntOpt(Cell(row, "NUMBER"))).None?
      || LookupGet(lookup, ParseIntOpt(Cell(row, "NUMBER"))).value == ""
    ensures r.Some? ==>
      && r.value.raceId == raceId && r.value.driverId != ""
      && exists n :: n in lookup && lookup[n] == r.value.driverId
    ensures r.Some? ==>
      var n := ParseIntOpt(Cell(row, "NUMBER"));
      && n.Fin? && n.v.Floor in lookup
      && r.value == Record(raceId, lookup[n.v.Floor], row)
  {
    var driverNumber := ParseIntOpt(Cell(row, "NUMBER"));
    if driverNumber.NaN? then None
    else
      var driverId := LookupGet(lookup, driverNumber);
      if driverId.None? || driverId.value == "" then None
      else Some(Record(raceId, driverId.value, row))
  }

  /** The mixed-case columns (`IM1a_time` … `FL_elapsed`) are read under
      their mixed-case names, which no normalised header matches: they are
      always null. */
  lemma MixedCaseColumnsNull(raceId: string, driverId: string, row: CsvRow)
    requires UpperKeys(row)
    ensures var r := Record(raceId, driverId, row);
      && r.im1aTime.None? && r.im1aElapsed.None? && r.im1Time.None? && r.im1Elapsed.None?
      && r.im2aTime.None? && r.im2aElapsed.None? && r.im2Time.None? && r.im2Elapsed.None?
      && r.im3aTime.None? && r.im3aElapsed.None? && r.flTime.None? && r.flElapsed.None?
  {
    LowerKeyAbsent(row, "IM1a_time", 3);
    LowerKeyAbsent(row, "IM1a_elapsed", 3);
    LowerKeyAbsent(row, "IM1_time", 4);
    LowerKeyAbsent(row, "IM1_elapsed", 4);
    LowerKeyAbsent(row, "IM2a_time", 3);
    LowerKeyAbsent(row, "IM2a_elapsed", 3);
    LowerKeyAbsent(row, "IM2_time", 4);
    LowerKeyAbsent(row, "IM2_elapsed", 4);
    LowerKeyAbsent(row, "IM3a_time", 3);
    LowerKeyAbsent(row, "IM3a_elapsed", 3);
    LowerKeyAbsent(row, "FL_time", 3);
    LowerKeyAbsent(row, "FL_elapsed", 3);
  }

  /** A key with a lower-case letter is not its own upper case, so it is
      not a column of a row with normalised headers. */
  lemma LowerKeyAbsent(row: CsvRow, key: string, i: nat)
    requires UpperKeys(row)
    requires i < |key| && 'a' <= key[i] <= 'z'
    ensures Cell(row, key).None?
  {
    assert ToUpper(key)[i] != key[i];
  }

  // ---------------------------------------------------------------------
  // The records of a sheet and their batches

  /** The records the loop pushes, in sheet order. */
  function Accepted(raceId: string, lookup: map<int, string>, rows: seq<CsvRow>): seq<LapRecord> {
    Present(MapAll(Reader(raceId, lookup), rows))
  }

  /** The loop's reading of one row, as a function of the row. */
  function Reader(raceId: string, lookup: map<int, string>): CsvRow -> Option<LapRecord> {
    row => LapRow(raceId, lookup, row)
  }

  /** Every row yields at most one record; every record comes from a row of
      the sheet, belongs to the race and names a driver of the lookup. */
  lemma AcceptedFromRows(raceId: string, lookup: map<int, string>, rows: seq<CsvRow>)
    ensures |Accepted(raceId, lookup, rows)| <= |rows|
    ensures forall r :: r in Accepted(raceId, lookup, rows) ==>
      && (exists k :: 0 <= k < |rows| && LapRow(raceId, lookup, rows[k]) == Some(r))
      && r.raceId == raceId && r.driverId != ""
  {
    var f := Reader(raceId, lookup);
    PresentMapAll(f, rows);
    assert forall k :: 0 <= k < |rows| ==> f(rows[k]) == LapRow(raceId, lookup, rows[k]);
  }

  /** The batches of `xs` in order, each of `BatchSize` records except a
      shorter last one. */
  function Chunks<T>(xs: seq<T>): seq<seq<T>>
    decreases |xs|
  {
    if xs == [] then []
    else if |xs| <= BatchSize then [xs]
    else [xs[..BatchSize]] + Chunks(xs[BatchSize..])
  }

  /** The batches one after another. */
  function Flatten<T>(bs: seq<seq<T>>): seq<T>
    decreases |bs|
  {
    if bs == [] then [] else Flatten(bs[..|bs| - 1]) + bs[|bs| - 1]
  }

  lemma {:induction false} FlattenCons<T>(b: seq<T>, bs: seq<seq<T>>)
    ensures Flatten([b] + bs) == b + Flatten(bs)
    decreases |bs|
  {
    if bs == [] {
      assert ([b] + bs)[..0] == [];
    } else {
      FlattenCons(b, bs[..|bs| - 1]);
      assert ([b] + bs)[..|bs|] == [b] + bs[..|bs| - 1];
    }
  }

  /** Batching loses, adds and reorders nothing; every batch holds 1 to
      `BatchSize` records and every batch but the last exactly `BatchSize`;
      there are as many batches as `BatchSize` goes into the count, rounded
      up. */
  lemma {:induction false} ChunksSpec<T>(xs: seq<T>)
    ensures Flatten(Chunks(xs)) == xs
    ensures forall j :: 0 <= j < |Chunks(xs)| ==> 0 < |Chunks(xs)[j]| <= BatchSize
    ensures forall j :: 0 <= j < |Chunks(xs)| - 1 ==> |Chunks(xs)[j]| == BatchSize
    ensures |Chunks(xs)| == (|xs| + BatchSize - 1) / BatchSize
    decreases |xs|
  {
    if xs == [] {
    } else if |xs| <= BatchSize {
      assert Flatten([xs]) == Flatten([xs][..0]) + xs;
    } else {
      var rest := xs[BatchSize..];
      ChunksSpec(rest);
      FlattenCons(xs[..BatchSize], Chunks(rest));
      assert xs[..BatchSize] + rest == xs;
      var c := Chunks(xs);
      assert c == [xs[..BatchSize]] + Chunks(rest);
      assert forall j :: 1 <= j < |c| ==> c[j] == Chunks(rest)[j - 1];
    }
  }

  /** Full batches followed by a short remainder are the batches of their
      concatenation. */
  lemma {:induction false} ChunksOfFull<T>(bs: seq<seq<T>>, r: seq<T>)
    requires forall j :: 0 <= j < |bs| ==> |bs[j]| == BatchSize
    requires |r| < BatchSize
    ensures Chunks(Flatten(bs) + r) == bs + Chunks(r)
    decreases |bs|
  {
    if bs != [] {
      ChunksOfFull(bs[1..], r);
      FlattenCons(bs[0], bs[1..]);
      assert [bs[0]] + bs[1..] == bs;
      var xs := Flatten(bs) + r;
      assert xs == bs[0] + (Flatten(bs[1..]) + r);
      assert xs[..BatchSize] == bs[0];
      assert xs[BatchSize..] == Flatten(bs[1..]) + r;
    } else {
      assert Flatten(bs) + r == r;
    }
  }

  // ---------------------------------------------------------------------
  // The upload

  /** The records of the batches whose insert succeeded, in order:
      `oks[i]` says whether the insert of `bs[i]` succeeded. */
  function Kept<T>(bs: seq<seq<T>>, oks: seq<bool>): seq<T>
    requires |bs| == |oks|
    decreases |bs|
  {
    if bs == [] then []
    else Kept(bs[..|bs| - 1], oks[..|oks| - 1]) + (if oks[|oks| - 1] then bs[|bs| - 1] else [])
  }

  lemma KeptSnoc<T>(bs: seq<seq<T>>, oks: seq<bool>, b: seq<T>, ok: bool)
    requires |bs| == |oks|
    ensures Kept(bs + [b], oks + [ok]) == Kept(bs, oks) + (if ok then b else [])
  {
    assert (bs + [b])[..|bs|] == bs;
    assert (oks + [ok])[..|oks|] == oks;
  }

  /** Only records of the batches sent can be kept. */
  lemma {:induction false} KeptWithin<T>(bs: seq<seq<T>>, oks: seq<bool>)
    requires |bs| == |oks|
    ensures |Kept(bs, oks)| <= |Flatten(bs)|
    decreases |bs|
  {
    if bs != [] {
      KeptWithin(bs[..|bs| - 1], oks[..|oks| - 1]);
    }
  }

  /** The outcomes logged after the first `n0` are one per batch sent, and
      what is stored after `stored0` is the records those outcomes kept. */
  ghost predicate Logged<T>(oks: seq<bool>, stored: seq<T>, n0: nat, oks0: seq<bool>, stored0: seq<T>, sent: seq<seq<T>>) {
    && |oks| == n0 + |sent| && oks[..n0] == oks0
    && stored == stored0 + Kept(sent, oks[n0..])
  }

  /** One more insert, successful or not, keeps the log in step. */
  lemma LoggedSnoc<T>(oks: seq<bool>, stored: seq<T>, n0: nat, oks0: seq<bool>, stored0: seq<T>, sent: seq<seq<T>>, b: seq<T>, ok: bool)
    requires Logged(oks, stored, n0, oks0, stored0, sent)
    ensures Logged(oks + [ok], stored + (if ok then b else []), n0, oks0, stored0, sent + [b])
  {
    assert (oks + [ok])[n0..] == oks[n0..] + [ok];
    assert (oks + [ok])[..n0] == oks[..n0];
    KeptSnoc(sent, oks[n0..], b, ok);
  }

  /** The `laps` table, as far as the upload sees it: the records it holds,
      every batch handed to `insert`, in order, and (for the proofs) whether
      each of those inserts succeeded. */
  class LapsTable {
    var stored: seq<LapRecord>
    var attempts: seq<seq<LapRecord>>
    ghost var oks: seq<bool>

    constructor ()
      ensures stored == [] && attempts == [] && oks == []
    {
      stored := [];
      attempts := [];
      oks := [];
    }

    /** `supabase.from('laps').insert(batch)`: the batch is stored whole
        when the insert succeeds and not at all when it returns an error;
        which happens is up to the database. */
    method Insert(batch: seq<LapRecord>) returns (ok: bool)
      modifies this
      ensures attempts == old(attempts) + [batch]
      ensures oks == old(oks) + [ok]
      ensures stored == if ok then old(stored) + batch else old(stored)
    {
      ok :| true;
      attempts := attempts + [batch];
      oks := oks + [ok];
      if ok {
        stored := stored + batch;
      }
    }
  }

  /** The upload of a sheet: the driver lookup is filled, then every row
      of the sheet is read (see `Complete`). */
  method UploadLaps(raceId: string, drivers: seq<Driver>, rows: seq<CsvRow>, table: LapsTable)
    returns (rowCount: nat, uploadedCount: nat)
    modifies table
    ensures rowCount == |rows|
    ensures table.attempts == old(table.attempts) + Chunks(Accepted(raceId, LookupOf(drivers), rows))
    ensures |table.oks| == |old(table.oks)| + |Chunks(Accepted(raceId, LookupOf(drivers), rows))|
    ensures table.oks[..|old(table.oks)|] == old(table.oks)
    ensures var kept := Kept(Chunks(Accepted(raceId, LookupOf(drivers), rows)), table.oks[|old(table.oks)|..]);
      table.stored == old(table.stored) + kept && uploadedCount == |kept|
    ensures uploadedCount <= |Accepted(raceId, LookupOf(drivers), rows)|
  {
    var driverLookup := BuildLookup(drivers);
    rowCount, uploadedCount := Complete(Reader(raceId, driverLookup), rows, table);
  }

  /** `complete`: every row is counted; the record of each row that is not
      skipped (`lapOf` gives none for those) is pushed onto the batch, in
      sheet order; a full batch of `BatchSize` is inserted at once and the
      remainder after the last row; the batch is emptied after every insert,
      successful or not. The table then holds, after what it held before,
      exactly the records of the inserts that succeeded, in order, and only
      those are counted as uploaded. */
  method Complete(lapOf: CsvRow -> Option<LapRecord>, rows: seq<CsvRow>, table: LapsTable)
    returns (rowCount: nat, uploadedCount: nat)
    modifies table
    ensures rowCount == |rows|
    ensures table.attempts == old(table.attempts) + Chunks(Present(MapAll(lapOf, rows)))
    ensures |table.oks| == |old(table.oks)| + |Chunks(Present(MapAll(lapOf, rows)))|
    ensures table.oks[..|old(table.oks)|] == old(table.oks)
    ensures var kept := Kept(Chunks(Present(MapAll(lapOf, rows))), table.oks[|old(table.oks)|..]);
      table.stored == old(table.stored) + kept && uploadedCount == |kept|
    ensures uploadedCount <= |Present(MapAll(lapOf, rows))|
  {
    var batch: seq<LapRecord>;
    ghost var sent: seq<seq<LapRecord>>;
    ghost var n0, oks0, stored0 := |table.oks|, table.oks, table.stored;
    rowCount, batch, sent, uploadedCount := ReadRows(lapOf, rows, table);
    if |batch| > 0 {
      ghost var before, storedBefore := table.oks, table.stored;
      var ok := table.Insert(batch);
      if ok {
        uploadedCount := uploadedCount + |batch|;
      }
      LoggedSnoc(before, storedBefore, n0, oks0, stored0, sent, batch, ok);
    }
    ghost var records := Present(MapAll(lapOf, rows));
    FinalLog(records, sent, batch, table.oks, table.stored, n0, oks0, stored0);
    assert Logged(table.oks, table.stored, n0, oks0, stored0, Chunks(records));
  }

  /** After the last row, the batches sent (the remainder included) are the
      batching of all the records, and the log covers exactly those. */
  lemma FinalLog(records: seq<LapRecord>, sent: seq<seq<LapRecord>>, batch: seq<LapRecord>,
                 oks: seq<bool>, stored: seq<LapRecord>, n0: nat, oks0: seq<bool>, stored0: seq<LapRecord>)
    requires forall j :: 0 <= j < |sent| ==> |sent[j]| == BatchSize
    requires Flatten(sent) + batch == records && |batch| < BatchSize
    requires Logged(oks, stored, n0, oks0, stored0, if |batch| > 0 then sent + [batch] else sent)
    ensures Chunks(records) == if |batch| > 0 then sent + [batch] else sent
    ensures Logged(oks, stored, n0, oks0, stored0, Chunks(records))
    ensures |Kept(Chunks(records), oks[n0..])| <= |records|
  {
    ChunksOfFull(sent, batch);
    if |batch| > 0 {
      assert Chunks(batch) == [batch];
    } else {
      assert sent + Chunks(batch) == sent;
    }
    KeptWithin(Chunks(records), oks[n0..]);
    ChunksSpec(records);
  }

  /** The `for` loop of `complete`: every row counted, the records pushed
      in sheet order, each full batch inserted; what is left is a batch
      shorter than `BatchSize`. */
  method ReadRows(lapOf: CsvRow -> Option<LapRecord>, rows: seq<CsvRow>, table: LapsTable)
    returns (rowCount: nat, batch: seq<LapRecord>, ghost sent: seq<seq<LapRecord>>, uploadedCount: nat)
    modifies table
    ensures rowCount == |rows|
    ensures table.attempts == old(table.attempts) + sent
    ensures forall j :: 0 <= j < |sent| ==> |sent[j]| == BatchSize
    ensures Flatten(sent) + batch == Present(MapAll(lapOf, rows))
    ensures |batch| < BatchSize
    ensures Logged(table.oks, table.stored, |old(table.oks)|, old(table.oks), old(table.stored), sent)
    ensures |table.stored| == |old(table.stored)| + uploadedCount
  {
    batch := [];
    sent := [];
    ghost var n0, oks0, stored0 := |table.oks|, table.oks, table.stored;
    rowCount, uploadedCount := 0, 0;
    var uploaded: nat;
    for i := 0 to |rows|
      invariant rowCount == i
      invariant table.attempts == old(table.attempts) + sent
      invariant forall j :: 0 <= j < |sent| ==> |sent[j]| == BatchSize
      invariant Flatten(sent) + batch == Present(MapAll(lapOf, rows[..i]))
      invariant |batch| < BatchSize
      invariant Logged(table.oks, table.stored, n0, oks0, stored0, sent)
      invariant |table.stored| == |stored0| + uploadedCount
    {
      rowCount := rowCount + 1;
      var lapData := lapOf(rows[i]);
      ReadStep(lapOf, rows, i);
      if lapData.None? {
        continue;
      }
      batch, sent, uploaded := PushRecord(table, batch, lapData.value, sent, n0, oks0, stored0);
      uploadedCount := uploadedCount + uploaded;
    }
    assert rows[..|rows|] == rows;
  }

  /** Reading one more row adds its record, if any, at the end. */
  lemma ReadStep<A, B>(f: A -> Option<B>, xs: seq<A>, i: nat)
    requires i < |xs|
    ensures Present(MapAll(f, xs[..i + 1])) == Present(MapAll(f, xs[..i])) + Present([f(xs[i])])
  {
    assert xs[..i + 1] == xs[..i] + [xs[i]];
    MapAllAppend(f, xs[..i], [xs[i]]);
    PresentAppend(MapAll(f, xs[..i]), MapAll(f, [xs[i]]));
  }

  /** `batch.push(lapData)`, then the insert of the batch once it is full,
      after which the batch is empty whether or not the insert succeeded; a
      successful insert stores and counts the whole batch, a failed one
      neither. */
  method PushRecord(table: LapsTable, batch: seq<LapRecord>, lapData: LapRecord, ghost sent: seq<seq<LapRecord>>,
                    ghost n0: nat, ghost oks0: seq<bool>, ghost stored0: seq<LapRecord>)
    returns (newBatch: seq<LapRecord>, ghost newSent: seq<seq<LapRecord>>, uploaded: nat)
    requires |batch| < BatchSize
    requires Logged(table.oks, table.stored, n0, oks0, stored0, sent)
    modifies table
    ensures Logged(table.oks, table.stored, n0, oks0, stored0, newSent)
    ensures |newBatch| < BatchSize
    ensures Flatten(newSent) + newBatch == Flatten(sent) + batch + [lapData]
    ensures |batch| + 1 < BatchSize ==>
      && newBatch == batch + [lapData] && newSent == sent && uploaded == 0
      && table.attempts == old(table.attempts) && table.oks == old(table.oks)
      && table.stored == old(table.stored)
    ensures |batch| + 1 == BatchSize ==>
      && newBatch == [] && newSent == sent + [batch + [lapData]]
      && table.attempts == old(table.attempts) + [batch + [lapData]]
      && |table.oks| == |old(table.oks)| + 1 && table.oks[..|old(table.oks)|] == old(table.oks)
      && table.stored == old(table.stored) + (if table.oks[|old(table.oks)|] then batch + [lapData] else [])
      && uploaded == (if table.oks[|old(table.oks)|] then BatchSize else 0)
  {
    newBatch := batch + [lapData];
    newSent := sent;
    uploaded := 0;
    if |newBatch| >= BatchSize {
      ghost var before, storedBefore := table.oks, table.stored;
      var ok := table.Insert(newBatch);
      LoggedSnoc(before, storedBefore, n0, oks0, stored0, sent, newBatch, ok);
      if ok {
        uploaded := |newBatch|;
      }
      FlattenSnoc(sent, newBatch);
      newSent := sent + [newBatch];
      newBatch := [];
    }
  }

  lemma FlattenSnoc<T>(bs: seq<seq<T>>, b: seq<T>)
    ensures Flatten(bs + [b]) == Flatten(bs) + b
  {
    assert (bs + [b])[..|bs|] == bs;
  }
}
