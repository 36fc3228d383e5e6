/**
 * The EIA adapter: one request with retries per region; each returned
 * record is stamped with the region's name and state; the timestamp and
 * measurement columns are detected and renamed; the result is a table
 * with the fixed energy columns.
 */
module Energy {
  import opened Wrappers
  import opened Records
  import opened Frames
  import opened Retry
  import opened Collection

  const EnergyColumns: seq<string> := ["region", "state", "date", "value"]

  /** The fields stamped on every record fetched for a region, in assignment order. */
  function EnergyStamps(region: Entity): Stamps {
    [("region", region.name), ("state", region.state)]
  }

  /** The units of the energy loop: one per region, in list order. */
  function EnergyUnits(regions: seq<Entity>): seq<Stamps> {
    seq(|regions|, i requires 0 <= i < |regions| => EnergyStamps(regions[i]))
  }

  /** The timestamp column: `period` when some record has it, `date` otherwise. */
  function DateColumn(columns: seq<string>): string {
    if "period" in columns then "period" else "date"
  }

  /**
   * The measurement column as the adapter resolves it: `value` when
   * present, otherwise the last column of the table (None: the table has
   * no column, and indexing it fails).
   */
  function ValueColumnAsWritten(columns: seq<string>): Option<string> {
    if "value" in columns then Some("value")
    else if columns == [] then None
    else Some(columns[|columns| - 1])
  }

  /** A column the adapter writes itself rather than receiving it from the source. */
  predicate IsStamped(column: string) {
    column == "region" || column == "state"
  }

  /** Every column after position i is a stamped one. */
  ghost predicate OnlyStampedAfter(columns: seq<string>, i: nat) {
    forall j :: i < j < |columns| ==> IsStamped(columns[j])
  }

  /** The last column the source supplied, skipping the stamped columns. */
  function LastPayloadColumn(columns: seq<string>): (r: Option<string>)
    ensures r.Some? ==> r.value in columns && !IsStamped(r.value)
    ensures r.None? <==> forall c :: c in columns ==> IsStamped(c)
    ensures r.Some? ==> (exists i :: 0 <= i < |columns| && columns[i] == r.value && OnlyStampedAfter(columns, i))
    decreases |columns|
  {
    if columns == [] then None
    else if !IsStamped(columns[|columns| - 1]) then Some(columns[|columns| - 1])
    else
      var init := columns[..|columns| - 1];
      var r := LastPayloadColumn(init);
      assert forall c :: c in columns ==> c in init || c == columns[|columns| - 1];
      assert r.Some? ==> (exists i :: 0 <= i < |columns| && columns[i] == r.value && OnlyStampedAfter(columns, i)) by {
        if r.Some? {
          var i :| 0 <= i < |init| && init[i] == r.value && OnlyStampedAfter(init, i);
          assert columns[i] == r.value;
          assert forall j :: i < j < |init| ==> columns[j] == init[j];
          assert OnlyStampedAfter(columns, i);
        }
      }
      r
  }

  /** The measurement column as evidently intended: `value`, otherwise the last column of the payload. */
  function ValueColumn(columns: seq<string>): Option<string> {
    if "value" in columns then Some("value") else LastPayloadColumn(columns)
  }

  /** The rename dict: timestamp column to `date`, measurement column to `value`, region and state unchanged. */
  function EnergyRenames(dateColumn: string, valueColumn: string): seq<(string, string)> {
    [(dateColumn, "date"), (valueColumn, "value"), ("region", "region"), ("state", "state")]
  }

  /** Rename with the resolved columns, then select region, state, date, value. */
  function EnergyFrame(records: seq<Record>, valueColumn: string): Result<Table, Error> {
    RenameAndSelect(records, EnergyRenames(DateColumn(Columns(records)), valueColumn), EnergyColumns)
  }

  /** The energy table as the adapter builds it. */
  function EnergyTableAsWritten(records: seq<Record>): Result<Table, Error> {
    if records == [] then Ok(EmptyTable(EnergyColumns))
    else
      match ValueColumnAsWritten(Columns(records))
      case None => Err(NoColumns)
      case Some(v) => EnergyFrame(records, v)
  }

  /** The energy table with the measurement fallback taken from the payload's own columns. */
  function EnergyTable(records: seq<Record>): Result<Table, Error> {
    if records == [] then Ok(EmptyTable(EnergyColumns))
    else
      match ValueColumn(Columns(records))
      case None => Err(MissingColumn("value"))
      case Some(v) => EnergyFrame(records, v)
  }

  /** Fetches every region and builds the energy table. */
  method FetchEnergy(regions: seq<Entity>, script: seq<Response>, maxRetries: nat, backoff: nat)
    returns (table: Result<Table, Error>, rest: seq<Response>, ghost requests: nat, ghost waits: seq<nat>)
    ensures var c := Collect(Eia, EnergyUnits(regions), script, maxRetries, backoff);
      table == EnergyTable(c.records) && rest == c.rest && requests == c.requests && waits == c.waits
    ensures var records := Collect(Eia, EnergyUnits(regions), script, maxRetries, backoff).records;
      && (EnergyTableAsWritten(records).Ok? ==> table == EnergyTableAsWritten(records))
      && (HasColumn(records, "value") ==> table == EnergyTableAsWritten(records))
    ensures regions == [] ==> table == Ok(Table(EnergyColumns, [])) && rest == script
  {
    ghost var units := EnergyUnits(regions);
    ghost var whole := Collect(Eia, units, script, maxRetries, backoff);
    var records: seq<Record> := [];
    rest, requests, waits := script, 0, [];
    assert units[0..] == units;
    for i := 0 to |regions|
      invariant Join(records, requests, waits, Collect(Eia, units[i..], rest, maxRetries, backoff)) == whole
    {
      var region := regions[i];
      assert units[i..][1..] == units[i + 1..];
      records, rest, requests, waits := RunUnit(Eia, EnergyStamps(region), units[i..], records, rest, requests, waits, maxRetries, backoff);
    }
    assert Collect(Eia, units[|regions|..], rest, maxRetries, backoff).records == [];
    assert records + [] == records;
    assert waits + [] == waits;
    table := EnergyTable(records);
    AsWrittenOkAgrees(records);
    if HasColumn(records, "value") {
      EnergyTablesAgreeWithValue(records);
    }
  }

  /** The dict literal's later `state` entry overrides an earlier one, and likewise for `region`. */
  lemma EnergyRenameOf(dateColumn: string, valueColumn: string, c: string)
    ensures RenameOf(c, EnergyRenames(dateColumn, valueColumn)) ==
      if c == "state" || c == "region" then c
      else if c == valueColumn then "value"
      else if c == dateColumn then "date"
      else c
  {
    var r4 := EnergyRenames(dateColumn, valueColumn);
    var r3 := [(dateColumn, "date"), (valueColumn, "value"), ("region", "region")];
    var r2 := [(dateColumn, "date"), (valueColumn, "value")];
    var r1 := [(dateColumn, "date")];
    assert r4[..3] == r3 && r3[..2] == r2 && r2[..1] == r1 && r1[..0] == [];
    assert RenameOf(c, r1) == if c == dateColumn then "date" else c;
    assert RenameOf(c, r2) == if c == valueColumn then "value" else RenameOf(c, r1);
    assert RenameOf(c, r3) == if c == "region" then c else RenameOf(c, r2);
    assert RenameOf(c, r4) == if c == "state" then c else RenameOf(c, r3);
  }

  /** The only column renamed to `wanted` is `source`, so the selection takes `wanted` from it. */
  lemma OriginIs(columns: seq<string>, renames: seq<(string, string)>, wanted: string, source: string)
    requires source in columns && RenameOf(source, renames) == wanted
    requires forall c :: c in columns && c != source ==> RenameOf(c, renames) != wanted
    ensures Origin(columns, renames, wanted) == Some(source)
  {
  }

  /**
   * When every record is selected from four known source columns, the
   * table is built and each row holds the record's values for them.
   */
  lemma EnergyRows(records: seq<Record>, valueColumn: string, sources: seq<string>)
    requires |sources| == 4
    requires forall j :: 0 <= j < 4 ==>
      Origin(Columns(records), EnergyRenames(DateColumn(Columns(records)), valueColumn), EnergyColumns[j]) == Some(sources[j])
    ensures var r := EnergyFrame(records, valueColumn);
      && r.Ok? && r.value.columns == EnergyColumns && |r.value.rows| == |records|
      && forall i :: 0 <= i < |records| ==>
           r.value.rows[i] == [Lookup(records[i], sources[0]), Lookup(records[i], sources[1]),
                               Lookup(records[i], sources[2]), Lookup(records[i], sources[3])]
  {
    var renames := EnergyRenames(DateColumn(Columns(records)), valueColumn);
    OriginsOf(Columns(records), renames, EnergyColumns, sources);
    SelectFrom(records, renames, EnergyColumns, sources);
    var r := EnergyFrame(records, valueColumn);
    forall i | 0 <= i < |records|
      ensures r.value.rows[i] == [Lookup(records[i], sources[0]), Lookup(records[i], sources[1]),
                                  Lookup(records[i], sources[2]), Lookup(records[i], sources[3])]
    {
      RowOfFour(r.value.rows[i], Lookup(records[i], sources[0]), Lookup(records[i], sources[1]),
                Lookup(records[i], sources[2]), Lookup(records[i], sources[3]));
    }
  }

  lemma RowOfFour(row: seq<Cell>, a: Cell, b: Cell, c: Cell, d: Cell)
    requires |row| == 4 && row[0] == a && row[1] == b && row[2] == c && row[3] == d
    ensures row == [a, b, c, d]
  {
  }

  /**
   * The energy table always has exactly the columns region, state, date,
   * value in that order, an empty table when there are no records, and one
   * row of four cells per record otherwise.
   */
  lemma EnergyTableSchema(records: seq<Record>)
    ensures records == [] ==> EnergyTable(records) == Ok(Table(EnergyColumns, []))
    ensures var r := EnergyTable(records);
      r.Ok? ==> (r.value.columns == EnergyColumns && |r.value.rows| == |records| &&
                 forall i :: 0 <= i < |records| ==> |r.value.rows[i]| == 4)
  {
    if records != [] && ValueColumn(Columns(records)).Some? {
      var v := ValueColumn(Columns(records)).value;
      SelectSpec(records, EnergyRenames(DateColumn(Columns(records)), v), EnergyColumns);
    }
  }

  /** With a `value` column the correction changes nothing: both builds agree. */
  lemma EnergyTablesAgreeWithValue(records: seq<Record>)
    requires HasColumn(records, "value")
    ensures EnergyTable(records) == EnergyTableAsWritten(records)
  {
    assert "value" in Columns(records);
  }

  /**
   * With an unambiguous timestamp column `d` and measurement column `v`
   * (no other column is called `date` or `value`), the four selected
   * columns come from region, state, `d` and `v`.
   */
  lemma EnergyOrigins(columns: seq<string>, d: string, v: string)
    requires d in columns && v in columns && "region" in columns && "state" in columns
    requires d != v && !IsStamped(d) && !IsStamped(v)
    requires "date" in columns ==> d == "date"
    requires "value" in columns ==> v == "value"
    ensures forall j :: 0 <= j < 4 ==>
      Origin(columns, EnergyRenames(d, v), EnergyColumns[j]) == Some(["region", "state", d, v][j])
  {
    var renames := EnergyRenames(d, v);
    var sources := ["region", "state", d, v];
    forall j | 0 <= j < 4 ensures Origin(columns, renames, EnergyColumns[j]) == Some(sources[j]) {
      var w, s := EnergyColumns[j], sources[j];
      EnergyRenameOf(d, v, s);
      forall c | c in columns && c != s ensures RenameOf(c, renames) != w {
        EnergyRenameOf(d, v, c);
      }
      OriginIs(columns, renames, w, s);
    }
  }

  /**
   * A payload that labels its timestamp `period` (and has no `date`) gives
   * a table whose `date` column holds the period values; region, state and
   * value are taken as they are.
   */
  lemma PeriodBecomesDate(records: seq<Record>)
    requires HasColumn(records, "period") && !HasColumn(records, "date") && HasColumn(records, "value")
    requires HasColumn(records, "region") && HasColumn(records, "state")
    ensures var r := EnergyTable(records);
      && r == EnergyTableAsWritten(records)
      && r.Ok? && r.value.columns == EnergyColumns && |r.value.rows| == |records|
      && forall i :: 0 <= i < |records| ==>
           r.value.rows[i] == [Lookup(records[i], "region"), Lookup(records[i], "state"),
                               Lookup(records[i], "period"), Lookup(records[i], "value")]
  {
    var columns := Columns(records);
    assert records != [] && "value" in columns && "period" in columns && "date" !in columns;
    assert "region" in columns && "state" in columns;
    EnergyTablesAgreeWithValue(records);
    EnergyOrigins(columns, "period", "value");
    EnergyRows(records, "value", ["region", "state", "period", "value"]);
  }

  /** Without a `period` column the timestamp is taken from `date`. */
  lemma DateStaysDate(records: seq<Record>)
    requires !HasColumn(records, "period") && HasColumn(records, "date") && HasColumn(records, "value")
    requires HasColumn(records, "region") && HasColumn(records, "state")
    ensures var r := EnergyTable(records);
      && r == EnergyTableAsWritten(records)
      && r.Ok? && r.value.columns == EnergyColumns && |r.value.rows| == |records|
      && forall i :: 0 <= i < |records| ==>
           r.value.rows[i] == [Lookup(records[i], "region"), Lookup(records[i], "state"),
                               Lookup(records[i], "date"), Lookup(records[i], "value")]
  {
    var columns := Columns(records);
    assert records != [] && "value" in columns && "period" !in columns && "date" in columns;
    assert "region" in columns && "state" in columns;
    EnergyTablesAgreeWithValue(records);
    EnergyOrigins(columns, "date", "value");
    EnergyRows(records, "value", ["region", "state", "date", "value"]);
  }

  /**
   * Corrected: without a `value` column the measurement comes from the
   * last column the payload supplied, and its values fill the table's
   * `value` column (when the timestamp column is unambiguous and is not
   * that column). The program fails here when a stamped column is last.
   */
  lemma ValueFallsBackToPayload(records: seq<Record>)
    requires !HasColumn(records, "value") && HasColumn(records, "region") && HasColumn(records, "state")
    requires HasColumn(records, "period") != HasColumn(records, "date")
    requires LastPayloadColumn(Columns(records)).Some?
    requires LastPayloadColumn(Columns(records)).value != DateColumn(Columns(records))
    ensures var v := LastPayloadColumn(Columns(records)).value;
      var d := DateColumn(Columns(records));
      var r := EnergyTable(records);
      && r.Ok? && r.value.columns == EnergyColumns && |r.value.rows| == |records|
      && forall i :: 0 <= i < |records| ==>
           r.value.rows[i] == [Lookup(records[i], "region"), Lookup(records[i], "state"),
                               Lookup(records[i], d), Lookup(records[i], v)]
  {
    var columns := Columns(records);
    var v := LastPayloadColumn(columns).value;
    var d := DateColumn(columns);
    assert records != [] && "value" !in columns && d in columns;
    assert "region" in columns && "state" in columns;
    assert ValueColumn(columns) == Some(v);
    EnergyOrigins(columns, d, v);
    EnergyRows(records, v, ["region", "state", d, v]);
  }

  /** Stamping a record for a region is setting its `region`, then its `state`. */
  lemma StampEnergy(p: Record, region: Entity)
    ensures Stamp(p, EnergyStamps(region)) == Set(Set(p, "region", region.name), "state", region.state)
  {
    var stamps := EnergyStamps(region);
    var first := [("region", region.name)];
    assert stamps[..1] == first && first[..0] == [];
    assert Stamp(p, first) == Set(Stamp(p, []), "region", region.name);
  }

  /** A stamped record reads the region's name and state; every other field is the payload's. */
  lemma StampedEnergyLookup(p: Record, region: Entity, k: string)
    ensures Lookup(Stamp(p, EnergyStamps(region)), k) ==
      if k == "state" then Some(region.state)
      else if k == "region" then Some(region.name)
      else Lookup(p, k)
  {
    StampEnergy(p, region);
    SetEffect(p, "region", region.name);
    SetEffect(Set(p, "region", region.name), "state", region.state);
  }

  /** Stamping a record that has neither key appends `region` and then `state` to its keys. */
  lemma StampedEnergyKeys(p: Record, region: Entity)
    requires "region" !in p.values && "state" !in p.values
    ensures Stamp(p, EnergyStamps(region)).keys == p.keys + ["region", "state"]
  {
    StampEnergy(p, region);
  }

  /** Behind the two stamped columns, the last payload column is the last one the payload has. */
  lemma LastPayloadBeforeStamps(ks: seq<string>)
    requires |ks| > 0 && !IsStamped(ks[|ks| - 1])
    ensures LastPayloadColumn(ks + ["region", "state"]) == Some(ks[|ks| - 1])
  {
    var columns := ks + ["region", "state"];
    var withRegion := ks + ["region"];
    assert columns[|columns| - 1] == "state" && columns[..|columns| - 1] == withRegion;
    assert withRegion[|withRegion| - 1] == "region" && withRegion[..|ks|] == ks;
    assert LastPayloadColumn(ks) == Some(ks[|ks| - 1]);
    assert LastPayloadColumn(withRegion) == Some(ks[|ks| - 1]);
  }

  /**
   * Payload records sharing the keys `ks` (none of them stamped) give,
   * after stamping, the columns `ks` followed by region and state.
   */
  lemma StampedEnergyColumns(payload: seq<Record>, ks: seq<string>, region: Entity)
    requires payload != []
    requires forall i :: 0 <= i < |payload| ==> payload[i].keys == ks
    requires "region" !in ks && "state" !in ks
    ensures Columns(StampAll(payload, EnergyStamps(region))) == ks + ["region", "state"]
  {
    var records := StampAll(payload, EnergyStamps(region));
    forall i | 0 <= i < |records| ensures records[i].keys == ks + ["region", "state"] {
      StampedEnergyKeys(payload[i], region);
    }
    ColumnsOfUniform(records, ks + ["region", "state"]);
  }

  /**
   * As written, a table without `value` whose last column is a stamped one
   * (`state`, as stamping leaves it) cannot be built: that column is
   * renamed to `value` and then straight back by the later entry, so no
   * column becomes `value`.
   */
  lemma AsWrittenLosesValue(records: seq<Record>)
    requires records != [] && !HasColumn(records, "value")
    requires var cs := Columns(records); |cs| > 0 && IsStamped(cs[|cs| - 1])
    ensures EnergyTableAsWritten(records).Err?
  {
    var columns := Columns(records);
    var d := DateColumn(columns);
    var v := columns[|columns| - 1];
    assert "value" !in columns;
    assert ValueColumnAsWritten(columns) == Some(v);
    var renames := EnergyRenames(d, v);
    forall c | c in columns ensures RenameOf(c, renames) != "value" {
      EnergyRenameOf(d, v, c);
    }
    assert Origin(columns, renames, "value").None?;
    assert "value" in EnergyColumns;
    SelectSpec(records, renames, EnergyColumns);
  }

  /**
   * Wherever the adapter as written builds a table, the corrected rule
   * builds the same table: the two differ only where the program fails.
   */
  lemma AsWrittenOkAgrees(records: seq<Record>)
    ensures EnergyTableAsWritten(records).Ok? ==> EnergyTable(records) == EnergyTableAsWritten(records)
  {
    if records != [] {
      if HasColumn(records, "value") {
        EnergyTablesAgreeWithValue(records);
      } else {
        AgreeWithoutValue(records);
      }
    }
  }

  /** Without `value`, the program either fails or picks the payload's last column, as the correction does. */
  lemma AgreeWithoutValue(records: seq<Record>)
    requires records != [] && !HasColumn(records, "value")
    ensures EnergyTableAsWritten(records).Ok? ==> EnergyTable(records) == EnergyTableAsWritten(records)
  {
    var columns := Columns(records);
    if columns == [] {
      assert EnergyTableAsWritten(records) == Err(NoColumns);
    } else if IsStamped(columns[|columns| - 1]) {
      AsWrittenLosesValue(records);
    } else {
      AgreeOnPayloadColumn(records);
    }
  }

  /** A payload column last: both rules take it as the measurement. */
  lemma AgreeOnPayloadColumn(records: seq<Record>)
    requires records != [] && !HasColumn(records, "value")
    requires var cs := Columns(records); |cs| > 0 && !IsStamped(cs[|cs| - 1])
    ensures EnergyTable(records) == EnergyTableAsWritten(records)
  {
    ValueColumnsAgree(Columns(records));
    SameValueColumn(records);
  }

  /** Both rules build the same table once they resolve the same measurement column. */
  lemma SameValueColumn(records: seq<Record>)
    requires records != []
    requires ValueColumn(Columns(records)).Some?
    requires ValueColumn(Columns(records)) == ValueColumnAsWritten(Columns(records))
    ensures EnergyTable(records) == EnergyTableAsWritten(records)
  {
  }

  /** The two rules resolve the same measurement column unless `value` is missing and a stamped column is last. */
  lemma ValueColumnsAgree(columns: seq<string>)
    requires "value" in columns || columns == [] || !IsStamped(columns[|columns| - 1])
    ensures ValueColumn(columns) == ValueColumnAsWritten(columns)
  {
  }

  /**
   * As written, when the EIA rows of a region share one key list without
   * a `value` field the energy table cannot be built: stamping makes
   * `state` the last column.
   */
  lemma AsWrittenFailsWithoutValue(payload: seq<Record>, ks: seq<string>, region: Entity)
    requires payload != []
    requires forall i :: 0 <= i < |payload| ==> payload[i].keys == ks
    requires "region" !in ks && "state" !in ks && "value" !in ks
    ensures EnergyTableAsWritten(StampAll(payload, EnergyStamps(region))).Err?
  {
    StampedEnergyColumns(payload, ks, region);
    assert "value" !in ks + ["region", "state"];
    AsWrittenLosesValue(StampAll(payload, EnergyStamps(region)));
  }

  /** Columns made of payload keys `ks` followed by the stamps resolve to the payload's timestamp and last key. */
  lemma ResolvedBehindStamps(ks: seq<string>)
    requires "value" !in ks && ("period" in ks) != ("date" in ks)
    requires |ks| > 0 && !IsStamped(ks[|ks| - 1]) && ks[|ks| - 1] != "period" && ks[|ks| - 1] != "date"
    ensures var columns := ks + ["region", "state"];
      && ValueColumn(columns) == Some(ks[|ks| - 1]) && DateColumn(columns) == DateColumn(ks)
      && DateColumn(ks) in columns && ks[|ks| - 1] in columns && "region" in columns && "state" in columns
      && !IsStamped(DateColumn(ks)) && ("date" in columns ==> DateColumn(ks) == "date")
  {
    var columns := ks + ["region", "state"];
    LastPayloadBeforeStamps(ks);
    assert "value" !in columns;
    assert ("period" in columns) == ("period" in ks) && ("date" in columns) == ("date" in ks);
  }

  /** The corrected table of records whose columns are payload keys `ks` followed by the stamps. */
  lemma CorrectedBehindStamps(records: seq<Record>, ks: seq<string>)
    requires Columns(records) == ks + ["region", "state"]
    requires "value" !in ks && ("period" in ks) != ("date" in ks)
    requires |ks| > 0 && !IsStamped(ks[|ks| - 1]) && ks[|ks| - 1] != "period" && ks[|ks| - 1] != "date"
    ensures var r := EnergyTable(records);
      && r.Ok? && r.value.columns == EnergyColumns && |r.value.rows| == |records|
      && forall i :: 0 <= i < |records| ==>
           r.value.rows[i] == [Lookup(records[i], "region"), Lookup(records[i], "state"),
                               Lookup(records[i], DateColumn(ks)), Lookup(records[i], ks[|ks| - 1])]
  {
    var d, v := DateColumn(ks), ks[|ks| - 1];
    ResolvedBehindStamps(ks);
    assert records != [] by { assert "state" in Columns(records); }
    EnergyOrigins(Columns(records), d, v);
    EnergyRows(records, v, ["region", "state", d, v]);
  }

  /**
   * Corrected, the same rows give a table whose value column holds the
   * payload's last field and whose date column holds its timestamp.
   */
  lemma CorrectedUsesPayloadWithoutValue(payload: seq<Record>, ks: seq<string>, region: Entity)
    requires payload != []
    requires forall i :: 0 <= i < |payload| ==> payload[i].keys == ks
    requires "region" !in ks && "state" !in ks && "value" !in ks
    requires ("period" in ks) != ("date" in ks)
    requires |ks| > 0 && ks[|ks| - 1] != "period" && ks[|ks| - 1] != "date"
    ensures var r := EnergyTable(StampAll(payload, EnergyStamps(region)));
      && r.Ok? && r.value.columns == EnergyColumns && |r.value.rows| == |payload|
      && forall i :: 0 <= i < |payload| ==>
           r.value.rows[i] == [Some(region.name), Some(region.state),
                               Lookup(payload[i], DateColumn(ks)), Lookup(payload[i], ks[|ks| - 1])]
  {
    var records := StampAll(payload, EnergyStamps(region));
    StampedEnergyColumns(payload, ks, region);
    CorrectedBehindStamps(records, ks);
    var r := EnergyTable(records);
    forall i | 0 <= i < |payload|
      ensures r.value.rows[i] == [Some(region.name), Some(region.state),
                                  Lookup(payload[i], DateColumn(ks)), Lookup(payload[i], ks[|ks| - 1])]
    {
      StampedEnergyLookup(payload[i], region, "region");
      StampedEnergyLookup(payload[i], region, "state");
      StampedEnergyLookup(payload[i], region, DateColumn(ks));
      StampedEnergyLookup(payload[i], region, ks[|ks| - 1]);
    }
  }

  /** An hourly EIA row for New York that reports its measurement as `demand` rather than `value`. */
  predicate IsNewYorkDemandRow(row: Record) {
    row == Fields(["period", "respondent", "demand"],
                  map["period" := "2024-06-01T00", "respondent" := "NYIS", "demand" := "20512"])
  }

  /** As written, stamping that row for New York leaves no value column, and the table is lost. */
  lemma NewYorkRowAsWritten(row: Record)
    requires IsNewYorkDemandRow(row)
    ensures EnergyTableAsWritten(StampAll([row], EnergyStamps(Entity("New York", "New York", "GHCND:USW00094728", "NYIS")))).Err?
  {
    var ks := ["period", "respondent", "demand"];
    assert forall i :: 0 <= i < |[row]| ==> [row][i].keys == ks;
    AsWrittenFailsWithoutValue([row], ks, Entity("New York", "New York", "GHCND:USW00094728", "NYIS"));
  }

  /** Corrected, the same row gives one table row holding New York's demand for that hour. */
  lemma NewYorkRowCorrected(row: Record)
    requires IsNewYorkDemandRow(row)
    ensures EnergyTable(StampAll([row], EnergyStamps(Entity("New York", "New York", "GHCND:USW00094728", "NYIS"))))
      == Ok(Table(EnergyColumns, [[Some("New York"), Some("New York"), Some("2024-06-01T00"), Some("20512")]]))
  {
    var region := Entity("New York", "New York", "GHCND:USW00094728", "NYIS");
    var cells := [Some("New York"), Some("New York"), Some("2024-06-01T00"), Some("20512")];
    NewYorkRowCells(row, region, ["period", "respondent", "demand"]);
    SingleRow(EnergyTable(StampAll([row], EnergyStamps(region))).value, EnergyColumns, cells);
  }

  lemma NewYorkRowCells(row: Record, region: Entity, ks: seq<string>)
    requires IsNewYorkDemandRow(row) && ks == ["period", "respondent", "demand"]
    requires region == Entity("New York", "New York", "GHCND:USW00094728", "NYIS")
    ensures var r := EnergyTable(StampAll([row], EnergyStamps(region)));
      && r.Ok? && r.value.columns == EnergyColumns && |r.value.rows| == 1
      && r.value.rows[0] == [Some("New York"), Some("New York"), Some("2024-06-01T00"), Some("20512")]
  {
    DemandRowKeys(row, ks);
    CorrectedUsesPayloadWithoutValue([row], ks, region);
  }

  /** The demand row's keys and the two values the corrected table takes from it. */
  lemma DemandRowKeys(row: Record, ks: seq<string>)
    requires IsNewYorkDemandRow(row) && ks == ["period", "respondent", "demand"]
    ensures forall i :: 0 <= i < |[row]| ==> [row][i].keys == ks
    ensures "region" !in ks && "state" !in ks && "value" !in ks && "period" in ks && "date" !in ks
    ensures DateColumn(ks) == "period" && ks[|ks| - 1] == "demand"
    ensures Lookup(row, "period") == Some("2024-06-01T00") && Lookup(row, "demand") == Some("20512")
  {
  }

  /**
   * Regions are visited in list order: the records fetched for `first +
   * second` are those of `first` followed by those of `second`, which reads
   * the responses `first` left over.
   */
  lemma EnergyRegionOrder(first: seq<Entity>, second: seq<Entity>, script: seq<Response>, maxRetries: nat, backoff: nat)
    ensures var before := Collect(Eia, EnergyUnits(first), script, maxRetries, backoff);
      Collect(Eia, EnergyUnits(first + second), script, maxRetries, backoff).records ==
      before.records + Collect(Eia, EnergyUnits(second), before.rest, maxRetries, backoff).records
  {
    assert EnergyUnits(first + second) == EnergyUnits(first) + EnergyUnits(second);
    CollectAppend(Eia, EnergyUnits(first), EnergyUnits(second), script, maxRetries, backoff);
  }

  /** The reading names one of the regions, with that region's state. */
  ghost predicate TaggedForRegion(r: Record, regions: seq<Entity>) {
    exists c :: 0 <= c < |regions| &&
      Lookup(r, "region") == Some(regions[c].name) && Lookup(r, "state") == Some(regions[c].state)
  }

  /** Every reading names one of the regions, with that region's state. */
  ghost predicate AllTaggedForRegions(records: seq<Record>, regions: seq<Entity>) {
    forall i :: 0 <= i < |records| ==> TaggedForRegion(records[i], regions)
  }

  /**
   * Every fetched reading names one of the regions with that region's
   * state, whatever the payload itself held under those keys.
   */
  lemma EnergyRecordsTagged(regions: seq<Entity>, script: seq<Response>, maxRetries: nat, backoff: nat)
    ensures AllTaggedForRegions(Collect(Eia, EnergyUnits(regions), script, maxRetries, backoff).records, regions)
  {
    var units := EnergyUnits(regions);
    CollectProvenance(Eia, units, script, maxRetries, backoff);
    var records := Collect(Eia, units, script, maxRetries, backoff).records;
    forall i | 0 <= i < |records| ensures TaggedForRegion(records[i], regions) {
      var u :| 0 <= u < |units| && Carries(records[i], units[u]);
      assert units[u][0] == ("region", regions[u].name);
      assert units[u][1] == ("state", regions[u].state);
      assert Lookup(records[i], "region") == Some(regions[u].name);
      assert Lookup(records[i], "state") == Some(regions[u].state);
    }
  }

  /** Each region is asked at most maxRetries + 1 times. */
  lemma EnergyRequestBound(regions: seq<Entity>, script: seq<Response>, maxRetries: nat, backoff: nat)
    ensures Collect(Eia, EnergyUnits(regions), script, maxRetries, backoff).requests <= |regions| * (maxRetries + 1)
  {
    CollectRequestBound(Eia, EnergyUnits(regions), script, maxRetries, backoff);
  }

  /** Tagged readings, as soon as there is one, supply the region and state columns. */
  lemma TaggedHaveStamps(records: seq<Record>, regions: seq<Entity>)
    requires records != [] && AllTaggedForRegions(records, regions)
    ensures HasColumn(records, "region") && HasColumn(records, "state")
  {
    assert TaggedForRegion(records[0], regions);
    assert "region" in records[0].values && "state" in records[0].values;
  }

  /**
   * Fetched readings always carry region and state, so the energy table is
   * built whenever the readings have a `value` and exactly one of `period`
   * and `date`, and then its date column holds that timestamp.
   */
  lemma EnergyTableOfFetched(regions: seq<Entity>, script: seq<Response>, maxRetries: nat, backoff: nat, records: seq<Record>)
    requires records == Collect(Eia, EnergyUnits(regions), script, maxRetries, backoff).records
    requires HasColumn(records, "value") && HasColumn(records, "period") != HasColumn(records, "date")
    ensures var r := EnergyTable(records);
      var d := if HasColumn(records, "period") then "period" else "date";
      && r.Ok? && |r.value.rows| == |records|
      && forall i :: 0 <= i < |records| ==> r.value.rows[i][2] == Lookup(records[i], d)
  {
    EnergyRecordsTagged(regions, script, maxRetries, backoff);
    TaggedHaveStamps(records, regions);
    EnergyTableWithStamps(records);
  }

  /** With region, state and value present, the date column holds whichever timestamp the readings have. */
  lemma EnergyTableWithStamps(records: seq<Record>)
    requires HasColumn(records, "region") && HasColumn(records, "state")
    requires HasColumn(records, "value") && HasColumn(records, "period") != HasColumn(records, "date")
    ensures var r := EnergyTable(records);
      var d := if HasColumn(records, "period") then "period" else "date";
      && r.Ok? && |r.value.rows| == |records|
      && forall i :: 0 <= i < |records| ==> r.value.rows[i][2] == Lookup(records[i], d)
  {
    if HasColumn(records, "period") {
      PeriodBecomesDate(records);
    } else {
      DateStaysDate(records);
    }
  }
}
