/**
 * The NOAA adapter: for each city, TMAX then TMIN, one request with
 * retries; each returned observation is stamped with the city's name and
 * state and the requested datatype; the result is a table with the fixed
 * weather columns.
 */
module Weather {
  import opened Wrappers
  import opened Records
  import opened Frames
  import opened Retry
  import opened Collection

  const WeatherColumns: seq<string> := ["city", "state", "date", "datatype", "value"]

  /** The rename dict of the weather adapter lists every column under its own name. */
  const WeatherRenames: seq<(string, string)> :=
    [("date", "date"), ("datatype", "datatype"), ("value", "value"), ("city", "city"), ("state", "state")]

  /** The fields stamped on every observation fetched for a city and a datatype, in assignment order. */
  function WeatherStamps(city: Entity, metric: string): Stamps {
    [("city", city.name), ("state", city.state), ("datatype", metric)]
  }

  /** The units of the weather loop: per city, in list order, TMAX and then TMIN. */
  function WeatherUnits(cities: seq<Entity>): seq<Stamps>
    decreases |cities|
  {
    if cities == [] then []
    else [WeatherStamps(cities[0], "TMAX"), WeatherStamps(cities[0], "TMIN")] + WeatherUnits(cities[1..])
  }

  /** No records: an empty table with the weather columns; otherwise the five columns selected, in order. */
  function WeatherTable(records: seq<Record>): Result<Table, Error> {
    if records == [] then Ok(EmptyTable(WeatherColumns))
    else RenameAndSelect(records, WeatherRenames, WeatherColumns)
  }

  /** Fetches TMAX and TMIN for every city and builds the weather table. */
  method FetchWeather(cities: seq<Entity>, script: seq<Response>, maxRetries: nat, backoff: nat)
    returns (table: Result<Table, Error>, rest: seq<Response>, ghost requests: nat, ghost waits: seq<nat>)
    ensures var c := Collect(Noaa, WeatherUnits(cities), script, maxRetries, backoff);
      table == WeatherTable(c.records) && rest == c.rest && requests == c.requests && waits == c.waits
    ensures cities == [] ==> table == Ok(Table(WeatherColumns, [])) && rest == script
  {
    ghost var whole := Collect(Noaa, WeatherUnits(cities), script, maxRetries, backoff);
    var records: seq<Record> := [];
    rest, requests, waits := script, 0, [];
    assert cities[0..] == cities;
    for i := 0 to |cities|
      invariant Join(records, requests, waits, Collect(Noaa, WeatherUnits(cities[i..]), rest, maxRetries, backoff)) == whole
    {
      var city := cities[i];
      var datatypes := ["TMAX", "TMIN"];
      ghost var units := WeatherUnits(cities[i..]);
      assert units[0..] == units;
      for j := 0 to |datatypes|
        invariant Join(records, requests, waits, Collect(Noaa, units[j..], rest, maxRetries, backoff)) == whole
      {
        assert units[j] == WeatherStamps(city, datatypes[j]);
        assert units[j..][1..] == units[j + 1..];
        records, rest, requests, waits := RunUnit(Noaa, WeatherStamps(city, datatypes[j]), units[j..], records, rest, requests, waits, maxRetries, backoff);
      }
      assert units[2..] == WeatherUnits(cities[i + 1..]) by {
        assert cities[i..][1..] == cities[i + 1..];
      }
    }
    assert Collect(Noaa, WeatherUnits(cities[|cities|..]), rest, maxRetries, backoff).records == [];
    assert records + [] == records;
    assert waits + [] == waits;
    table := WeatherTable(records);
  }

  /** Units come city by city in list order, TMAX before TMIN within a city. */
  lemma {:induction false} WeatherUnitsAt(cities: seq<Entity>, i: int, j: int)
    requires 0 <= i < |cities| && 0 <= j < 2
    ensures |WeatherUnits(cities)| == 2 * |cities|
    ensures WeatherUnits(cities)[2 * i + j] == WeatherStamps(cities[i], ["TMAX", "TMIN"][j])
    decreases |cities|
  {
    WeatherUnitsLength(cities);
    if i > 0 {
      WeatherUnitsAt(cities[1..], i - 1, j);
      assert cities[1..][i - 1] == cities[i];
    }
  }

  lemma {:induction false} WeatherUnitsLength(cities: seq<Entity>)
    ensures |WeatherUnits(cities)| == 2 * |cities|
    decreases |cities|
  {
    if cities != [] {
      WeatherUnitsLength(cities[1..]);
    }
  }

  lemma {:induction false} WeatherUnitsAppend(first: seq<Entity>, second: seq<Entity>)
    ensures WeatherUnits(first + second) == WeatherUnits(first) + WeatherUnits(second)
    decreases |first|
  {
    if first == [] {
      assert [] + second == second;
    } else {
      assert (first + second)[1..] == first[1..] + second;
      WeatherUnitsAppend(first[1..], second);
    }
  }

  /**
   * Rows follow the city list: the records fetched for a list of cities
   * are those of its first part followed by those of its second part,
   * which is fetched with the responses the first part left.
   */
  lemma WeatherCityOrder(first: seq<Entity>, second: seq<Entity>, script: seq<Response>, maxRetries: nat, backoff: nat)
    ensures var before := Collect(Noaa, WeatherUnits(first), script, maxRetries, backoff);
      Collect(Noaa, WeatherUnits(first + second), script, maxRetries, backoff).records ==
      before.records + Collect(Noaa, WeatherUnits(second), before.rest, maxRetries, backoff).records
  {
    WeatherUnitsAppend(first, second);
    CollectAppend(Noaa, WeatherUnits(first), WeatherUnits(second), script, maxRetries, backoff);
  }

  /** The observation names one of the cities, with that city's state, and datatype TMAX or TMIN. */
  ghost predicate TaggedForCity(r: Record, cities: seq<Entity>) {
    && (Lookup(r, "datatype") == Some("TMAX") || Lookup(r, "datatype") == Some("TMIN"))
    && exists c :: 0 <= c < |cities| &&
         Lookup(r, "city") == Some(cities[c].name) && Lookup(r, "state") == Some(cities[c].state)
  }

  /**
   * Every fetched observation names one of the cities, with that city's
   * state, and the datatype that was requested for it (TMAX or TMIN),
   * whatever the payload itself held under those keys.
   */
  lemma WeatherRecordsTagged(cities: seq<Entity>, script: seq<Response>, maxRetries: nat, backoff: nat)
    ensures var records := Collect(Noaa, WeatherUnits(cities), script, maxRetries, backoff).records;
      forall i :: 0 <= i < |records| ==> TaggedForCity(records[i], cities)
  {
    var units := WeatherUnits(cities);
    WeatherUnitsLength(cities);
    forall u | 0 <= u < |units| ensures DistinctKeys(units[u]) {
      WeatherUnitsAt(cities, u / 2, u % 2);
    }
    CollectProvenance(Noaa, units, script, maxRetries, backoff);
    var records := Collect(Noaa, units, script, maxRetries, backoff).records;
    forall i | 0 <= i < |records| ensures TaggedForCity(records[i], cities) {
      var r := records[i];
      var u :| 0 <= u < |units| && Carries(r, units[u]);
      var c := u / 2;
      WeatherUnitsAt(cities, c, u % 2);
      var d := ["TMAX", "TMIN"][u % 2];
      assert units[u] == WeatherStamps(cities[c], d);
      assert units[u][0] == ("city", cities[c].name);
      assert units[u][1] == ("state", cities[c].state);
      assert units[u][2] == ("datatype", d);
      assert Lookup(r, "city") == Some(cities[c].name);
      assert Lookup(r, "state") == Some(cities[c].state);
      assert Lookup(r, "datatype") == Some(d);
    }
  }

  /**
   * The weather table always has exactly the columns city, state, date,
   * datatype, value in that order, also with no records; it has one row
   * per record in record order, each cell the record's value for its
   * column; building it fails exactly when there are records and one of
   * the five columns occurs in none of them.
   */
  lemma WeatherTableSchema(records: seq<Record>)
    ensures var r := WeatherTable(records);
      && (r.Ok? <==> records == [] || forall c :: c in WeatherColumns ==> HasColumn(records, c))
      && (r.Ok? ==> (r.value.columns == WeatherColumns && |r.value.rows| == |records| &&
                     forall i, j :: 0 <= i < |records| && 0 <= j < |WeatherColumns| ==>
                       |r.value.rows[i]| == |WeatherColumns| && r.value.rows[i][j] == Lookup(records[i], WeatherColumns[j])))
      && (r.Err? ==> exists c :: c in WeatherColumns && r.error == MissingColumn(c) && !HasColumn(records, c))
  {
    if records != [] {
      forall w | w in WeatherColumns
        ensures Origin(Columns(records), WeatherRenames, w) == (if HasColumn(records, w) then Some(w) else None)
      {
        WeatherOrigin(records, w);
      }
      SelectSpec(records, WeatherRenames, WeatherColumns);
    }
  }

  /** Every column keeps its name, so a weather column is taken from itself when some record has it. */
  lemma WeatherOrigin(records: seq<Record>, w: string)
    ensures Origin(Columns(records), WeatherRenames, w) == (if HasColumn(records, w) then Some(w) else None)
  {
    var columns := Columns(records);
    var o := Origin(columns, WeatherRenames, w);
    RenameIdentity(WeatherRenames, w);
    if o.Some? {
      RenameIdentity(WeatherRenames, o.value);
      assert o.value == w && w in columns;
    } else {
      assert w !in columns;
    }
    assert w in columns <==> HasColumn(records, w);
  }

  /** The table can be built exactly when there are no records or each of the five columns occurs. */
  lemma WeatherTableOkIff(records: seq<Record>)
    ensures WeatherTable(records).Ok? <==> records == [] || forall c :: c in WeatherColumns ==> HasColumn(records, c)
  {
    WeatherTableSchema(records);
  }

  /**
   * For stamped observations city, state and datatype are always present,
   * so the weather table can be built exactly when some observation has a
   * date and some observation has a value.
   */
  lemma WeatherTableOfTagged(records: seq<Record>, cities: seq<Entity>)
    requires forall i :: 0 <= i < |records| ==> TaggedForCity(records[i], cities)
    ensures WeatherTable(records).Ok? <==> records == [] || (HasColumn(records, "date") && HasColumn(records, "value"))
  {
    WeatherTableOkIff(records);
    if records != [] {
      var first := records[0];
      assert TaggedForCity(first, cities);
      assert Lookup(first, "city").Some? && Lookup(first, "state").Some? && Lookup(first, "datatype").Some?;
      assert HasColumn(records, "city") && HasColumn(records, "state") && HasColumn(records, "datatype");
      HasWeatherColumns(records);
    }
  }

  lemma HasWeatherColumns(records: seq<Record>)
    ensures (forall c :: c in WeatherColumns ==> HasColumn(records, c)) <==>
            HasColumn(records, "city") && HasColumn(records, "state") && HasColumn(records, "date") &&
            HasColumn(records, "datatype") && HasColumn(records, "value")
  {
  }

  lemma WeatherTableOfFetched(cities: seq<Entity>, script: seq<Response>, maxRetries: nat, backoff: nat)
    ensures var records := Collect(Noaa, WeatherUnits(cities), script, maxRetries, backoff).records;
      WeatherTable(records).Ok? <==> records == [] || (HasColumn(records, "date") && HasColumn(records, "value"))
  {
    WeatherRecordsTagged(cities, script, maxRetries, backoff);
    WeatherTableOfTagged(Collect(Noaa, WeatherUnits(cities), script, maxRetries, backoff).records, cities);
  }

  /** The weather adapter makes at most `2 * (maxRetries + 1)` requests per city. */
  lemma WeatherRequestBound(cities: seq<Entity>, script: seq<Response>, maxRetries: nat, backoff: nat)
    ensures Collect(Noaa, WeatherUnits(cities), script, maxRetries, backoff).requests <= 2 * |cities| * (maxRetries + 1)
  {
    WeatherUnitsLength(cities);
    CollectRequestBound(Noaa, WeatherUnits(cities), script, maxRetries, backoff);
  }
}
