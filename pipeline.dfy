/**
 * The entry point: compute the 90-day window, fetch the weather of the
 * five reference cities and then the energy readings of their grid
 * regions, and substitute an empty table with the expected columns for
 * either table that cannot be built.
 */
module Pipeline {
  import opened Wrappers
  import opened Records
  import opened Frames
  import opened Retry
  import opened Collection
  import opened Weather
  import opened Energy
  import opened Dates

  /** The city reference table: name, state, NOAA station, EIA balancing authority. */
  const Cities: seq<Entity> := [
    Entity("New York", "New York", "GHCND:USW00094728", "NYIS"),
    Entity("Chicago", "Illinois", "GHCND:USW00094846", "PJM"),
    Entity("Houston", "Texas", "GHCND:USW00012960", "ERCO"),
    Entity("Phoenix", "Arizona", "GHCND:USW00023183", "AZPS"),
    Entity("Seattle", "Washington", "GHCND:USW00024233", "SCL")
  ]

  /** The retry defaults both adapters are called with. */
  const MaxRetries: nat := 5
  const BackoffFactor: nat := 2

  /** The EIA view of the cities: name, state and region code only. */
  function RegionsOf(cities: seq<Entity>): (regions: seq<Entity>)
    ensures |regions| == |cities|
    ensures forall i :: 0 <= i < |cities| ==> EnergyStamps(regions[i]) == EnergyStamps(cities[i])
    ensures forall i :: 0 <= i < |cities| ==> regions[i].regionCode == cities[i].regionCode
  {
    seq(|cities|, i requires 0 <= i < |cities| => Entity(cities[i].name, cities[i].state, "", cities[i].regionCode))
  }

  /** A table that could not be built is replaced by an empty one with the expected columns. */
  function Fallback(r: Result<Table, Error>, columns: seq<string>): (t: Table)
    ensures r.Ok? ==> t == r.value
    ensures r.Err? ==> t.columns == columns && t.rows == []
  {
    match r
    case Ok(table) => table
    case Err(_) => EmptyTable(columns)
  }

  /** What a run leaves behind: the window asked for and the two tables written out. */
  datatype Output = Output(window: Window, weather: Table, energy: Table)

  /**
   * One run against the responses in `script`. None: the window cannot be
   * computed and the run stops before any request. Otherwise the weather
   * requests read the script first and the energy requests read what they
   * left, each table is the adapter's table or its empty fallback, both
   * have their fixed columns, and at most 90 requests are made. The energy
   * table is built with the corrected measurement fallback; it is the
   * program's table wherever the program builds one, in particular
   * whenever the readings have a `value` column.
   */
  method RunPipeline(today: Day, script: seq<Response>) returns (out: Option<Output>, rest: seq<Response>, ghost requests: nat)
    ensures out.None? <==> ToOrdinal(today) <= 89
    ensures out.None? ==> rest == script && requests == 0
    ensures out.Some? ==>
      var w := Collect(Noaa, WeatherUnits(Cities), script, MaxRetries, BackoffFactor);
      var e := Collect(Eia, EnergyUnits(RegionsOf(Cities)), w.rest, MaxRetries, BackoffFactor);
      && NinetyDayRange(today) == Some(out.value.window)
      && out.value.weather == Fallback(WeatherTable(w.records), WeatherColumns)
      && out.value.energy == Fallback(EnergyTable(e.records), EnergyColumns)
      && rest == e.rest && requests == w.requests + e.requests
      && (EnergyTableAsWritten(e.records).Ok? ==> out.value.energy == EnergyTableAsWritten(e.records).value)
      && (HasColumn(e.records, "value") ==> out.value.energy == Fallback(EnergyTableAsWritten(e.records), EnergyColumns))
    ensures out.Some? ==> out.value.weather.columns == WeatherColumns && out.value.energy.columns == EnergyColumns
    ensures requests <= 90
  {
    NinetyDayRangeSpec(today);
    var window := NinetyDayRange(today);
    if window.None? {
      return None, script, 0;
    }
    var weatherTable, energyTable;
    ghost var weatherRequests, energyRequests, waits;
    weatherTable, rest, weatherRequests, waits := FetchWeather(Cities, script, MaxRetries, BackoffFactor);
    ghost var w := Collect(Noaa, WeatherUnits(Cities), script, MaxRetries, BackoffFactor);
    var regions := RegionsOf(Cities);
    energyTable, rest, energyRequests, waits := FetchEnergy(regions, rest, MaxRetries, BackoffFactor);
    ghost var e := Collect(Eia, EnergyUnits(regions), w.rest, MaxRetries, BackoffFactor);
    WeatherTableSchema(w.records);
    EnergyTableSchema(e.records);
    WeatherRequestBound(Cities, script, MaxRetries, BackoffFactor);
    EnergyRequestBound(regions, w.rest, MaxRetries, BackoffFactor);
    out := Some(Output(window.value, Fallback(weatherTable, WeatherColumns), Fallback(energyTable, EnergyColumns)));
    requests := weatherRequests + energyRequests;
  }
}
