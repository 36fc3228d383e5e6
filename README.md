# US weather and energy data fetcher, modelled in Dafny

The model covers the data-collection stage of a pipeline. The stage pulls
two kinds of data for five reference cities (New York, Chicago, Houston,
Phoenix, Seattle) over the last 90 days:

- daily maximum and minimum temperatures (TMAX, TMIN) from the NOAA Climate
  Data Online service;
- hourly electricity demand for each city's balancing authority from the
  EIA.

Both adapters work the same way:

- Each unit (a city and a datatype for NOAA, a region for EIA) gets one
  request with retries and exponential backoff. A 429 response and any
  exception both sleep `backoff_factor ** attempt` seconds and try again,
  while `attempt <= max_retries`.
- Every record a unit receives is stamped with the unit's identifying fields
  and appended. A unit whose retries run out adds nothing, and the next unit
  still runs (for payloads whose items are JSON objects; see "## Left out").
- The records become a table with a fixed column list. The EIA adapter first
  detects its timestamp column (`period`, otherwise `date`) and its
  measurement column.
- The entry point computes the window (today and the day 89 days earlier, as
  `YYYY-MM-DD`) and runs the weather adapter, then the energy adapter. For
  either table that cannot be built it substitutes an empty table with that
  adapter's columns.

The model is organised as follows:

- **Transport.** The network is a scripted sequence of responses, consumed
  one per request. A request made after the script runs out behaves like a
  lost connection. The number of requests and the list of sleeps are ghost
  outputs of the loops.
- **Records.** A record is a Python dict with its keys in insertion order. A
  table is a column list plus rows of optional cells (None for a missing
  value).
- **Table columns.** Columns come in first-seen key order, as
  `pandas.json_normalize` produces them. Renaming follows a dict literal in
  which the later entry wins.
- **Dates.** A date is a proleptic Gregorian day, years 1 to 9999, numbered
  like Python's `date.toordinal`.

Files:

| file | module |
|---|---|
| `wrappers.dfy` | `Wrappers`: the `Option` and `Result` types |
| `records.dfy` | `Records`: records, stamping, table columns |
| `frames.dfy` | `Frames`: tables, rename and selection |
| `retry.dfy` | `Retry`: one unit's request loop |
| `collect.dfy` | `Collection`: the loop over units |
| `weather.dfy` | `Weather`: the NOAA adapter |
| `energy.dfy` | `Energy`: the EIA adapter, including the finding below |
| `dates.dfy` | `Dates`: the reporting window |
| `pipeline.dfy` | `Pipeline`: the entry point |

## Model

| member | source | states |
|---|---|---|
| Retry.Classify | src/data_fetcher.py:94-103 | 429 is rate limiting for both services. NOAA delivers on any other status outside 400..599; EIA delivers only on 200. A body that is not JSON fails. A delivery carries exactly the body's records. |
| Retry.Attempt | src/data_fetcher.py:36-58 | The specification of one unit's loop: the delivery, request count, waits and leftover responses from counter value `attempt` on. Its properties are the lemmas `AttemptShape`, `DeliveredAt`, `Exhausted`, `RetriesBounded`, `BackoffThenDelivery` and `DeliveryIff`, and `Request` is proved equal to it. |
| Retry.Request | src/data_fetcher.py:36-58 | The request loop returns exactly what the per-unit specification `Attempt` gives: the delivered records, the requests made, the waits slept and the responses left. |
| Retry.AttemptShape | src/data_fetcher.py:37-58 | From counter `attempt` on, the loop makes at most `maxRetries + 1 - attempt` requests, and at least one while `attempt <= maxRetries`. When nothing is delivered it uses every one of them. It waits once after each request that did not deliver, the i-th wait being `backoff^(attempt+i)`, and it consumes exactly the responses it requested. |
| Retry.DeliveredAt | src/data_fetcher.py:37-53 | A first delivering response at position k, with the counter still allowing it, is returned after exactly k+1 requests and k waits. The responses after it are left untouched. |
| Retry.Exhausted | src/data_fetcher.py:37-60 | When no allowed response delivers, nothing is delivered and all attempts are used. |
| Retry.TotalOfPowers | src/data_fetcher.py:41-43 | Waits `backoff^0, backoff^1, ...` add up to the geometric sum. |
| Retry.RetriesBounded | src/data_fetcher.py:36-60 | A unit makes between 1 and `maxRetries + 1` requests. A unit that gets nothing made all of them and slept `backoff^0 + ... + backoff^maxRetries`. |
| Retry.BackoffThenDelivery | src/data_fetcher.py:40-58 | k failed or rate-limited requests (k <= maxRetries) followed by a delivery: that payload is used, k+1 requests are made, the total sleep is `backoff^0 + ... + backoff^(k-1)`, and nothing further is read. |
| Retry.DeliveryIff | src/data_fetcher.py:90-115 | A unit delivers if and only if one of its first `maxRetries + 1` responses delivers. |
| Retry.FirstDelivery | src/data_fetcher.py:37-53 | When some allowed response delivers, there is a first one, with no delivery before it. |
| Retry.DefaultBackoffExample | src/data_fetcher.py:94-99 | With 5 retries and factor 2, three 429 responses and then a 200 sleep 1, 2 and 4 seconds (7 in total), and the 200's payload is used. |
| Collection.Collect | src/data_fetcher.py:22-52 | The specification of the loop over units: each unit's attempt in turn, its stamped delivery appended, and the next unit reading the responses it left. `CollectAppend`, `CollectRequestBound`, `CollectProvenance` and `FailedUnitIsolated` state its properties, and the adapters' loops are proved equal to it. |
| Collection.AppendStamped | src/data_fetcher.py:48-52 | Appending the delivered records one by one adds exactly the stamped payload, in payload order. |
| Collection.RunUnit | src/data_fetcher.py:36-58 | One unit's step (request, then stamp and append) appends exactly the unit's stamped delivery (nothing when its retries run out) and leaves the responses the unit did not read. It keeps "records so far followed by the rest of the loop" equal to the whole loop's result. |
| Collection.CollectAppend | src/data_fetcher.py:22-23 | Running two lists of units in sequence equals running their concatenation. The first list's records come first, and the second list reads the responses the first left. |
| Collection.CollectRequestBound | src/data_fetcher.py:22-58 | The whole loop makes at most `maxRetries + 1` requests per unit. |
| Collection.CollectProvenance | src/data_fetcher.py:48-52 | Every collected record carries all the stamps of one of the units, whatever its payload held under those keys. |
| Collection.FailedUnitIsolated | src/data_fetcher.py:59-60 | A unit whose retries run out contributes no record (payload items being JSON objects, as `Retry.Body` assumes). The records are those of the units before it followed by those of the units after it, which still run. |
| Records.Set | src/data_fetcher.py:49-51 | `record[key] = value`, characterised by `SetEffect`. |
| Records.Stamp | src/data_fetcher.py:105-106 | The stamping assignments in order, characterised by `StampKeepsOthers`, `StampLastWins`, `StampKeepsOrder`, `StampCarries` and, for the EIA stamps, `StampEnergy`. |
| Records.SetEffect | src/data_fetcher.py:49-51 | `record[key] = value` makes the key read `value` and leaves every other key as it was. The existing keys keep their positions. |
| Records.StampKeepsOthers | src/data_fetcher.py:48-52 | Keys that are not stamped keep their payload value, or stay absent. |
| Records.StampLastWins | src/data_fetcher.py:48-52 | A stamped key holds the value of its last assignment, overwriting the payload's value. |
| Records.StampKeepsOrder | src/data_fetcher.py:104-107 | Stamping keeps the record's own keys at the front, in order. New keys follow them. |
| Records.StampCarries | src/data_fetcher.py:48-52 | With distinct stamp keys, every stamp is present in the stamped record. |
| Records.Merge | src/data_fetcher.py:62 | Merging keys into a column list keeps the list as a prefix and stays duplicate-free. Its members are exactly the list's and the new keys. |
| Records.ColumnsFrom | src/data_fetcher.py:62 | Column accumulation keeps the earlier columns as a prefix. Its members are exactly the earlier columns and the keys of some record. |
| Records.Columns | src/data_fetcher.py:62 | The table's columns are duplicate-free, and a column exists exactly when some record has that key. |
| Records.MergeFresh | src/data_fetcher.py:62 | New distinct keys are appended in their order. |
| Records.MergeKnown | src/data_fetcher.py:62 | Keys already present add no column. |
| Records.ColumnsOfUniform | src/data_fetcher.py:117 | Records that all share one key sequence have exactly those keys as columns. |
| Frames.RenameAndSelect | src/data_fetcher.py:62-70 | Build the table, rename its columns and select the wanted ones. `SelectSpec` characterises it: it succeeds exactly when every wanted column has an `Origin`, and its cells are then the records' values in those columns. |
| Frames.Origin | src/data_fetcher.py:63-70 | The column selected under a wanted name is an existing column that the rename maps to that name. None holds exactly when no column is renamed to it. |
| Frames.Origins | src/data_fetcher.py:70 | Selection succeeds exactly when every wanted column has a source column. The error names a wanted column with no source. |
| Frames.SelectSpec | src/data_fetcher.py:62-70 | Rename-and-select succeeds exactly when every wanted column has a source. The result then has the wanted header and one row per record in record order, each cell being the record's value in the source column. |
| Frames.RenameIdentity | src/data_fetcher.py:63-69 | A rename dict that maps every key to itself changes no column name. |
| Weather.WeatherTable | src/data_fetcher.py:61-73 | The weather table of the collected records, characterised by `WeatherTableSchema`, `WeatherTableOkIff` and `WeatherTableOfFetched`. |
| Weather.FetchWeather | src/data_fetcher.py:15-73 | The NOAA method returns the table built from exactly the records `Collect` specifies (cities in order, TMAX then TMIN), together with the responses left, the requests made and the waits slept. With no cities it returns an empty table with the weather columns and reads nothing. |
| Weather.WeatherUnitsAt | src/data_fetcher.py:22-23 | Unit `2i + j` is city i with datatype TMAX (j = 0) or TMIN (j = 1). |
| Weather.WeatherUnitsLength | src/data_fetcher.py:22-23 | There are two units per city. |
| Weather.WeatherUnitsAppend | src/data_fetcher.py:22-23 | The units of a concatenated city list are the units of each part, concatenated. |
| Weather.WeatherCityOrder | src/data_fetcher.py:22-52 | Weather rows follow the city list: the records of `first + second` are those of `first` followed by those of `second`. |
| Weather.WeatherRecordsTagged | src/data_fetcher.py:48-52 | Every observation names one of the cities, with that city's state, and its datatype is TMAX or TMIN, overriding the payload. |
| Weather.WeatherTableSchema | src/data_fetcher.py:61-73 | The weather table has exactly the columns city, state, date, datatype, value, also with no records. It has one row of five cells per record, each cell the record's value. It fails exactly when there are records and some column occurs in none of them. |
| Weather.WeatherOrigin | src/data_fetcher.py:63-70 | Each weather column is selected from itself when some record has it, and has no source otherwise. |
| Weather.WeatherTableOkIff | src/data_fetcher.py:70 | The weather table is built exactly when there are no records or all five columns occur. |
| Weather.WeatherTableOfTagged | src/data_fetcher.py:61-70 | For stamped observations the table is built exactly when there are none, or some observation has a date and some has a value. |
| Weather.WeatherTableOfFetched | src/data_fetcher.py:15-73 | For fetched observations the table is built exactly when there are none, or some observation has a date and some has a value. |
| Weather.WeatherRequestBound | src/data_fetcher.py:22-58 | The NOAA adapter makes at most `2 * (maxRetries + 1)` requests per city. |
| Energy.DateColumn | src/data_fetcher.py:118 | `period` when some record has it, otherwise `date`. `PeriodBecomesDate` and `DateStaysDate` state what the table's date column then holds. |
| Energy.ValueColumnAsWritten | src/data_fetcher.py:119 | The program's measurement column: `value`, otherwise the last column. `AsWrittenLosesValue` shows that the table is lost when a stamped column is last, and `AsWrittenFailsWithoutValue` that this is so for the readings of one region that share one key list, where stamping leaves `state` last. |
| Energy.EnergyTableAsWritten | src/data_fetcher.py:116-124 | The energy table as the program builds it, with `ValueColumnAsWritten`. `AsWrittenOkAgrees` and `EnergyTablesAgreeWithValue` relate it to the corrected `EnergyTable`. |
| Energy.EnergyTable | src/data_fetcher.py:116-124 | The energy table with the corrected measurement fallback (`ValueColumn`, the last payload column). It is the program's table wherever the program builds one (`AsWrittenOkAgrees`), and it builds a table for readings without `value` (`CorrectedUsesPayloadWithoutValue`). `EnergyTableSchema` gives its columns. |
| Energy.LastPayloadColumn | src/data_fetcher.py:119 | The corrected fallback is an existing column that is not stamped, and only stamped columns follow it. It is None exactly when every column is stamped. |
| Energy.FetchEnergy | src/data_fetcher.py:75-124 | The EIA method returns the corrected `EnergyTable` of exactly the records `Collect` specifies (regions in order), together with the responses left, the requests and the waits. That table is the program's whenever the program builds one, in particular whenever the readings have a `value` column. With no regions it returns an empty table with the energy columns. |
| Energy.EnergyRenameOf | src/data_fetcher.py:120 | Under the rename dict, region and state keep their names whatever else is listed, since the later entry wins. The value column becomes `value` and the date column becomes `date`. |
| Energy.EnergyRows | src/data_fetcher.py:120-121 | With four known source columns the table is built, and each row is the record's four values. |
| Energy.EnergyTableSchema | src/data_fetcher.py:116-124 | With no records the energy table is built and empty, with the columns region, state, date, value. Whenever it is built it has exactly those columns and one row of four cells per record. |
| Energy.AsWrittenOkAgrees | src/data_fetcher.py:116-121 | Wherever the program builds an energy table, the corrected rule builds the same one; the two differ only where the program fails. |
| Energy.AgreeWithoutValue | src/data_fetcher.py:119-121 | Without a `value` column, the program either fails or picks the same measurement column as the correction. |
| Energy.AgreeOnPayloadColumn | src/data_fetcher.py:119-121 | When a payload column is last, the program and the correction build the same table. |
| Energy.ValueColumnsAgree | src/data_fetcher.py:119 | The two rules resolve the same measurement column unless `value` is missing and a stamped column is last. |
| Energy.EnergyTablesAgreeWithValue | src/data_fetcher.py:119 | With a `value` column, the corrected table and the table as written are the same. |
| Energy.EnergyOrigins | src/data_fetcher.py:118-121 | With unambiguous timestamp and measurement columns, the four selected columns come from region, state, the timestamp and the measurement. |
| Energy.PeriodBecomesDate | src/data_fetcher.py:118-121 | A `period` timestamp (and no `date`) fills the table's date column; region, state and value are taken as they are. |
| Energy.DateStaysDate | src/data_fetcher.py:118-121 | Without `period`, the date column comes from `date`. |
| Energy.ValueFallsBackToPayload | src/data_fetcher.py:119-121 | Corrected, without `value` the table's value column holds the last column the payload supplied (the program fails here instead). |
| Energy.StampEnergy | src/data_fetcher.py:104-107 | Stamping a reading sets `region` and then `state`. |
| Energy.StampedEnergyLookup | src/data_fetcher.py:105-106 | A stamped reading reads the region's name and state; every other field is the payload's. |
| Energy.StampedEnergyKeys | src/data_fetcher.py:105-106 | Stamping a reading that has neither key appends `region` and then `state` to its keys. |
| Energy.LastPayloadBeforeStamps | src/data_fetcher.py:119 | Behind the stamps, the corrected fallback is the payload's last key. |
| Energy.StampedEnergyColumns | src/data_fetcher.py:104-117 | Stamped readings sharing payload keys `ks` have the columns `ks` followed by region and state. |
| Energy.AsWrittenLosesValue | src/data_fetcher.py:119-121 | As written, a table without `value` whose last column is a stamped one (`region` or `state`) cannot be built. |
| Energy.AsWrittenFailsWithoutValue | src/data_fetcher.py:104-121 | As written, the readings of one region that share one key list without a `value` field never produce an energy table. |
| Energy.ResolvedBehindStamps | src/data_fetcher.py:118-120 | For columns `ks` followed by the stamps, the corrected rule resolves the payload's timestamp and its last key. |
| Energy.CorrectedBehindStamps | src/data_fetcher.py:118-121 | For such columns the corrected table is built, and its rows hold region, state, the timestamp and the payload's last field. |
| Energy.CorrectedUsesPayloadWithoutValue | src/data_fetcher.py:119-121 | Corrected, readings without `value` give a table whose value column holds the payload's last field and whose date column holds its timestamp. |
| Energy.NewYorkRowAsWritten | src/data_fetcher.py:119-121 | As written, an hourly New York row reporting `demand` instead of `value` loses the energy table. |
| Energy.NewYorkRowCorrected | src/data_fetcher.py:119-121 | Corrected, the same row gives the single row New York, New York, 2024-06-01T00, 20512. |
| Energy.EnergyRegionOrder | src/data_fetcher.py:81 | Energy rows follow the region list: `first + second` gives the records of `first` followed by those of `second`. |
| Energy.EnergyRecordsTagged | src/data_fetcher.py:104-107 | Every reading names one of the regions, with that region's state, overriding the payload. |
| Energy.EnergyRequestBound | src/data_fetcher.py:81-113 | The EIA adapter makes at most `maxRetries + 1` requests per region. |
| Energy.TaggedHaveStamps | src/data_fetcher.py:104-107 | Tagged readings, once there is one, supply the region and state columns. |
| Energy.EnergyTableOfFetched | src/data_fetcher.py:116-121 | Fetched readings with `value` and exactly one of `period`/`date` give a table with one row per reading, whose date column holds that timestamp. |
| Energy.EnergyTableWithStamps | src/data_fetcher.py:118-121 | With region, state and value present, the date column holds whichever timestamp the readings have. |
| Dates.MonthsFillYear | src/data_fetcher.py:128 | The days before a month plus its length are the days before the next month. |
| Dates.DaysBeforeNextYear | src/data_fetcher.py:128 | The days before year y+1 are those before y plus the length of y. |
| Dates.DaysBeforeYearMonotone | src/data_fetcher.py:128 | Each year between two years adds at least 365 days before the later one. |
| Dates.OrdinalInYear | src/data_fetcher.py:128 | A day's ordinal lies within its year's range. |
| Dates.OrdinalOrder | src/data_fetcher.py:128 | Chronological order is ordinal order. |
| Dates.OrdinalInjective | src/data_fetcher.py:128 | Different days have different ordinals. |
| Dates.OrdinalPositive | src/data_fetcher.py:128 | Ordinals start at 1, and only 0001-01-01 has ordinal 1. |
| Dates.PrevDayOrdinal | src/data_fetcher.py:128 | The previous day has ordinal one less. Only 0001-01-01 has none. |
| Dates.MonthStartOrdinal | src/data_fetcher.py:128 | The day before the first of a month is the previous month's last day. |
| Dates.YearStartOrdinal | src/data_fetcher.py:128 | The day before January 1st is the previous December 31st. |
| Dates.DaysBeforeOrdinal | src/data_fetcher.py:128 | `d - timedelta(days=k)` exists exactly when d's ordinal exceeds k, and its ordinal is then k less. |
| Dates.FormatDate | src/data_fetcher.py:129 | The formatted day is ten characters: digits with dashes at positions 4 and 7. |
| Dates.Pad2Value | src/data_fetcher.py:129 | A two-digit field reads back as its number. |
| Dates.ValuePad2 | src/data_fetcher.py:129 | Two digits printed back give the same characters. |
| Dates.Pad4Value | src/data_fetcher.py:129 | A four-digit field reads back as its number. |
| Dates.ValuePad4 | src/data_fetcher.py:129 | Four digits printed back give the same characters. |
| Dates.ParseFormatted | src/data_fetcher.py:129 | Reading a formatted day gives the day back. |
| Dates.FormatParsed | src/data_fetcher.py:129 | A string that reads as a day is exactly that day's formatting. |
| Dates.NinetyDayRange | src/data_fetcher.py:126-129 | The window strings, or None where the subtraction overflows. `NinetyDayRangeSpec` and `JuneFirstWindow` characterise it. |
| Dates.NinetyDayRangeSpec | src/data_fetcher.py:126-129 | The window exists exactly when today is day 90 or later. Its end reads back as today, and its start as the unique day whose ordinal is 89 less. |
| Dates.JuneFirstWindow | src/data_fetcher.py:126-129 | On 2024-06-01 the window is 2024-03-04 to 2024-06-01. |
| Pipeline.RegionsOf | src/data_fetcher.py:149 | The EIA view of the cities keeps each city's name, state and region code, in order. |
| Pipeline.Fallback | src/data_fetcher.py:154-167 | A table that was built is kept. One that could not be built becomes an empty table with the adapter's columns. |
| Pipeline.RunPipeline | src/data_fetcher.py:131-167 | The run stops before any request exactly when the window cannot be computed. Otherwise the weather adapter reads the responses first and the energy adapter reads what is left, whether or not the weather table was built. Each table is the adapter's table or its empty fallback, both keep their fixed columns, and at most 90 requests are made. The energy table uses the corrected measurement fallback; it is the program's table whenever the program builds one, in particular whenever the readings have a `value` column. |

## Left out

- HTTP (`requests.get`), URLs, headers and query parameters are not modelled. The window dates, station ids and region codes only enter the request parameters, which the scripted responses do not see.
- Logging is not modelled, including the configuration at src/data_fetcher.py:9-13; it is a side channel only.
- Reading `config.yaml`, creating the output directory, writing the CSV files and printing at the end of `main` are I/O.
- `time.sleep` is recorded as the list of waits, not as time passing.
- `datetime.today()` is the parameter `today` of `Pipeline.RunPipeline`. The time of day is dropped, because it does not reach the formatted strings.
- `pandas.json_normalize` flattening of nested JSON objects is not modelled. Records are flat, with string values, and a JSON null is a missing key. pandas would keep a column for a key that is null in every record, so the `"value" in df.columns` test and the first-seen column order can differ for such payloads.
- Column-name collisions after a rename (two columns renamed to the same name) are not modelled. `Frames.Origin` takes the first such column, where pandas would select both.
- The fetch methods stamp records as values. The in-place mutation of the response's dicts, and any aliasing it could cause, is not captured.
- Energy.FetchEnergy: the adapter is modelled with the corrected measurement fallback (see Findings), not as the program builds the table. Where the program builds a table the adapter returns that same table (`Energy.AsWrittenOkAgrees`), and with a `value` column the two agree in every case. For readings without a `value` column the adapter may return rows where the program raises.
- Pipeline.RunPipeline: for readings without a `value` column the energy output may hold rows where the program writes its empty fallback table.
- Retry.Classify: a payload item that is not a JSON object (a string, number, null or list) is not modelled. In the program, stamping such an item raises `TypeError` inside the `try`, so the items before it stay appended and the unit retries, possibly appending them again; a unit can then add records and still exhaust its retries.
- A request made after the scripted responses run out is treated as a raised connection error.
- Retry.Request: `max_retries` is a natural number, so a negative value, with which the program makes no request for any unit, is not modelled.
- Retry.Attempt: `backoff_factor` is a natural number, so a negative factor, with which `time.sleep` would raise, is not modelled.
- Dates.FormatDate: years are always written with four digits. The C library's `%Y` may print years below 1000 without leading zeros.
- build/lib/us_weather_energy_pipeline/data_fetcher.py is not part of this model: it is a stale build copy of the adapters.
- src/pipeline.py is not part of this model: it only calls the fetchers.

## Findings

| source | as written | input that shows it | evidently intended | confidence | as-written member | corrected member |
|---|---|---|---|---|---|---|
| src/data_fetcher.py:119-120 | Without a `value` column, the measurement column falls back to `df.columns[-1]`. The adapter has just appended `region` and `state` to every record, so for the readings of one region that share one key list that column is `state`. The rename dict then maps `state` to `value` and back to `state` (the later entry wins), and selecting `value` fails, so `main` substitutes an empty energy table. | One EIA row {period: "2024-06-01T00", respondent: "NYIS", demand: "20512"} for New York | Fall back to the last column the payload supplied, which gives one row New York, New York, 2024-06-01T00, 20512 | high (not executed) | Energy.AsWrittenFailsWithoutValue | Energy.CorrectedUsesPayloadWithoutValue |
