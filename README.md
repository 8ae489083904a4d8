# Weather-forecast ETL: a Dafny model of the record transformation

This project models the data path of a small daily weather-forecast pipeline:

- **fetch** flattens each entry of the forecast API's `list` array into a raw record;
- **process** derives the time of day, the average temperature, the wind category,
  the successive temperature and wind changes and the Celsius average, reselects the
  final twelve columns, and builds a per-date aggregate (mean temperatures, rounded
  mean humidity, distinct descriptions joined by `", "`);
- **persist** turns every final record into a twelve-value parameter tuple in the
  table's column order and applies the batch as `INSERT … ON CONFLICT (dt) DO UPDATE`,
  one tuple after the other.

Modules, one per stage or concept:

| file | module | what it holds |
|---|---|---|
| `wrappers.dfy` | `Wrappers` | `Option`, `Result` |
| `fetch.dfy` | `Fetch` | the decoded API entry (absent key = `None`), `FlattenEntry`, the `Flatten` loop |
| `transform.dfy` | `Transform` | wind categories, time of day, `Diff`, the working frame, the final record |
| `textorder.dfy` | `TextOrder` | Python's string ordering, used to sort the group keys |
| `stats.dfy` | `Stats` | sum, mean, round-half-to-even, `unique`, `join` |
| `daily.dfy` | `Daily` | the group-by-date aggregate |
| `processing.dfy` | `Processing` | `Process`: the process stage's two outputs |
| `handoff.dfy` | `Handoff` | the JSON records passed from process to persist |
| `persist.dfy` | `Persist` | the parameter tuples, the `ON CONFLICT` rule, the table and `executemany` |

Temperatures and wind speeds are `real`, so `(min + max) / 2` and `− 273.15` are exact.
The table is a `map<int, Params>` from the epoch key to the stored tuple, held in the
`WeatherTable` class. `ExecuteMany` upserts into a staged copy and replaces the table only
when every tuple was applied. This is the single commit at the end of the persist stage.

Behaviour of the code that the docstring of `process_data` does not mention:

- An empty fetched list makes the process stage fail. A frame built from an empty list
  has no `dt` column, so the first column access raises `KeyError`. `Process` returns
  `Failure(MissingColumn("dt"))` for `[]`.
- A `dt` outside the range pandas can convert to a nanosecond timestamp (a signed 64-bit
  count, so about ±9223372036 s, the years 1677 to 2262) makes `to_datetime` raise
  `OutOfBoundsDatetime` (`forecast_module/process_data.py:28`). `Process` returns
  `Failure(OutOfBoundsDatetime)` when any `dt` lies outside `MinEpochSeconds..MaxEpochSeconds`.
- The `date` of a record comes from the local-timezone date in the fetch stage
  (`forecast_module/fetch_data.py:23`). Its `time` is the UTC time of day
  (`forecast_module/process_data.py:28`). The model keeps both as written. It makes the
  date derivation a parameter `dateOf`.
- The spreadsheet's "Original Data" sheet is written from the frame after the Celsius
  column was added (`forecast_module/process_data.py:45, 65`). The aggregate, however, is
  built from the copy taken before that (line 44). The model keeps that copy: the aggregate
  is computed from the working rows, which carry Kelvin temperatures only.

## Model

| member | source | states |
|---|---|---|
| Fetch.FlattenEntry | forecast_module/fetch_data.py:22-33 | an entry flattens iff every looked-up key is present and `weather` is non-empty; `dt`, the two temperatures, humidity, `weather[0].description` and `wind.speed` are copied unchanged and `date` is `dateOf(dt)`; a missing `dt` is the first KeyError, and IndexError only arises from an empty `weather` |
| Fetch.Flatten | forecast_module/fetch_data.py:20-36 | a missing `list` fails with KeyError; the call succeeds iff every entry is complete, then yields one record per entry in the same order, each the entry's flattening; otherwise it fails with the error of the first incomplete entry and returns no partial list |
| Fetch.SameDtSameDate | forecast_module/fetch_data.py:23-27 | two records with equal `dt` have equal `date` |
| Transform.Categorize | forecast_module/process_data.py:31-37 | Calm iff speed < 2, Breezy iff 2 ≤ speed < 4, Very Windy iff speed ≥ 4 (total and exclusive) |
| Transform.CategorizeMonotone | forecast_module/process_data.py:31-37 | a higher speed never gives a lower category (Calm < Breezy < Very Windy) |
| Transform.LabelInjective | forecast_module/process_data.py:32-37 | distinct categories are stored as distinct text |
| Transform.TimeOf | forecast_module/process_data.py:28 | hour < 24, minute < 60, second < 60, and hour·3600 + minute·60 + second = dt mod 86400 (UTC) |
| Transform.TimeOfIffSameDayOffset | forecast_module/process_data.py:28 | two timestamps get the same time iff they agree modulo 86400 |
| Transform.AverageBetween | forecast_module/process_data.py:29 | the average lies between min and max when min ≤ max |
| Transform.Diff | forecast_module/process_data.py:42-43 | same length as the input, no value at position 0, and element i > 0 is x[i] − x[i−1] |
| Transform.DiffTelescopes | forecast_module/process_data.py:42 | the changes at positions 1..k add up to x[k] − x[0] |
| Transform.Working | forecast_module/process_data.py:27-43 | the working frame has one row per fetched record |
| Transform.WorkingRow | forecast_module/process_data.py:28-43 | each working row carries its record's fields, the UTC time, (min+max)/2, the category of its wind speed, and temperature and wind changes against the previous row (none for the first) |
| TextOrder.Insert | forecast_module/process_data.py:49 | adding a key keeps the key list strictly sorted in Python string order, adds exactly that key, and grows the list by one exactly when the key is new |
| Stats.MeanBounds | forecast_module/process_data.py:50-53 | a mean lies within any bounds of its elements |
| Stats.RoundHalfEven | forecast_module/process_data.py:52 | the result is within 1/2 of the value and is even on an exact tie |
| Stats.RoundWithin | forecast_module/process_data.py:52 | rounding a value between two integers stays between them |
| Stats.Unique | forecast_module/process_data.py:54 | no duplicates, and exactly the input's elements |
| Stats.UniqueInFirstOccurrenceOrder | forecast_module/process_data.py:54 | the distinct values come out in the order of their first occurrences |
| Stats.MeanOfHalfSums | forecast_module/process_data.py:29-53 | the mean of the midpoints (x[i] + y[i]) / 2 is the midpoint of the two means |
| Stats.JoinTwo | forecast_module/process_data.py:54 | joining two strings puts the separator between them |
| Daily.GroupKeys | forecast_module/process_data.py:49 | the group keys are strictly sorted, are exactly the dates of the input, and are no more than the rows |
| Daily.Positions | forecast_module/process_data.py:49 | the positions of a date are increasing, each holds that date, and every position holding it is listed |
| Daily.Group | forecast_module/process_data.py:49 | a row is in a group iff it is an input row of that date, and the group is non-empty iff that date occurs |
| Daily.GroupAtPositions | forecast_module/process_data.py:49 | a group is the input rows at the positions of its date, in input order, so each such row appears as often as in the input |
| Daily.Summarize | forecast_module/process_data.py:49-55 | a group's row carries its date, and each mean temperature and the rounded mean humidity lie between the group's least and greatest value of that column |
| Daily.Aggregate | forecast_module/process_data.py:49-57 | one aggregate row per group key |
| Daily.AggregateOnePerDate | forecast_module/process_data.py:49-57 | aggregate rows are in strictly increasing date order, no two share a date, and a date has a row iff it occurs in the input |
| Daily.AggregateRow | forecast_module/process_data.py:49-57 | row i is for the i-th sorted date; its temperatures are the means over the rows at that date's positions (repeats counted), its humidity the half-to-even rounded mean of their humidities, and its description the `", "`-join of `Unique` of their descriptions in input order |
| Daily.AggregateHumidityWithin | forecast_module/process_data.py:52 | a date's rounded mean humidity lies within every bound of that date's humidities, so between their minimum and maximum |
| Daily.AggregateTemperaturesWithin | forecast_module/process_data.py:50-53 | a date's mean temperatures lie within every bound of that date's temperatures |
| Daily.DescribeDistinct | forecast_module/process_data.py:54 | the description is the `", "`-join of the distinct descriptions, which have no duplicates, cover every description and keep first-occurrence order |
| Daily.DescribeRepeated | forecast_module/process_data.py:54 | ["clear","clear"] gives "clear" |
| Daily.DescribeTwoDistinct | forecast_module/process_data.py:54 | ["clear","rain"] gives "clear, rain" |
| Processing.Process | forecast_module/process_data.py:26-59 | fails iff the input is empty (KeyError on `dt`) or some `dt` is outside pandas' timestamp range (OutOfBoundsDatetime); otherwise one final record per input record and at most as many daily rows as records |
| Processing.ProcessedRecordAt | forecast_module/process_data.py:28-45 | every final record keeps its input's dt, date and fields, in input order, with the UTC time, (min+max)/2, the Celsius average = average − 273.15, the wind category, and a temperature change against the previous record (none for the first) |
| Processing.TempChangesTelescope | forecast_module/process_data.py:42 | the final records' temperature changes 1..k add up to avg[k] − avg[0] |
| Processing.DailyAveragesAreKelvin | forecast_module/process_data.py:44-53 | when every fetched temperature lies within some bounds, every aggregate mean does too: the aggregate is built from the pre-Celsius (Kelvin) copy |
| Processing.ProcessDailyOnePerDate | forecast_module/process_data.py:49-57 | the daily output is in strictly increasing date order, has no repeated date, and has a row for a date iff some fetched record has that date |
| Processing.ProcessDailyRow | forecast_module/process_data.py:29-57 | daily row i holds the means of the fetched minimum, maximum and (min + max) / 2 temperatures (Kelvin) over the records of its date in input order, the rounded mean of their humidities, and their distinct descriptions joined by `", "` |
| Processing.DailyAverageIsMidpoint | forecast_module/process_data.py:29-53 | a day's mean average temperature is the midpoint of its mean minimum and mean maximum |
| Processing.SingleRecordExample | forecast_module/process_data.py:28-58 | min 280, max 290, wind 1.5 gives average 285, Calm, 11.85 °C, no temperature change, and one aggregate row |
| Handoff.Encode | forecast_module/process_data.py:58-59 | a serialised record has every one of the twelve column keys (floats are carried exactly; see Left out) |
| Persist.ProjectKeys | forecast_module/insert_data.py:44 | succeeds iff every key is present, giving the values in key order; otherwise fails with the first absent key |
| Persist.BuildBatch | forecast_module/insert_data.py:43-46 | succeeds iff every record has all keys, giving one tuple per record in input order; otherwise fails with the first failing record's error |
| Persist.Source | forecast_module/insert_data.py:27-44 | a table column stores the record key of the same name, except that `avg_temp_celsius` stores `average_temperature_celsius` |
| Persist.HandoffRoundTrip | forecast_module/insert_data.py:27-44 | projecting a serialised record gives twelve values, slot i holding the record's value for the i-th table column; the `avg_temp_celsius` slot holds the Celsius average (real values exact, without `to_json`'s ten-decimal rounding) |
| Persist.SlotMatchesColumn | forecast_module/insert_data.py:27-44 | the i-th key read by the tuple is the key that feeds the i-th column of the INSERT; it has the column's name except in slot 6, where `average_temperature_celsius` feeds `avg_temp_celsius`; so both carry the same value of the record |
| Persist.MissingKeyFails | forecast_module/insert_data.py:43-46 | a record missing any of the twelve keys yields a KeyError for a missing key, so nothing is written |
| Persist.OnConflict | forecast_module/insert_data.py:29-40 | the conflict row has all twelve columns |
| Persist.UpdatedColumnsAreNonKey | forecast_module/insert_data.py:27-40 | the SET list names exactly the columns other than `dt` |
| Persist.ConflictOverwrites | forecast_module/insert_data.py:29-40 | on a key conflict the stored row becomes the proposed row |
| Persist.Upsert | forecast_module/insert_data.py:26-41 | one statement keeps the table well formed and sets the tuple's key to the tuple, whether or not it existed |
| Persist.ApplyBatch | forecast_module/insert_data.py:48 | applying a batch keeps the table well formed |
| Persist.LastIndex | forecast_module/insert_data.py:48 | the last batch position holding a key has that key and no later position has it |
| Persist.ApplyBatchSpec | forecast_module/insert_data.py:29-40 | afterwards the keys are the old keys plus the batch keys, each batch key holds its last tuple, and every other row is unchanged |
| Persist.ApplyBatchIdempotent | forecast_module/insert_data.py:29-40 | applying the same batch twice gives the same table as applying it once |
| Persist.EncodedBatchInsertable | forecast_module/insert_data.py:43-46 | the final records always give a batch whose tuples are accepted, tuple i keyed by record i's `dt` |
| Persist.PersistedRowOfRecord | forecast_module/insert_data.py:43-48 | after persisting, a record's `dt` row holds that record's value in every column unless a later record has the same `dt` (real values exact, without `to_json`'s ten-decimal rounding) |
| Persist.WeatherTable.ExecuteMany | forecast_module/insert_data.py:48-49 | succeeds iff every tuple is accepted, then the table is the batch applied to the old table; otherwise the table is unchanged |
| Persist.WeatherTable.InsertWeatherData | forecast_module/insert_data.py:43-51 | a KeyError while building tuples leaves the table unchanged; otherwise the batch is applied as a whole or, if the database rejects a tuple, not at all |

## Left out

- The HTTP request, API key handling and JSON decoding of the fetch stage. The decoded body is the `Response` input.
- Values of the wrong JSON type, such as a string where a number is expected. The model types every field; only absent keys and an empty `weather` array are error paths.
- `datetime.fromtimestamp` (local timezone). It is the parameter `dateOf`, so the model cannot say which calendar date a timestamp gets, nor raise its range errors.
- Scheduler wiring, XCom hand-off, `Variable.get` and environment lookups, and the `CREATE TABLE` statement.
- The spreadsheet exports of the process stage and of the snapshot export. Both are file I/O.
- The database connection, the `TO_TIMESTAMP` conversion of the key and the cursor lifecycle. The table is keyed by the integer epoch.
- Persist.WeatherTable.ExecuteMany: rejects a tuple whose `dt` slot is not an integer. PostgreSQL would also accept a fractional epoch there.
- IEEE floating point: temperatures, speeds and means are exact reals. NaN (a float missing value) is only modelled as the absent temperature or wind change.
- Handoff.Encode: does not model the decimal formatting of floats by `to_json` (`forecast_module/process_data.py:59`). pandas writes each float with at most ten decimal places (ten significant digits outside 1e-15..1e16), and that rounded value is what the persist stage reads back. The model hands every temperature, the Celsius average, `temp_change` and `wind_speed` over exactly.
- Persist.HandoffRoundTrip: the value in each real slot is the record's exact value, not the ten-decimal value that `to_json` writes and `json.loads` reads back. The integer, text, time and null slots are unaffected.
- Persist.PersistedRowOfRecord: the stored real columns hold the record's exact values, not their ten-decimal `to_json` rounding. The key `dt`, `date`, `time`, `humidity`, `wind_category` and `description` are stored as stated.
- The "Original Data" spreadsheet sheet, which includes `wind_change` and the Celsius column. It is an export-only view.
