# NYC taxi trips as a star schema, in Dafny

`transform_data` in `etl/nyc_etl.py` takes a flat table of taxi trips and
returns a star schema made of one fact table and seven dimension tables:
datetime, passenger count, trip distance, rate code, pickup location,
dropoff location and payment type. This project models that function and
proves what it computes. The steps, in the source's order, are these.

1. The two timestamp columns are parsed. Text that cannot be parsed aborts the run.
2. Exact duplicate rows are dropped, keeping the first occurrence. The rows are then renumbered.
3. Each row gets `trip_id` equal to its position.
4. The seven dimension tables are projected. Each has a surrogate id equal to the row position.
   - The rate-code and payment-type dimensions add a label from a fixed six-entry table.
   - The datetime dimension derives hour, day, month, year and weekday from each timestamp.
5. Seven inner equi-joins on `trip_id = <dimension>_id` build the fact table, followed by a column projection.

The modules mirror those steps.

- `Calendar` (calendar.dfy): timestamps are integer seconds since 1970-01-01T00:00, naive as in the source. It converts a day number to a proleptic Gregorian date and back, counting in 400-year eras that start on 1 March. It proves:
  - both round trips;
  - that the next day number is the next calendar date;
  - that day 0 is Thursday 1 January 1970.

  The timestamp accessors (`Hour`, `Day`, `Month`, `Year`, `Weekday`, with 0 = Monday) are defined on top of this.
- `Trips` (trips.dfy): the 19-column trip record. It is generic in the timestamp column, so it covers both the text read from the file and the parsed value.
- `Dedup` (dedup.dfy): `drop_duplicates` followed by `reset_index`.
- `Join` (join.dfy): `merge` as a nested-loop inner equi-join, and its positional reading when both key columns are `0 .. N-1`.
- `Dimensions` (dimensions.dfy): the two label tables, `trip_id`, and the seven dimension tables, each built by a loop.
- `Facts` (facts.dfy): the merge chain and the projection of the fact table.
- `Etl` (etl.dfy): timestamp coercion and `transform_data` itself.

## Model

| member | source | states |
|---|---|---|
| Etl.ParseColumn | etl/nyc_etl.py:12-13 | A column converts exactly when every text in it parses, and then each value is the parse of its text. Otherwise the result is the position of the first text that does not parse. |
| Etl.Coerce | etl/nyc_etl.py:12-13 | Coercion succeeds exactly when every pickup text and every dropoff text parses, and then each row keeps all other columns. The error names the first unparseable row of the pickup column; if every pickup parses, it names the first bad row of the dropoff column. |
| Etl.TransformData | etl/nyc_etl.py:10-109 | A coercion error is returned as is, with no tables. Otherwise all eight tables are the star schema of the deduplicated coerced rows. |
| Etl.StarSchemaUnique | etl/nyc_etl.py:16-109 | The eight tables are determined by the deduplicated rows. |
| Etl.StarSchemaRowCounts | etl/nyc_etl.py:16-17 | All eight tables have N rows, the fact table's `trip_id`s are exactly 0 .. N-1, and no two are equal. |
| Etl.FactRowsReferToTheirTrip | etl/nyc_etl.py:87-98 | The dimension row that each id of a fact row refers to carries the attributes of that same trip. |
| Etl.DuplicateRowScenario | etl/nyc_etl.py:16-36 | Three rows whose second repeats the first give two trips with ids 0 and 1. The two fact rows are those of the two surviving rows, and the two datetime rows are the full rows derived from each surviving row's own timestamps. |
| Etl.CoercionBeforeDedup | etl/nyc_etl.py:12-16 | Two rows whose pickup texts differ but parse to the same instant are distinct as text yet collapse to one trip, because parsing comes before deduplication. |
| Dedup.DropDuplicates | etl/nyc_etl.py:16 | The result is `Distinct` of the input: no repeats, the same elements, and the survivors in order of first occurrence. |
| Dedup.DistinctSameElements | etl/nyc_etl.py:16 | Every input row is a surviving row and every surviving row is an input row. |
| Dedup.DistinctNoRepeats | etl/nyc_etl.py:16 | No two surviving rows are equal. |
| Dedup.DistinctFirstOccurrenceOrder | etl/nyc_etl.py:16 | Survivors appear in the order of their first occurrence in the input. |
| Dedup.DistinctOfNoRepeats | etl/nyc_etl.py:16 | A table without repeated rows is left unchanged. |
| Dedup.DistinctIdempotent | etl/nyc_etl.py:16 | Deduplicating twice is the same as deduplicating once. |
| Dedup.FirstIndex | etl/nyc_etl.py:16 | The position of a row's first occurrence. |
| Dimensions.AssignTripIds | etl/nyc_etl.py:17 | Row i gets `trip_id` i and keeps its columns unchanged. |
| Dimensions.BuildDatetimeDim | etl/nyc_etl.py:21-36 | N rows. Row i has id i, row i's two timestamps, hour/day/month/year/weekday of the pickup timestamp only, and the same of the dropoff timestamp only. |
| Dimensions.BuildPassengerCountDim | etl/nyc_etl.py:39-41 | N rows. Row i has id i and row i's passenger count. |
| Dimensions.BuildTripDistanceDim | etl/nyc_etl.py:44-46 | N rows. Row i has id i and row i's trip distance. |
| Dimensions.BuildRateCodeDim | etl/nyc_etl.py:49-60 | N rows. Row i has id i, row i's `RatecodeID` and the label that code has in the rate-code table. |
| Dimensions.BuildPickupLocationDim | etl/nyc_etl.py:63-65 | N rows. Row i has id i and row i's pickup latitude and longitude. |
| Dimensions.BuildDropoffLocationDim | etl/nyc_etl.py:68-70 | N rows. Row i has id i and row i's dropoff latitude and longitude. |
| Dimensions.BuildPaymentTypeDim | etl/nyc_etl.py:73-84 | N rows. Row i has id i, row i's payment type and the label that code has in the payment-type table. |
| Dimensions.Label | etl/nyc_etl.py:59 | A label is present exactly when the code is a key of the table, and it is then the table's entry. |
| Dimensions.RateCodeLabels | etl/nyc_etl.py:49-59 | Codes 1-6 map to "Standard rate", "JFK", "Newark", "Nassau or Westchester", "Negotiated fare" and "Group ride". Any other code has no label, and no error is raised. |
| Dimensions.PaymentTypeLabels | etl/nyc_etl.py:73-83 | Codes 1-6 map to "Credit card", "Cash", "No charge", "Dispute", "Unknown" and "Voided trip". Any other code has no label. |
| Join.MatchesMembership | etl/nyc_etl.py:87-93 | The matches of one left row are exactly the right rows with an equal key. |
| Join.InnerJoinMembership | etl/nyc_etl.py:87-93 | A pair is in the inner join exactly when its left row is in the left table, its right row is in the right table, and their keys are equal. |
| Join.MatchesNone | etl/nyc_etl.py:87-93 | A left row whose key no right row has matches nothing. |
| Join.MatchesAtPosition | etl/nyc_etl.py:87-93 | When the right keys are the positions `0 .. M-1`, a left row with key k in range matches exactly right row k. |
| Join.InnerJoinLookup | etl/nyc_etl.py:87-93 | When the right keys are positions and every left key is in range, the join pairs each left row with the right row its key names, in left order. |
| Join.InnerJoinPositional | etl/nyc_etl.py:87-93 | When both key columns are exactly `0 .. N-1`, the join is the row-by-row zip of the two tables: N rows, none dropped or repeated. |
| Join.MatchesOne | etl/nyc_etl.py:87-93 | A left row whose key exactly one right row has is paired with that row alone. |
| Join.MatchesTwo | etl/nyc_etl.py:87-93 | A left row whose key exactly two right rows have is paired with both, in right order. |
| Join.InnerJoinRepeatedKeyDoubles | etl/nyc_etl.py:87-93 | A left row whose key occurs at exactly two right positions comes out of the join twice, so with repeated keys the merge is a join and not a lookup. |
| Join.InnerJoinRepeatedKey | etl/nyc_etl.py:87-93 | Example: joining [0] with [0, 0] on the identity key gives two rows. |
| Facts.MergeChainPositional | etl/nyc_etl.py:87-98 | When every table has N rows keyed by position, the seven merges keep N rows, and fact row i is the projection of base row i with dimension row i of each table. |
| Facts.FactTableAligned | etl/nyc_etl.py:87-98 | Given the tables `transform_data` builds, the fact table has N rows. Row i has `trip_id` i and every dimension id equal to i. Its `VendorID`, `store_and_fwd_flag` and seven monetary columns are copied unchanged from base row i. |
| Calendar.DaysFromCivilFromDays | etl/nyc_etl.py:22-32 | Converting a day number to a date and back gives the day number. |
| Calendar.CivilFromDaysFromCivil | etl/nyc_etl.py:22-32 | Converting a valid date to a day number and back gives the date. |
| Calendar.CivilFromDaysValid | etl/nyc_etl.py:23-25 | Every day number converts to a valid Gregorian date, with month 1-12 and day within the month's length. |
| Calendar.CivilFromDaysNext | etl/nyc_etl.py:23-25 | The date of the next day number is the calendar's next day. |
| Calendar.DaysFromCivilNext | etl/nyc_etl.py:23-25 | The day number of the next date of a valid date is one more. |
| Calendar.EpochIsNewYear1970 | etl/nyc_etl.py:23-25 | Day 0 is 1 January 1970. |
| Calendar.Hour | etl/nyc_etl.py:22 | The hour lies in 0-23. |
| Calendar.Weekday | etl/nyc_etl.py:26 | The weekday lies in 0-6. |
| Calendar.TimestampFieldsValid | etl/nyc_etl.py:22-26 | The month of a timestamp lies in 1-12, and its day lies within that month's length in that year. |
| Calendar.HourOfDay | etl/nyc_etl.py:22 | The hour is the number of whole hours since that day's midnight. |
| Calendar.DateOneDayLater | etl/nyc_etl.py:23-25 | A timestamp 86400 seconds later falls on the calendar's next day. |
| Calendar.WeekdayOneDayLater | etl/nyc_etl.py:26 | A timestamp one day later has the next weekday, with Sunday followed by Monday, and the same hour. |
| Calendar.EpochFields | etl/nyc_etl.py:22-26 | Timestamp 0 is hour 0 on Thursday (weekday 3), 1 January 1970. |
| Dedup.Distinct | etl/nyc_etl.py:16 | The reference definition of `drop_duplicates`: keep each row whose value has not occurred before. DistinctSameElements, DistinctNoRepeats, DistinctFirstOccurrenceOrder, DistinctOfNoRepeats and DistinctIdempotent specify it. |
| Join.Matches | etl/nyc_etl.py:87-93 | The right rows whose key equals the left row's key, in right order. MatchesMembership, MatchesNone and MatchesAtPosition specify it. |
| Join.InnerJoin | etl/nyc_etl.py:87-93 | `merge(how='inner')` as a nested-loop equi-join. InnerJoinMembership, InnerJoinLookup, InnerJoinPositional and InnerJoinRepeatedKeyDoubles specify it. |
| Facts.Project | etl/nyc_etl.py:94-98 | The 17 fact columns picked out of one merged row, in the selection's order. FactTableAligned states the resulting values. |
| Facts.FactTable | etl/nyc_etl.py:87-98 | The seven merges in source order, then the projection. MergeChainPositional and FactTableAligned specify it. |
| Calendar.CivilFromDays | etl/nyc_etl.py:23-25 | Day number to proleptic Gregorian date. CivilFromDaysValid, DaysFromCivilFromDays, CivilFromDaysFromCivil, CivilFromDaysNext and EpochIsNewYear1970 specify it. |
| Calendar.DaysFromCivil | etl/nyc_etl.py:23-25 | Date to day number, the inverse of CivilFromDays. DaysFromCivilFromDays, CivilFromDaysFromCivil and DaysFromCivilNext specify it. |
| Calendar.Date | etl/nyc_etl.py:23-25 | The calendar date of a timestamp, by floor division into days. DateOneDayLater and EpochFields specify it. |
| Calendar.Day | etl/nyc_etl.py:23 | `.dt.day` (also line 29 for the dropoff): the day of the month of the timestamp's date. TimestampFieldsValid bounds it by the month's length, and EpochFields anchors it. |
| Calendar.Month | etl/nyc_etl.py:24 | `.dt.month` (also line 30): the month of the timestamp's date. TimestampFieldsValid bounds it to 1-12, and EpochFields anchors it. |
| Calendar.Year | etl/nyc_etl.py:25 | `.dt.year` (also line 31): the year of the timestamp's date. EpochFields anchors it, and DateOneDayLater with CivilFromDaysNext fixes its progression. |
| Trips.WithTimestamps | etl/nyc_etl.py:12-13 | Replacing the two timestamp texts by parsed values leaves the other 17 columns unchanged. |

## Left out

- `extract_data` (etl/nyc_etl.py:5-8) is not modelled: it is an HTTP request plus CSV parsing with dtype inference, i.e. network I/O and a foreign library. So the retrieval and parse errors of that step are out of scope too.
- The `__main__` block (etl/nyc_etl.py:111-118) is not modelled: it holds a hard-coded URL and console output.
- Etl.ParseColumn: `pd.to_datetime`'s text parser is a parameter `parse: string -> Option<Timestamp>`, shared by both columns. Which formats the library accepts is not modelled. Neither is its inference of one format per column from that column's first value: with it, whether a text parses can depend on its column and on the texts before it.
- Etl.Coerce: parsing is modelled as either succeeding on every row or aborting the run. Pandas' handling of missing values (`NaT`) is not modelled.
- Calendar: timestamps are whole seconds. Pandas keeps nanoseconds and a range limited to roughly the years 1677-2262. Sub-second digits never change the derived fields, but they do take part in `drop_duplicates`. So two rows whose timestamps differ only below one second are one trip in the model and two in pandas.
- Floating-point columns are an opaque type compared only by equality. This covers trip distance, the coordinates and the monetary amounts, which the source never computes on. Pandas' treatment of NaN in `drop_duplicates` and `merge` is not modelled.
- A missing column is not an error path here, because the record type always has all 19 columns. In the source, pandas raises `KeyError` at the first access to a missing column.
- Pandas internals are not modelled: dtypes and index objects. Neither are the `_x`/`_y` suffixes that `merge` adds to colliding column names. Every dimension table shares its source columns with `df` (`passenger_count`, `trip_distance`, `RatecodeID`, the pickup and dropoff coordinates, both timestamps, `payment_type`), so each of the seven merges (etl/nyc_etl.py:87-93) renames both copies. The fact table is unaffected, because the final selection (etl/nyc_etl.py:94-98) picks none of these columns. The model therefore keeps the merged rows as nested pairs and projects from them.
- Lines 12-13 overwrite the timestamp columns of the caller's DataFrame before `drop_duplicates` rebinds `df`. The model works on values and returns new tables, so this side effect on the caller's object is not captured.
- Join.InnerJoin: the output lists matches in the order of the left rows, and for each left row in the order of the right rows. Older pandas versions grouped inner-join output by key instead. The two orders coincide in `transform_data`, where every key column is `0 .. N-1` in order.
- The label lookup (`Series.map` with a dictionary) is modelled on integer codes. A code column read as floating point (because of a missing value) is not modelled.
