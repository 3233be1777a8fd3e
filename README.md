# Flight-Analytics-App: the batch ETL transform, in Dafny

Flight-Analytics-App collects one day of flights at an airport from a flight
data API. It stores the flights, the airport, the aircraft seen and daily delay
figures in SQLite. The batch ETL exists in three variants: `etl.py`,
`new_main.py` and `main.py`. This project models the deterministic part of each
variant:

- the split of a `YYYY-MM-DD` day in Asia/Kolkata (a constant UTC+05:30) into
  two request windows, written as `%Y-%m-%dT%H:%M`;
- the loop that asks for every window, reacts to error statuses, and merges
  the departures and arrivals of the answers (three different ways);
- the normaliser that flattens flights into rows, keyed by `flight_id`, and
  keeps the first row per key;
- the daily delay metrics of `etl.py`;
- the value tuples bound by the airport, aircraft and flight inserts, and
  `safe_str`.

HTTP is a parameter `respond: Request -> Response`. A `Response` is the
status code and the two flight lists of one window. Every loop over windows
or flights is a `method` with a loop. Its `ensures` ties the result to a
specification function, and lemmas state what that function promises. The
four-column `pd.to_datetime` loop of `compute_airport_delay_metrics`
(etl.py:212-222) is the `parse` parameter, applied to each value where it is
read.

Modules (one file each):

- `Wrappers` (wrappers.dfy): `Option` and `Result`.
- `Calendar` (calendar.dfy): the proleptic Gregorian calendar, minute instants,
  `%Y-%m-%d` parsing and `%Y-%m-%dT%H:%M` formatting.
- `Dedup` (keep_first.dfy): the keep-first filter behind every `seen` set and
  `drop_duplicates`, with the loop that runs it.
- `PyJson` (py_json.dfy): JSON payload values, `dict.get`, Python truthiness,
  `x or y`, `str()` of a dict or list, and `safe_str`.
- `Payloads` (payloads.dfy): flights, requests, responses, frame rows and the
  f-string rendering of optional values.
- `Etl` (etl.dfy) and `EtlMetrics` (etl_metrics.dfy): `etl.py`.
- `NewMain` (new_main.dfy): `new_main.py`, and the airport and flight values
  that `main.py` binds identically.
- `MainScript` (main_script.dfy): `main.py`'s `fetch_flights_for_date`.

Where the code's comments or evident intent and its behaviour disagree, the
model follows the code:

- Both normalisers key a departure by its scheduled departure time and an
  arrival by its scheduled arrival time. So the same leg seen from both ends
  keeps two rows whenever its scheduled times render differently, despite the
  comment at new_main.py:304. When both are missing, both keys end in `_None`
  and one row is kept. `Etl.LegKeysDiffer`
  and `NewMain.LegKeysDiffer` state this.
- `etl.py`'s departure delay is taken from arrival times (see Findings).
- A frame built from no rows is empty and has no columns. `drop_duplicates`
  returns it unchanged, so both normalisers return an empty frame. Reading
  `df["scheduled_departure"]` from it in `compute_airport_delay_metrics`
  (etl.py:212-222) then raises KeyError, modelled as `MissingColumn`.

## Model

| member | source | states |
|---|---|---|
| Calendar.ParseFormatDate | etl.py:107 | `strptime("%Y-%m-%d")` reads back every valid date that `strftime` writes |
| Calendar.FormatParseDate | etl.py:107 | a text accepted as a date is exactly the zero-padded `%Y-%m-%d` form of the date read |
| Calendar.AddMinutesInverse | etl.py:108-113 | adding minutes and then subtracting them gives back the same date-time, whenever both stay in the calendar |
| Dedup.KeepFirstSpec | etl.py:144-154 | the kept flights are an order-preserving subsequence of the input: exactly those whose key was not seen before and not earlier in the list |
| Dedup.KeptIndicesIncrease | etl.py:144-148 | the kept positions increase strictly, so window order is preserved |
| Dedup.KeptKeysUnique | etl.py:146-148 | no two kept elements share a key, and none has a key already in `seen` |
| Dedup.KeptKeysCover | etl.py:146-148 | every input key not already seen belongs to some kept element |
| Dedup.KeepUnseen | new_main.py:141-152 | the loop over one list appends exactly the keep-first selection, and `seen` grows by every key of the list |
| PyJson.SafeStr | new_main.py:39-42 | a dict or list becomes a string; any other value is returned unchanged; the result is never a container |
| PyJson.EscapeHasNoControl | new_main.py:40-41 | the `repr()` of a string inside a dict or list holds no control character: each is written as an escape |
| PyJson.SafeStrIdempotent | main.py:29-32 | applying `safe_str` twice equals applying it once |
| Payloads.FrameFirstPerId | new_main.py:302-305 | after keep-first on `flight_id`, ids are unique, every input id is still represented, and every frame row is an input row |
| Etl.ToUtc | etl.py:110-115 | conversion to UTC subtracts 330 minutes, and fails only before 0001-01-01 00:00 |
| Etl.UtcWindows | etl.py:105-115 | day D gives two windows: D 00:00 to D 12:00 and D 12:01 to D 23:59 local time, each 330 minutes earlier in UTC; fails exactly for 0001-01-01 and 9999-12-31, where `localize` overflows |
| Etl.UtcWindowsOrdered | etl.py:108-114 | the windows are ordered; the first ends one minute before the second starts; neither spans more than 12 hours |
| Etl.UtcWindowsBackToLocal | etl.py:107-115 | converted back to local time, the window bounds are exactly D 00:00, D 12:00, D 12:01 and D 23:59 |
| Etl.UtcWindowsExample | etl.py:107-130 | 2024-12-14 gives 2024-12-13T18:30 to 2024-12-14T06:30 and 2024-12-14T06:31 to 2024-12-14T18:29 |
| Etl.DepKeyIsNotArrKey | etl.py:145-151 | a `_DEP` key never equals an `_ARR` key, so one `seen` set never lets a departure suppress an arrival |
| Etl.SameKeySameNumber | etl.py:145-151 | within one direction, two flights share a key exactly when their numbers render alike |
| Etl.LoopFails | etl.py:135-141 | the window loop fails exactly when some answer is an error status other than 400, and it reports the first such status |
| Etl.LoopMeaning | etl.py:118-158 | the step-by-step loop computes `Collect`: the first fatal status, or per direction the first flight per key over the windows not skipped |
| Etl.FetchWindows | etl.py:118-156 | the imperative loop over the windows returns exactly `Collect` of the answers |
| Etl.FetchFlights | etl.py:102-158 | `fetch_flights`: an invalid date fails, and so does a date at either end of the calendar; otherwise it returns the loop result over the two UTC windows |
| Etl.FetchOverflowsAtCalendarEnds | etl.py:107 | for 0001-01-01 and 9999-12-31 the fetch fails with the overflow before any request |
| Etl.DeparturesFirstPerNumber | etl.py:144-148 | no two departures kept have numbers that render alike, and every number is represented (that they are a subsequence is `Dedup.KeepFirstSpec`) |
| Etl.ArrivalsFirstPerNumber | etl.py:150-154 | the same for arrivals |
| Etl.SkippedWindowIgnored | etl.py:137-139 | a window answered with 400 contributes nothing: the result is as if it had not been asked |
| Etl.ErrorIsFinal | etl.py:140-141 | after a fatal status, later windows do not change the result |
| Etl.RegistrationsSpec | etl.py:170 | a registration is recorded exactly when some flight carries it |
| Etl.AircraftRegistry.Add | etl.py:170 | the registry becomes the old set plus the registration, `None` included |
| Etl.AppendDepartureRows | etl.py:169-183 | the departures loop appends one row per departure, in order, and the registry gains exactly the registrations of the departures |
| Etl.AppendArrivalRows | etl.py:185-199 | the arrivals loop appends one row per arrival after the rows already built, and the registry gains exactly the registrations of the arrivals |
| Etl.FlightsToDataFrame | etl.py:165-201 | the registry gains every registration of both lists; the frame is the keep-first selection on `flight_id` of the departure rows followed by the arrival rows, and empty when there are no flights |
| Etl.DepartureRow | etl.py:171-183 | the key is `{number}_{scheduled departure}`, with `None` for a missing part; the origin is the queried airport; the actual times are the revised UTC times, with no fallback; every other column is copied |
| Etl.ArrivalRow | etl.py:187-199 | the key is `{number}_{scheduled arrival}`; the destination is the queried airport; the other columns as for a departure |
| Etl.RowsTouchAirport | etl.py:172-196 | every row before deduplication starts or ends at the queried airport |
| Etl.FrameTouchesAirport | etl.py:201 | every row of the frame starts or ends at the queried airport |
| Etl.LegKeysDiffer | etl.py:172-188 | a leg seen as a departure and as an arrival gets two different keys whenever its scheduled times render differently |
| Etl.AirportRecordOf | etl.py:71-95 | fails exactly when `location` is not a dict; otherwise ICAO code, IATA code, city and time zone are the `icao`, `iata`, `municipalityName` and `timeZone` values (NULL when missing); the name is `fullName` when truthy, else `shortName`; country and continent are the `name` of a dict, any other value unchanged, and NULL when missing; latitude and longitude come from `location`, NULL when it is missing |
| Etl.AircraftRecordOf | etl.py:302-343 | nothing for a falsy payload; AttributeError, escaping the handler, for a truthy payload that is not a dict; otherwise the registration (NULL when missing), and model, manufacturer, type code and owner are the `modelCode`, `typeName`, `icaoCode` and `airlineName` values, each "" when missing |
| EtlMetrics.DelayMinutes | etl.py:230-232 | a sample exists exactly when both times parse; it is the difference in seconds over 60 when the flight is not early, and exactly 0 when it is |
| EtlMetrics.SortIsSorted | etl.py:261 | the series the median is read from is in ascending order |
| EtlMetrics.SortIsPermutation | etl.py:261 | sorting keeps every sample with its multiplicity, and the length |
| EtlMetrics.SeriesNonnegative | etl.py:232 | every present sample in the departure and arrival series is at least 0 |
| EtlMetrics.MeanWithinSamples | etl.py:260 | the mean lies between the smallest and the largest sample |
| EtlMetrics.MedianWithinSamples | etl.py:261 | the median lies between the smallest and the largest sample |
| EtlMetrics.SummarizeSpec | etl.py:255-263 | fails exactly when the series is non-empty with no number in it; an empty series gives all zeros; totals count the samples; delayed flights are at most the total; both averages lie between 0 and some sample |
| EtlMetrics.ComputeDelayMetricsSpec | etl.py:208-263 | as written: KeyError exactly when the frame has no rows; otherwise ValueError exactly when the pooled series is non-empty with no number in it; total = departure rows + arrival rows; canceled flights as counted |
| EtlMetrics.CanceledIgnoresCase | etl.py:250-253 | the canceled test does not depend on letter case |
| EtlMetrics.CanceledWholeWord | etl.py:250-253 | "CANCELLED" and "Canceled" count; "CanceledUncertain" and a missing status do not |
| EtlMetrics.DepartureSamplesAsWritten | etl.py:243-245 | each departure sample is the arrival lateness of a selected departure row, where the departure lateness was intended |
| EtlMetrics.LateDepartureAsWritten | etl.py:243-245 | a DEL departure 25 minutes late, with no arrival times yet, makes the metrics fail |
| EtlMetrics.IntendedNeverFails | etl.py:212-245 | with departure lateness, every sample is a number, so the metrics fail exactly when the frame has no rows |
| EtlMetrics.LateDepartureIntended | etl.py:224-263 | with departure lateness, that departure gives 1 flight, 1 delayed, an average and a median of 25 |
| NewMain.LocalWindows | new_main.py:99-108 | two windows, D 00:00 to D 12:00 and D 12:01 to D 23:59 in local time; fails exactly for 0001-01-01 and 9999-12-31, where `localize` overflows |
| NewMain.LocalWindowsPartitionDay | new_main.py:99-108 | each minute of the day lies in exactly one window, and no minute outside the day lies in either |
| NewMain.LocalWindowsAreUtcWindowsShifted | new_main.py:101-108 | each bound is etl.py's UTC bound plus 330 minutes: same windows, no UTC conversion |
| NewMain.LocalWindowsExample | new_main.py:101-129 | 2024-12-14 gives 2024-12-14T00:00 to 2024-12-14T12:00 and 2024-12-14T12:01 to 2024-12-14T23:59 |
| NewMain.LoopFails | new_main.py:134-136 | the window loop fails exactly when some answer is an error status, 400 included, and it reports the first one |
| NewMain.LoopMeaning | new_main.py:114-152 | the step-by-step loop computes `Collect`: per direction, the first flight per `fid` over all windows |
| NewMain.FetchWindows | new_main.py:114-152 | the imperative loop (arrivals first, then departures, one `seen` set each) returns exactly `Collect` of the answers |
| NewMain.FetchFlights | new_main.py:81-165 | `fetch_flights`: an invalid date fails, and so does a date at either end of the calendar; otherwise the packed result over the two local windows |
| NewMain.FetchOverflowsAtCalendarEnds | new_main.py:101 | for 0001-01-01 and 9999-12-31 the fetch fails with the overflow before any request |
| NewMain.FetchFailsOnAnyError | new_main.py:134-136 | for a date inside the calendar, the fetch fails exactly when one of the two windows has an error status; there is no 400 skip |
| NewMain.PackedCounts | new_main.py:154-165 | `arrival_count` and `departure_count` are the lengths of the lists returned; `windows_used` is 2; timezone is Asia/Kolkata |
| NewMain.AllFidsSpec | new_main.py:141-152 | a flight with a truthy IATA number is keyed by it; one without is keyed by its own window and position, a key shared with no other flight |
| NewMain.NumberedFlightsOnce | new_main.py:141-152 | per direction, no two kept flights share a truthy IATA number, and every such number is represented |
| NewMain.IdentityKeyedKept | new_main.py:141-152 | a flight without a truthy IATA number is never dropped |
| NewMain.DepartureRow | new_main.py:243-270 | the key is `{airline}_{number}_{scheduled departure}`, with `None` for a missing part; origin is the payload code, or the queried airport when it is missing or empty; destination, scheduled times, number, registration, status and airline are copied; each actual time is its revised time when present and non-empty, else its scheduled time |
| NewMain.ArrivalRow | new_main.py:273-300 | the same for arrivals, keyed by `{airline}_{number}_{scheduled arrival}`, with the destination falling back to the queried airport and the origin copied |
| NewMain.Rows | new_main.py:241-300 | one row per departure, then one per arrival, in order |
| NewMain.FlightsToDataFrame | new_main.py:239-307 | the two loops and the in-place deduplication give exactly `Frame`: keep-first on `flight_id` over departure rows then arrival rows, empty when there are no flights |
| NewMain.FrameRowsFromFlights | new_main.py:239-307 | every frame row is the row of one of the departures or one of the arrivals |
| NewMain.LegKeysDiffer | new_main.py:256-286 | a leg seen from both ends gets two keys whenever its scheduled times render differently |
| NewMain.InsertFlightRecord | new_main.py:167-196 | `flight_id` and `flight_number` are both the flight number; origin and destination fall back to the queried airport; the actual times are the `actualTimeLocal` values, not the revised UTC times the frame uses; scheduled times, registration, status and airline are copied |
| NewMain.BatchInsertRecords | new_main.py:198-236 | nothing for an empty frame; otherwise one record per row, with the row's `flight_id` |
| NewMain.BatchAfterFrame | new_main.py:198-236 | the normalised frame is inserted exactly when some departure or arrival was fetched, and its records carry distinct ids |
| NewMain.AirportRecordOf | main.py:153-181 | fails exactly when `location` is not a dict; otherwise the name is `safe_str` of `fullName` when truthy, else of `shortName`; country and continent are `safe_str` of the `name` of a dict, of any other value, and NULL when missing; no text column is a dict or list |
| NewMain.AirportRecordIsSafeEtlRecord | new_main.py:50-78 | this airport row is etl.py's (name falling back to `shortName`, country and continent unwrapped to their `name`, a missing one NULL) with `safe_str` applied to every text column; both fail on the same payloads |
| MainScript.DayWindows | main.py:90-99 | [D 00:00, D 12:00] and [D 12:00, D+1 00:00]; fails exactly for 0001-01-01 and 9999-12-31, where `localize` overflows |
| MainScript.DayWindowsAbut | main.py:96-99 | two 12-hour windows; the second starts where the first ends and ends on the next date |
| MainScript.DayWindowsCoverDay | main.py:96-99 | every minute from D 00:00 to D+1 00:00 lies in a window; only noon lies in both |
| MainScript.DayWindowsExample | main.py:92-106 | 2025-12-13 gives 2025-12-13T00:00 to 2025-12-13T12:00 and 2025-12-13T12:00 to 2025-12-14T00:00 |
| MainScript.FetchWindows | main.py:104-125 | the imperative loop returns exactly `Collect`: the first error status, or all flights of every window in order |
| MainScript.FetchFlightsForDate | main.py:67-134 | `fetch_flights_for_date`: an invalid date or an overflowing day fails; otherwise the concatenation with its counts |
| MainScript.FetchOverflowsAtCalendarEnds | main.py:92-94 | for 0001-01-01 and 9999-12-31 the fetch fails with the overflow before any request |
| MainScript.CollectTwo | main.py:104-125 | over two answers: fails exactly when one has an error status; otherwise each list is the first answer's followed by the second's |
| MainScript.FetchConcatenates | main.py:104-134 | for a date other than 0001-01-01 and 9999-12-31: fails exactly on an error status; otherwise nothing is dropped, the lists are concatenated in window order, and the counts are their lengths |

## Findings

| source | as written | input that shows it | evidently intended | confidence | as-written member | corrected member |
|---|---|---|---|---|---|---|
| etl.py:243-245 | the departure sample is recomputed from the arrival times of the departure rows, replacing the departure lateness of lines 230-232 | one DEL departure scheduled 2024-12-14 04:30Z, gone at 04:55Z, with no arrival times: the series is one NaN, and `int(NaN)` raises | the departure sample is the departure lateness (25 minutes here) | not executed | EtlMetrics.LateDepartureAsWritten | EtlMetrics.LateDepartureIntended |

`EtlMetrics.ComputeDelayMetrics` models the code as written. Its properties are
in `EtlMetrics.ComputeDelayMetricsSpec` and `EtlMetrics.DepartureSamplesAsWritten`.
`EtlMetrics.ComputeDelayMetricsIntended` uses departure lateness.
`EtlMetrics.IntendedNeverFails` proves that it fails only on a frame without rows.

## Left out

- HTTP: `requests.get`, the API headers, dotenv, `fetch_airport`, `fetch_aircraft_data` and main.py's relative-window `fetch_flights` (main.py:44-64). Answers are the `respond` parameter.
- Pacing and logging: `time.sleep` and every `print` have no effect on the values computed.
- SQLite: `executescript`, the `INSERT OR IGNORE` execution, `commit` and `to_sql`. Only the value tuples built for insertion are modelled. The `sqlite3.Error` handler of `insert_aircraft` is not modelled, since the model only builds the bound values.
- `insert_airport_delay` (etl.py:266-289) only binds the metrics dict, so it is not a separate member.
- app.py (the Streamlit dashboard) and query_db.py (a print script).
- The `run_etl` orchestration in all three scripts, including the dead delay columns at new_main.py:328-377.
- The seed literal `AIRCRAFT_REGISTRATIONS` (etl.py:52): it is the constructor argument of `Etl.AircraftRegistry`.
- EtlMetrics.DelayMinutes: samples are exact reals, not `total_seconds() / 60` in floating point.
- `pd.to_datetime(errors="coerce")`: a `parse` parameter mapping a column value to seconds or nothing.
- Calendar.ParseDate: accepts only the zero-padded `%Y-%m-%d` form, which is stricter than `strptime` (it also accepts `2024-1-5`).
- Etl.ToUtc: uses the fixed +05:30 offset, without pytz's historical Asia/Kolkata offsets before 1945.
- EtlMetrics.AsciiLower: lower-cases ASCII letters only, not all of Unicode.
- Payload shapes that raise AttributeError in `.get`: a `departure`, `arrival`, `airline`, `aircraft`, `airport`, `scheduledTime` or `revisedTime` value that is null or not a dict, and an airport payload that is not a dict. `Flight` holds the leaf values only, and the airport builders take the payload's members, so these inputs cannot be written.
- Flight fields are `Option<string>`. A payload whose flight fields hold dicts or lists is not represented, so `safe_str` is the identity on flight values.
- Python's `id(flight)` is modelled as the flight's (window, position), which is unique within one fetch like an object identity.
- main.py's `code_type` parameter: only the default `"iata"` is modelled.
- Concurrency does not arise: every script runs sequentially.
- pytz is not part of this model. `Calendar.AtCalendarEnd` records the one behaviour of `localize` the model relies on: it looks at the wall time one day before and one day after, so it overflows on the first and last dates.
- Calendar.FormatDateTime: always writes `%Y` as four digits. glibc's `strftime` writes years below 1000 without padding, so request texts for those years differ.
- PyJson.Repr: a number keeps its JSON text, while Python prints the parsed value (`1e5` as `100000.0`, `1.50` as `1.5`).
- PyJson.Repr: a key repeated in a JSON object is printed once per occurrence. `json.loads` keeps one entry, with the last value at the first key's position. `Get` and `Lookup` do return the last value.
- PyJson.Escape: escapes ASCII control characters only. Python's `repr()` also escapes non-printable characters beyond ASCII.
