# Weather forecast pipeline — verified model of its core

This project models the core of a pipeline that collects weather forecasts from five vendors
(`open_meteo`, `met_no`, `openweather`, `visual_crossing`, `weather_gov`). The pipeline:

- aligns the forecasts with ground observations;
- builds a feature matrix (vendor values, lagged observations, calendar, target);
- lets a champion model predict its own forecast (`our_model`), inserted in batches;
- ranks every source per (variable, horizon) on a leaderboard.

The model also covers the utilities the pipeline relies on:

- unit normalisation;
- UTC time arithmetic and forecast horizons;
- a cached JSON fetch with retries and exponential back-off;
- the configuration helpers and tables.

Modules, one per source file (plus shared helpers):

- `Wrappers`: `Option` and `Result`.
- `Ordering`: Python string order, a stable sort, `drop_duplicates`.
- `Decimal`: `str(n)` and `int(s)` on ASCII digits.
- `Frames`: rows indexed by (lat, lon, valid_time) and pandas' left merge, including the row multiplication caused by duplicate right-hand keys.
- `Config`: `src/config.py`.
- `Units`: `src/utils/unit_utils.py`.
- `TimeUtil`: `src/utils/time_utils.py`.
- `Http`: `src/utils/http_utils.py`.
- `Features`: `src/model/features.py`.
- `Predict`: `src/model/predict.py`.
- `Leaderboard`: `src/verify/leaderboard.py`.

How the source's data and effects appear in the model:

- **Database tables** are sequences of records passed in as parameters. A SQL query is a filter over them.
- **Frames** are sequences of rows. A row holds its index and a map of its non-missing cells; a missing cell is NaN.
- **Times** are whole numbers:
  - in the feature builder, hours since the epoch;
  - in `time_utils`, microseconds with an optional UTC offset;
  - in the leaderboard, seconds.
- **The champion model** is an opaque function from feature vectors to predictions. It fails with an error when it returns the wrong number of values.
- **Wall clock, network and cache directory** are parameters.
- **Inserted batches** are returned as values.

Where the written code and its design description differ, the model follows the code:

- The leaderboard's `n` is the sum of the stored `n` values, not a count of error rows.
- The ranking uses rmse only. Equal rmse goes to the earlier aggregate row; no mae tie-break is applied, whatever the comment at `src/verify/leaderboard.py:22` says.
- The ±1 h target fallback of `build_features` never fills anything. See "Findings" below. `main` is modelled with the builder as written (`Features.Features`), so repeated observations multiply its rows there as they do in the program; the corrected builder is proved on its own.

## Model

| member | source | states |
|---|---|---|
| Config.ClampFloat | src/config.py:62-64 | the result never exceeds `max_v`; with ordered bounds it lies in them, equals `x` inside them and `min_v` below; with crossed bounds it is `max_v` |
| Config.ClampIdempotent | src/config.py:62-64 | clamping twice is clamping once |
| Config.JsonEnv | src/config.py:10-19 | an unset or whitespace-only variable gives the default; valid JSON gives its parsed value; otherwise the default |
| Config.SourcesDistinct | src/config.py:60 | six source tags, pairwise different |
| Units.ToCelsius | src/utils/unit_utils.py:5-12 | succeeds exactly for the Celsius, Kelvin and Fahrenheit aliases; otherwise fails naming the unit |
| Units.ToMps | src/utils/unit_utils.py:14-23 | succeeds exactly for the m/s, km/h, mph and knot aliases; otherwise fails naming the unit |
| Units.ToMm | src/utils/unit_utils.py:25-34 | succeeds exactly for the mm, cm, m and inch aliases; otherwise fails naming the unit |
| Units.NormalizeValue | src/utils/unit_utils.py:36-43 | no result (None) exactly for a variable outside the unit map; a result carries the variable's canonical unit; a failure names the given unit |
| Units.BlankUnitIsCanonical | src/utils/unit_utils.py:38-43 | a missing or empty unit returns the value unchanged with the canonical unit |
| Units.NormalizeIdempotent | src/utils/unit_utils.py:36-43 | normalising a normalised pair returns it unchanged |
| Units.ConversionsIncreasing | src/utils/unit_utils.py:5-34 | every successful conversion is strictly increasing in the value |
| Units.ConversionExamples | src/utils/unit_utils.py:5-43 | 32 °F is 0 °C, 273.15 K is 0 °C, 1 in is 25.4 mm; a lower-case `c` is rejected; an unknown variable gives None |
| TimeUtil.ToUtc | src/utils/time_utils.py:8-14 | the result is UTC; a naive time keeps its wall clock; an aware time keeps its instant |
| TimeUtil.ToUtcIdempotent | src/utils/time_utils.py:8-14 | converting twice is converting once |
| TimeUtil.FloorHour | src/utils/time_utils.py:16-18 | the result is UTC with zero minute, second and microsecond, at most an hour before the instant and never after it |
| TimeUtil.FloorHourIdempotent | src/utils/time_utils.py:16-18 | flooring twice is flooring once |
| TimeUtil.RoundHalfEven | src/utils/time_utils.py:22 | Python's `round`: nearest integer, halves to even |
| TimeUtil.RoundsHalfEvenUnique | src/utils/time_utils.py:22 | that rounding has exactly one answer |
| TimeUtil.HorizonHours | src/utils/time_utils.py:20-22 | the horizon is the half-even rounding of the UTC difference in hours, within half an hour of it |
| TimeUtil.HorizonAntisymmetric | src/utils/time_utils.py:20-22 | swapping issue and valid time negates the horizon |
| TimeUtil.HorizonWholeHours | src/utils/time_utils.py:20-22 | a difference of exactly k hours gives horizon k |
| TimeUtil.HorizonExamples | src/utils/time_utils.py:20-22 | 1.5 h and 2.5 h both round to 2; -1.5 h rounds to -2 |
| Http.KeyPreimage | src/utils/http_utils.py:17-19 | the key is computed from the URL and from the parameter and header entries, each a rearrangement of the input with missing meaning empty |
| Http.KeyIgnoresOrder | src/utils/http_utils.py:17-19 | two requests share a key exactly when their URLs match and their dictionaries hold the same entries, in any order; `None` and `{}` share a key |
| Http.OrDefault | src/utils/http_utils.py:22-23 | `ttl or default`: None and 0 give the default, any other value is kept |
| Http.SuccessMeansJson | src/utils/http_utils.py:41-45 | an attempt succeeds exactly when it got a response whose status is not 4xx/5xx and whose body is JSON |
| Http.FirstSuccess | src/utils/http_utils.py:39-51 | the index of the first successful attempt among the six; all earlier ones failed |
| Http.SleepsIncrease | src/utils/http_utils.py:38-55 | each back-off sleep `1.5 ** attempt` is longer than the previous one |
| Http.Store | src/utils/http_utils.py:46-50 | a complete write stores the payload under the key at the write's time; a truncated write leaves an unreadable entry; a failed write leaves the cache as it was; other keys are untouched |
| Http.StoreThenServe | src/utils/http_utils.py:28-35 | after a complete write at time `t`, a later call serves the stored payload exactly while `now - t <= ttl` |
| Http.GetJson | src/utils/http_utils.py:21-55 | a missing or zero `ttl`/`timeout` falls back to the configured `REQUESTS_CACHE_TTL_SECONDS`/`REQUESTS_TIMEOUT`, given as parameters. A fresh, readable cache entry is served with no request. Otherwise attempts run until the first success: its payload is returned and stored, with one increasing sleep per earlier failure. Six failures give None and six sleeps |
| Http.TruncatedEntryIsMiss | src/utils/http_utils.py:28-35 | a cache file that cannot be read back as JSON is never served |
| Features.VendorRecords | src/model/features.py:14-19 | the query keeps exactly the records of the variable with a vendor source |
| Features.VendorMatrixKeys | src/model/features.py:20-24 | the pivot has one row per forecast index, in ascending index order; it is empty exactly when the query returns nothing |
| Features.VendorMatrixCells | src/model/features.py:23-24 | each pivoted cell is the mean of that vendor's values for the index; a vendor without a value there has no cell |
| Features.VendorMatrixColumns | src/model/features.py:23-24 | the index columns come first, then the vendors present, ascending and without repetition |
| Features.LagNameInjective | src/model/features.py:57 | different lags give different column names |
| Features.ObsLagsFaithful | src/model/features.py:43-62 | the table's index values are exactly the observations' indexes; lag column `l` holds the observation exactly `l` hours earlier when one exists, else the cell is missing |
| Features.LagTableUnique | src/model/features.py:43-62 | with at most one observation per index, the lag table has one row per index |
| Features.GetObsLags | src/model/features.py:51-62 | the loops that build the lagged frames and fold them onto the index compute `ObsLags` |
| Features.LagNameShape | src/model/features.py:57 | lag column names clash with no vendor, calendar or target column |
| Features.Hour | src/model/features.py:66 | the hour of day lies in 0..23 |
| Features.Dow | src/model/features.py:67 | the day of week lies in 0..6 |
| Features.CalendarEpoch | src/model/features.py:64-68 | 1970-01-01 00:00 is a Thursday at hour 0; 1970-01-05 is a Monday |
| Features.CalendarDaily | src/model/features.py:64-68 | a day later: the same hour and the next weekday |
| Features.CalendarMerge | src/model/features.py:75-76 | merging the de-duplicated calendar on `valid_time` gives every row the hour and weekday of its own time, one for one and in order |
| Features.LagMergeFaithful | src/model/features.py:74 | merging the lag table keeps exactly the vendor indexes; each row carries its vendor means and the lag cells of its index |
| Features.CalendarFaithful | src/model/features.py:74-76 | after the calendar merge every row is a matrix row of a vendor index, still without a target |
| Features.TargetJoinFaithful | src/model/features.py:88-110 | the target join as written keeps every index; `y` is present exactly when an observation exists at the row's own index |
| Features.FillNeverFills | src/model/features.py:105-110 | as written, a row without an exact observation has no ±1 h candidate either; the fill only drops the helper columns |
| Features.FeaturesFaithful | src/model/features.py:70-111 | `build_features` as written: empty exactly when vendor records or observations are missing; otherwise the row indexes are exactly the vendor indexes, each row with vendor means, lags, calendar and exact-time `y` |
| Features.TargetJoinIntended | src/model/features.py:88-110 | the corrected target join keeps every index; `y` is the exact-time observation, else the one an hour earlier, else the one an hour later |
| Features.FeaturesIntendedFaithful | src/model/features.py:70-111 | the corrected matrix: as `FeaturesFaithful`, with the ±1 h fallback applied to `y` |
| Features.FeaturesCalendar | src/model/features.py:75-76 | a non-empty matrix as written has full `hour` and `dow` columns holding each row's calendar |
| Features.FeaturesIntendedCalendar | src/model/features.py:75-76 | a non-empty corrected matrix has full `hour` and `dow` columns |
| Features.FeaturesOneToOne | src/model/features.py:74-106 | with at most one observation per index, every merge keeps the vendor matrix's rows one for one and in order |
| Features.HorizonIgnored | src/model/features.py:13-24 | the horizon argument does not change the matrix |
| Features.FeaturesEmpty | src/model/features.py:70-86 | without vendor records the empty fetched frame is returned; without observations an empty frame with no columns |
| Features.FallbackExample | src/model/features.py:88-110 | a forecast at hour 10 with an observation only at hour 9: as written the row has no `y`; corrected, `y` is the hour-9 value |
| Predict.LagDigitsSound | src/model/predict.py:48 | what is captured matches `^obs_lag_(\d+)h?$`, including `$` before a final newline |
| Predict.LagDigitsComplete | src/model/predict.py:48 | every match of the pattern is captured, with its digits |
| Predict.LagKeyOfLagName | src/model/predict.py:47-49 | a lag column `obs_lag_<l>h` sorts by `l` |
| Predict.SortLagColsSpec | src/model/predict.py:45-50 | the result is a rearrangement of the input, ascending by lag key; names with equal keys keep their order |
| Predict.MatchingNamesFirst | src/model/predict.py:49 | a matching name below `10**9` comes before every name that does not match |
| Predict.VendorCols | src/model/predict.py:57 | exactly the vendors that are columns of the frame, in the fixed vendor order |
| Predict.LagColsOf | src/model/predict.py:61 | exactly the columns starting with `obs_lag_`, in column order |
| Predict.FeatCols | src/model/predict.py:61-62 | vendor columns, then the lag columns sorted by lag, then `hour` and `dow` |
| Predict.CalendarStepSpec | src/model/predict.py:65-68 | one calendar fix: the column ends full; it is recomputed only when missing or partly missing; other cells are left alone |
| Predict.EnsureCalendarSpec | src/model/predict.py:64-68 | after both fixes, `hour` and `dow` are full; a recomputed column holds the valid time's calendar; nothing else changes |
| Predict.BuiltFramesKeepCalendar | src/model/predict.py:64-68 | a non-empty frame from `build_features` as written already has its calendar, so the fix changes nothing |
| Predict.Kept | src/model/predict.py:71-72 | the mask keeps exactly the rows with a vendor value |
| Predict.KeptAppend | src/model/predict.py:71-72 | the mask works row by row, keeping order and multiplicity |
| Predict.PredictionRowsSpec | src/model/predict.py:70-74 | each selected row is a row of the frame with a vendor value, holding only feature cells; no vendor columns means no rows |
| Predict.BatchCountSpec | src/model/predict.py:78 | batch `k` runs exactly when `k * BATCH_SIZE < n` |
| Predict.BatchCountCeil | src/model/predict.py:77-79 | the number of batches is the ceiling of `n / BATCH_SIZE` |
| Predict.BatchesPartition | src/model/predict.py:78-80 | the batches are non-empty, at most `BATCH_SIZE` long and contiguous from 0 to `n`; each row lies in exactly one |
| Predict.TablesAgree | src/model/predict.py:57-92 | the vendor list, the unit table and the `our_model` tag agree with the configuration's tables |
| Predict.InsertBatches | src/model/predict.py:77-97 | the batch loop computes the batch specification, up to the first error |
| Predict.PredictAndInsertStream | src/model/predict.py:55-97 | the streaming method computes the stream specification: the calendar-fixed frame, the inserted batches and any error |
| Predict.StreamOutput | src/model/predict.py:57-95 | no vendor columns: nothing happens. Otherwise, without an error every selected row is predicted and inserted exactly once, in order, in `ceil(n / BATCH_SIZE)` batches |
| Predict.StreamUnknownVariable | src/model/predict.py:92 | an unknown variable raises KeyError at the first batch and inserts nothing; with nothing to predict there is no error |
| Predict.StreamRowWise | src/model/predict.py:78-91 | a row-wise model gives every row the score of its own feature vector; batching changes nothing |
| Predict.StreamTagged | src/model/predict.py:83-93 | every inserted row carries `our_model`, the call's variable, horizon and unit, and the index of a row of the frame |
| Predict.PredictPair | src/model/predict.py:111-114 | one round of the loop: build the features with `build_features` as written, skip an empty frame, stream its predictions |
| Predict.RunPredictions | src/model/predict.py:99-114 | `main`'s nested loops compute the specification over every (variable, horizon) pair in order, each on the frame of `build_features` as written, stopping at the first error |
| Predict.MainOutput | src/model/predict.py:99-114 | without a champion nothing is inserted. Each inserted row carries `our_model`, a configured variable and horizon, that variable's unit, and the location and time of a vendor forecast of that variable |
| Leaderboard.InWindow | src/verify/leaderboard.py:16 | the window keeps exactly the records whose valid time is on or after `since` |
| Leaderboard.QueryGroups | src/verify/leaderboard.py:13-19 | one aggregate row per (source, variable, horizon) with a record in the window, and no other |
| Leaderboard.QueryRows | src/verify/leaderboard.py:13-19 | each aggregate row holds the means of its group's mae, rmse and mape, and the sum of their `n` |
| Leaderboard.AggregateExample | src/verify/leaderboard.py:14 | rmse values 1, 2 and 3 with `n` = 1 each give mean 2 and `n` = 3 |
| Leaderboard.RankSpec | src/verify/leaderboard.py:22-23 | ranks run from 1 to the group size; rank 1 is exactly the winner (lowest rmse, earliest on ties); no two rows of a group share a rank |
| Leaderboard.WinnerExists | src/verify/leaderboard.py:22-23 | every group has a winner |
| Leaderboard.WinnerUnique | src/verify/leaderboard.py:22-23 | a group has only one winner |
| Leaderboard.NoMaeTiebreak | src/verify/leaderboard.py:22-23 | on equal rmse the earlier row wins, even with a larger mae |
| Leaderboard.SortRankedSpec | src/verify/leaderboard.py:24 | the sort yields a rearrangement of the ranked rows, ordered by (variable, horizon, rank) |
| Leaderboard.SortKeysUnique | src/verify/leaderboard.py:24 | any sorted rearrangement equals this one, so the sort's stability does not matter |
| Leaderboard.HeadOneDistinct | src/verify/leaderboard.py:24 | `groupby(...).head(1)` keeps at most one row per (variable, horizon) |
| Leaderboard.LeaderboardWinners | src/verify/leaderboard.py:11-25 | an empty aggregate gives an empty leaderboard; every row is the winner of its group |
| Leaderboard.LeaderboardComplete | src/verify/leaderboard.py:11-25 | every (variable, horizon) of the aggregate has a row |
| Leaderboard.LeaderboardOrdered | src/verify/leaderboard.py:24-25 | rows are strictly ascending by (variable, horizon), so no pair appears twice |

## Left out

- Database access (`fetch_df`, `insert_dataframe`, `get_champion_model_name`):
  - tables are parameters;
  - an inserted batch is a returned value;
  - the champion name is an `Option` parameter.
- Query row order: the order in which the database returns rows is taken as the records' order. SQL `GROUP BY` output is taken in first-appearance order.
- SQL `avg` skips NULL values: not modelled, since every error record carries all three metrics.
- Model loading and MLflow setup (`mlflow_setup`, `load_model`): the model is a `load` parameter; predictions come from an opaque function.
- `Predict.PredictAndInsertStream`: pandas updates `Xy` in place, visible to the caller. The model returns the updated frame instead, and does not model aliasing.
- `Predict.Clock`: `datetime.now` in `issue_time` is a clock parameter, indexed by variable, horizon and batch start.
- `gc.collect()`, `del` and every log call: no observable effect on the results.
- `Xy is None` in `main`: `build_features` never returns None, so that branch is not modelled.
- `Leaderboard.LeaderboardRows`: the selection of output columns on `src/verify/leaderboard.py:25` is cut off in the source. Each row is modelled as the full winning aggregate row without its rank.
- `Http.KeyPreimage`: SHA-256 and the hex digest are not modelled. The key is the hashed string's structure; hash collisions are ignored.
- `Http.GetJson`: not modelled:
  - the file system (the cache is a map);
  - the real clock (`now` is a parameter);
  - the network (a scripted answer per attempt);
  - sleeping, modelled as the returned list of sleep lengths.
- `CFG.REQUESTS_TIMEOUT` and `CFG.REQUESTS_CACHE_TTL_SECONDS` (`src/config.py:40-41`) are read from the environment at import time. That read is not modelled: `Http.GetJson` takes the configured values as parameters, and their unset defaults are `Config.DefaultRequestsTimeout` and `Config.DefaultCacheTtlSeconds`.
- `Http.GetJson`: returns None after six failures, where the source function falls off its loop and also returns None.
- Floating point: values are reals. `(x - 32) * 5 / 9`, the back-off powers and the means are exact, without rounding.
- `Predict.LagDigitsSound`: `\d` is modelled as the ASCII digits only. Python also accepts other Unicode decimal digits.
- `TimeUtil.ToUtc`: `dateutil.parser.isoparse` on strings is not modelled. Times are given already parsed.
- `now_utc` (`src/utils/time_utils.py:4-6`): it reads the clock, which is a parameter wherever it is used.
- `src/config.py:8` binds the logger to the name `loggerlogger`. `_json_env` would then fail on its warning line (`src/config.py:18`). The model returns the default on invalid JSON, as the docstring and the surrounding code intend.
- Calendar features: valid times are whole hours in UTC. Minutes and local time zones are not represented in the feature matrix.

## Findings

| source | as written | input that shows it | evidently intended | confidence | as-written member | corrected member |
|---|---|---|---|---|---|---|
| src/model/features.py:88-110 | the ±1 h candidates are joined on the shifted time but merged back on the row's own time, so `y_m1`/`y_p1` are present only where the exact-time `y` is; `fillna` never fills | one forecast at hour 10 and one observation at hour 9 (same location): the row at hour 10 gets no `y` | a row without an exact observation takes `y` from the hour before, else the hour after | not executed | Features.FallbackExample | Features.TargetJoinIntended |
