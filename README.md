# Quantified-self: Garmin backfill, fasting and podcast helpers in Dafny

This project models the data-collection core of a personal "quantified self"
dashboard.

- **Garmin incremental backfill.** A collector reads the latest stored date of a metric table (the watermark).
  - An empty table falls back to the first day of the watch, 2022-08-26 (the epoch). A timestamp is truncated to its calendar day, and the watermark is clamped up to the epoch.
  - The collector lists every day from the watermark + 1 up to today minus a lag: 3 days in the cloud-function collectors, 1 day in the older Prefect flow.
  - It fetches one provider record per missing day and normalises the records per series: stats, steps, heart rate, stress, hydration or sleep.
  - It appends the resulting rows to the table in one write, or reports "already up to date" when nothing is missing.
  - The Prefect flow differs in four ways: a one-day lag, a bare `except` instead of the clamp, an empty table that makes the run fail, and a hydration branch that logs the stress message.
- **Fasting page.** The start and end instants of a fast, the fast duration taken modulo one day, dropping the unfinished last fast, the `"<H>h <MM>min"` rendering, and the window a metric averages over.
- **Podcasts page.** Loading the listening history:
  - the seen-episode filter, `MM:SS` padding and duration parsing, the 2018 cut-off, a right join to the podcasts, and the most-recent-first order;
  - the year tabs, the yearly totals and deltas in whole hours, and the yearly top ten.

Representation:

- Calendar days are integer day ordinals since 1970-01-01. Instants are integer milliseconds, or seconds on the Fasting page.
- `today` is a parameter, and the provider is a function from a day to that day's payload.
- A provider record is a map from field name to `Option<int>`: absent, null, or a number.
- A stored table is a class holding a sequence of rows; appending reassigns it.

Modules: `Results` (Option/Result/errors), `Calendar`, `Text` (decimal rendering), `Sorting` (stable sort keyed by `Option<int>` with missing keys last, dedup, filter), `Frames` (records, frames, select/rename/snake_case/fill/cast/sort), `Normalise` (per-series `collect_data`), `Storage` (the table and its latest-row query), `Collectors` (the cloud-function collectors), `PrefectFlow`, `Fasting`, `Podcasts`.

## Model

| member | source | states |
|---|---|---|
| Storage.Latest | google_cloud_functions/garmin_collectors.py:13-25 | `ORDER BY date DESC LIMIT 1`, first column: None iff the table is empty; NULL only when every stored date is NULL; otherwise a stored date that is ≥ every non-null date |
| Storage.PointOf | google_cloud_functions/garmin_collectors.py:13-25 | the fetched value as Python sees it; None exactly when the table has no row |
| Storage.LatestGrows | google_cloud_functions/garmin_collectors.py:13-21 | after an append, the latest date is at least every non-null date of the batch |
| Storage.Table.Append | google_cloud_functions/garmin_collectors.py:49-54 | `to_sql(if_exists='append')`: the new rows are the old rows followed by the batch |
| Calendar.DayOf | google_cloud_functions/garmin_collectors.py:32-33 | `.date()` of an instant: the day d with d·86400000 ≤ ms < (d+1)·86400000 |
| Calendar.DayOfMonotone | google_cloud_functions/garmin_collectors.py:32-33 | truncating to the day preserves order |
| Calendar.EpochIsDay19230 | google_cloud_functions/garmin_collectors.py:31 | the epoch 2022-08-26 is day 19230 |
| Collectors.Watermark | google_cloud_functions/garmin_collectors.py:27-36 | the epoch for an empty table or a NULL date; the day of a date or timestamp, clamped up to the epoch (≥ epoch, equal to the day or to the epoch); fails exactly on a text value, which has no `.date()` |
| Collectors.MissingDates | google_cloud_functions/garmin_collectors.py:38-42 | exactly the days w < d ≤ last, consecutive, ascending, first w+1 and last `last`; empty when last ≤ w |
| Collectors.UpToDateIff | google_cloud_functions/garmin_collectors.py:38-57 | a run is "already up to date" with no rows iff the watermark ≥ today − 3; then the provider is not consulted (any provider gives the same outcome) |
| Collectors.AddedRun | google_cloud_functions/garmin_collectors.py:45-55 | a run that adds rows reports n = today − 3 − watermark > 0 days and appends exactly the rows `collect_data` made of those days |
| Collectors.StatsRowPerDay | google_cloud_functions/garmin_collectors.py:69-73 | a stats run appends one row per missing day |
| Collectors.SecondRunAddsNothing | google_cloud_functions/garmin_collectors.py:27-57 | once an appended row is dated today − 3 or later, a second run with the same `today` adds nothing, whatever the provider answers |
| Collectors.StatsBackfillIdempotent | google_cloud_functions/garmin_collectors.py:45-57 | with a provider that dates each stats record by its day, a successful stats run is followed by an up-to-date run |
| Collectors.StatsBatchHasDay | google_cloud_functions/garmin_collectors.py:70-113 | each requested day's stats row, keyed by that day, is in the appended batch |
| Collectors.EmptyTableScenario | google_cloud_functions/garmin_collectors.py:30-42 | an empty table and today 2022-08-30 give the single day 2022-08-27 |
| Collectors.PreEpochClamped | google_cloud_functions/garmin_collectors.py:35-42 | a stored date before the epoch makes the range start at the day after the epoch |
| Collectors.Collector.constructor | google_cloud_functions/garmin_collectors.py:7-10 | the collector keeps its provider, its table and its series |
| Collectors.Collector.CreateListMissingDates | google_cloud_functions/garmin_collectors.py:27-43 | the missing days of the table's latest point; every day lies in (epoch, today − 3] |
| Collectors.Collector.InsertNewData | google_cloud_functions/garmin_collectors.py:45-57 | on failure the table is unchanged and nothing is printed; otherwise it returns what `Backfill` reports with the line it prints (`<table>: <n> new days added.` or `<table>: already up to date!`), and the table becomes the old rows followed by the batch; nothing is written on an up-to-date run |
| Collectors.AnnouncementDetermines | google_cloud_functions/garmin_collectors.py:55-57 | the printed line determines the outcome: "already up to date" and each number of added days print different lines for the same table |
| Collectors.SleepDateIsMilliseconds | google_cloud_functions/garmin_collectors.py:244 | a day ordinal read with `to_datetime(unit='ms')` is an instant on 1970-01-01; stored as a timestamp it leaves the watermark at the epoch, so the next run asks for the same days as on an empty table |
| Frames.Select | google_cloud_functions/garmin_collectors.py:75-101 | `df[cols]` succeeds iff every column is in some record (else a KeyError naming the absent ones); one row per record, the columns in order, each cell the record's field or NaN |
| Frames.Absent | google_cloud_functions/garmin_collectors.py:75-101 | the columns the KeyError names are exactly the requested columns that no record has |
| Frames.SnakeCaseShape | google_cloud_functions/garmin_collectors.py:107 | the snake_case name has no upper-case letter and is one character longer per upper-case letter after position 0 |
| Frames.SnakeCaseIdempotent | google_cloud_functions/garmin_collectors.py:107 | applying the transform twice equals applying it once |
| Frames.CamelSnakeRoundTrip | google_cloud_functions/garmin_collectors.py:107 | a camelCase name with a lower-case head and no `_` is recovered from its snake_case form |
| Frames.SnakeCaseOfDate | google_cloud_functions/garmin_collectors.py:107 | `date` is unchanged |
| Frames.SnakeCaseColumnsFacts | google_cloud_functions/garmin_collectors.py:107 | after the column rename no name has an upper-case letter, a name already without one (such as `date`) is kept, and a camelCase name with a lower-case head and no `_` can be read back from its new name |
| Frames.Fill | google_cloud_functions/garmin_collectors.py:111 | `fillna(sentinel)` on a cell: a missing value becomes the sentinel, a present value is kept |
| Frames.FillValues | google_cloud_functions/garmin_collectors.py:111 | afterwards no non-date cell is missing; each present value is kept and each missing one is the sentinel; dates, columns and shape unchanged |
| Frames.CastColumns | google_cloud_functions/garmin_collectors.py:111 | `astype(int)` succeeds iff no listed column holds a missing value, and then changes nothing |
| Frames.SortRows | google_cloud_functions/garmin_collectors.py:113 | `sort_values('date')`: rows ordered by date with missing dates last, a permutation of the input |
| Normalise.SnakeColumns | google_cloud_functions/garmin_collectors.py:103-107 | the stats column names after the rename and snake_case step; `date` comes first |
| Normalise.NormaliseDaily | google_cloud_functions/garmin_collectors.py:69-114 | succeeds iff every field is in some record; then the columns are the snake_case names with `date` first, there is one row per record, the rows are sorted by date, are a permutation of the records' rows with missing values set to the sentinel, and hold no missing value |
| Normalise.DailyNormalised | google_cloud_functions/garmin_collectors.py:103-112 | after rename, snake_case and fill, each row is the record's date then its fields with missing values set to the sentinel |
| Normalise.DailySorted | google_cloud_functions/garmin_collectors.py:113 | sorting keeps the frame's shape and its having no missing value |
| Normalise.NormaliseSteps | google_cloud_functions/garmin_collectors.py:122-135 | succeeds iff the three fields are present and every record has a step count; then the rows are sorted by start time and are a permutation of the records' rows |
| Normalise.StepsHaveNoSentinel | google_cloud_functions/garmin_collectors.py:133 | a missing step count fails the collection: the `fillna(0)` after the cast never applies |
| Normalise.NormaliseHeartRate | google_cloud_functions/garmin_collectors.py:143-155 | columns `date`,`hr`; rows sorted by timestamp; a permutation of the samples with a missing reading as −1; no missing `hr` |
| Normalise.SentinelsPerSeries | google_cloud_functions/garmin_collectors.py:153 | a missing heart-rate reading becomes −1, while a stats field missing from a record is 0 in that field's own column of the record's row |
| Normalise.MissingFieldFilled | google_cloud_functions/garmin_collectors.py:111 | a field missing from a daily record holds the sentinel in the column of that field |
| Normalise.NormaliseStress | google_cloud_functions/garmin_collectors.py:163-175 | succeeds iff every sample has a value (no fill before the cast); then the rows are sorted by timestamp and are a permutation of the samples |
| Normalise.NormaliseHydration | google_cloud_functions/garmin_collectors.py:183-191 | succeeds iff the four fields are present; then the columns are renamed in order, and there is one row per record, in order |
| Normalise.NormaliseSleep | google_cloud_functions/garmin_collectors.py:198-245 | succeeds iff the seventeen fields are present; then the columns are renamed in order, and there is one row per record, in order, keyed by the record's date number read as milliseconds |
| Sorting.SortBy | google_cloud_functions/garmin_collectors.py:113 | the result is sorted by the key with missing keys last, and is a permutation of the input |
| PrefectFlow.FlowWatermark | prefect-flows/garmin-flow.py:33-38 | a date as it is, a timestamp truncated to its day; NULL and text (where `.date()` raises) fall back to the epoch; no clamp |
| PrefectFlow.FlowMissingDays | prefect-flows/garmin-flow.py:33-44 | fails iff there is no row to index; otherwise exactly the days watermark < d ≤ today − 1 |
| PrefectFlow.FlowLog | prefect-flows/garmin-flow.py:66-68 | the log line of a flow starts with its own label |
| PrefectFlow.HydrationLogsStressMessage | prefect-flows/garmin-flow.py:89-90 | as written, an up-to-date hydration run logs exactly the stress line, not a hydration line |
| PrefectFlow.FlowLogsDistinct | prefect-flows/garmin-flow.py:88-90 | corrected: no stress log line equals any hydration log line |
| PrefectFlow.EmptyTableFails | prefect-flows/garmin-flow.py:48-49 | an empty table fails the flow before any range is computed |
| PrefectFlow.PreEpochNotClamped | prefect-flows/garmin-flow.py:33-44 | a stored date before the epoch is used as is: the range includes days up to the epoch |
| PrefectFlow.TextKeyRefetches | prefect-flows/garmin-flow.py:34-38 | a text watermark restarts the range at the day after the epoch, so days already stored are fetched again |
| PrefectFlow.UpToDateScenario | prefect-flows/garmin-flow.py:39-43 | stored 2023-01-10 with today 2023-01-10: nothing is missing |
| PrefectFlow.FlowUpToDateIff | prefect-flows/garmin-flow.py:48-68 | the flow is up to date iff the watermark ≥ today − 1, and then the provider is not consulted |
| PrefectFlow.RunFlow | prefect-flows/garmin-flow.py:46-90 | on failure the table is unchanged; otherwise the logged line is the line the source logs for the flow and the report, and the table becomes the old rows followed by the batch |
| PrefectFlow.CollectStressData | prefect-flows/garmin-flow.py:46-68 | the stress flow: one append of the flow's batch, or none, logging `Stress data: …` |
| PrefectFlow.CollectHydrationData | prefect-flows/garmin-flow.py:70-90 | the hydration flow: one append of the flow's batch, or none; an up-to-date run logs the stress flow's line `Stress data: already up to date!`, a run that adds days logs `Hydration data: <n> new days added.` |
| PrefectFlow.StressBatchSorted | prefect-flows/garmin-flow.py:51-58 | the appended stress rows are sorted by timestamp and every stress value is an integer |
| Fasting.EndInstant | pages/Fasting.py:22-23 | the end lies one day plus (end − start time of day) after the start |
| Fasting.FastDurationSec | pages/Fasting.py:26 | in [0, 86400); equal to (end − start time of day) mod 86400; exact when end ≥ start, one day added otherwise |
| Fasting.DurationWraps | pages/Fasting.py:22-26 | when the end time of day is not before the start, the real fast is a day or more and the duration drops the whole day |
| Fasting.LoadFasts | pages/Fasting.py:22-32 | n fasts give n − 1 rows (0 for none), sorted by start, durations in [0, 86400); the dropped fast started no earlier than every kept one, and kept + dropped is a permutation of all fasts |
| Fasting.FormatShape | pages/Fasting.py:75-80 | the rendering is unpadded hours, `h `, two-digit minutes, `min` |
| Fasting.FormatJustUnderAnHour | pages/Fasting.py:75-80 | 3599 seconds render as `0h 59min`: seconds are cut, not rounded |
| Fasting.FormatMinutePrecision | pages/Fasting.py:75-80 | two durations render the same iff they agree to the minute |
| Fasting.MetricWindow | pages/Fasting.py:82-93 | `days` None: all fasts, no delta; k > 0: the last min(k, n) fasts by start, sorted, with a delta; 0: fails (the all-time mean the delta needs is never computed) |
| Fasting.WindowIsMostRecent | pages/Fasting.py:84 | the window is a suffix of the fasts sorted by start: none left out started later than one kept |
| Sorting.Filter | pages/Podcasts.py:39 | a boolean mask keeps exactly the elements satisfying the predicate, each as often as in the input |
| Podcasts.ClockRoundTrip | pages/Podcasts.py:38 | `to_timedelta` reads an `H:MM:SS` rendering back as its seconds |
| Podcasts.PaddedMinutesSeconds | pages/Podcasts.py:37-38 | a five-character `MM:SS` duration is padded with `00:` and read as minutes and seconds |
| Podcasts.MinutesSecondsNeedPadding | pages/Podcasts.py:37-38 | without the padding an `MM:SS` duration would not parse |
| Podcasts.ParseDurations | pages/Podcasts.py:38 | succeeds iff every seen duration parses (else fails on a bad duration); one listen per episode, in order, with its parsed seconds |
| Podcasts.RightJoin | pages/Podcasts.py:41-47 | the right join has at least one row per episode |
| Podcasts.JoinRowsFromEpisodes | pages/Podcasts.py:41-47 | every joined row is an episode with no podcast (when no podcast has its id) or with a podcast of its id |
| Podcasts.JoinKeepsEveryEpisode | pages/Podcasts.py:41-47 | every episode, matched or not, has a joined row |
| Podcasts.JoinUniqueIds | pages/Podcasts.py:41-47 | with one podcast per id, the join is one row per episode, in order, carrying the podcast's name or none |
| Podcasts.LoadPodcastFrame | pages/Podcasts.py:23-53 | succeeds iff every seen episode's duration parses; the rows are ordered by playback, latest first; every row is from 2018 on and shows a seen episode with a podcast of its id, or none when no podcast has that id; every seen episode from 2018 on is shown; the rows are a permutation of the right join of the seen episodes from 2018 on |
| Podcasts.LoadRowPerEpisode | pages/Podcasts.py:41-52 | with one podcast per id, the frame has exactly one row per seen episode from 2018 on |
| Calendar.YearBoundaries | pages/Podcasts.py:39 | 2017-12-31 falls in 2017, and 2018-01-01 and 2018-12-31 in 2018, under the day-to-year conversion |
| Podcasts.FirstYearCutOff | pages/Podcasts.py:35-39 | the 2018 filter keeps a play at midnight on 2018-01-01 and drops one a millisecond earlier |
| Sorting.Dedup | pages/Podcasts.py:74 | `drop_duplicates()`: no duplicates, and the same members |
| Podcasts.Years | pages/Podcasts.py:71-77 | the year tabs are strictly decreasing, and are exactly the years with a play |
| Podcasts.YearHours | pages/Podcasts.py:82-86 | the year total is the seconds of that year in whole hours, truncated |
| Podcasts.YearDelta | pages/Podcasts.py:82-96 | the delta lies within one hour of the exact difference between the two years' totals |
| Podcasts.YearSecondsOtherYear | pages/Podcasts.py:82-86 | a play in another year does not change a year's total |
| Podcasts.PodcastsIn | pages/Podcasts.py:99-103 | the groupby keys: each podcast played that year, once; plays without a podcast are not grouped |
| Podcasts.Totals | pages/Podcasts.py:101-103 | one total per podcast of the year, each equal to that podcast's seconds that year |
| Podcasts.RankedTotals | pages/Podcasts.py:103-105 | the ranking is by total, largest first, in seconds and in whole hours, each podcast once |
| Podcasts.TopTen | pages/Podcasts.py:99-108 | min(10, #podcasts) lines; each a podcast of the year with its truncated hours; hours non-increasing; names distinct; any podcast left out was listened to no more than any podcast shown |
| Podcasts.LeftOutListenedLess | pages/Podcasts.py:99-108 | a podcast missing from the top was listened to no more than any podcast in it |

## Left out

- The SQL text, the database connection and `to_sql` are not modelled. The table is an in-memory sequence of rows, and `today` and the provider are parameters.
- The time zone conversions to Europe/Paris and DST are not modelled. Instants are naive UTC milliseconds or seconds.
- The database's key column type is not part of this model. It is a table attribute with three choices: a date, a timestamp, or an ISO text.
- Storage.Latest: NULL dates are placed last in descending order, as in CockroachDB; other databases order NULLs differently.
- The provider payload is reduced to "field absent, null, or an integer". Float fields and string fields are read as integers.
- Normalise.NormaliseDaily: `pd.to_datetime(date).dt.date` is taken to return the day ordinal unchanged. A date string that does not parse is not modelled.
- Normalise.NormaliseSleep: record cells are numbers here, so the calendar date is a number, and `to_datetime(unit='ms')` reads it as milliseconds since 1970. The key keeps that number, and a timestamp-keyed table sees it as an instant on 1970-01-01 (Collectors.SleepDateIsMilliseconds). The provider's ISO date text, on which `to_datetime(unit='ms')` raises, cannot be represented in a record, so that failure is not modelled.
- Provider errors are not modelled. The provider is a total function, so an authentication or network error is not modelled. In the source such an error propagates out of `collect_data` before `to_sql`, and nothing is written.
- Sorting.SortBy: pandas' default sort is not stable. The model uses a stable insertion sort, which is one of the orders pandas may return.
- Frames.SnakeCase: only ASCII upper-case letters are recognised. Unicode case mapping is not modelled.
- Podcasts.ParseClock: `to_timedelta` is reduced to three colon-separated digit fields. Fractional seconds, signs, day prefixes and out-of-range minutes are not modelled.
- Podcasts.ParseDurations: `to_timedelta` turns an empty duration or a `NaT`/`nan` text into NaT without raising. The model instead fails the load with a bad duration, so episodes with such durations, and the NaT handling of the sums after them, are not modelled.
- Podcasts.YearHours: the source sums float hours and then truncates. The model truncates the exact total of integer seconds, so float rounding is not modelled.
- The episode's `duration != -1` test compares text with text, following SQLite's affinity rules.
- Fasting.MetricWindow: the means, `round()` and the delta value itself are float arithmetic and are not modelled. Only the window and whether a delta is shown are modelled.
- Fasting.FormatTimedelta: only whole seconds in [0, 86400) are modelled. Negative inputs and inputs of a day or more depend on Python's `timedelta` text and are not modelled.
- The Fasting page's merges with stress and heart rate, and `time_since_breakfast`, are not modelled: they are float hours over time-zone joins.
- The Streamlit and Altair rendering, the Google Drive download, the zip extraction and the Garmin login are not modelled: they are UI and I/O.

## Findings

| source | as written | input that shows it | evidently intended | confidence | as-written member | corrected member |
|---|---|---|---|---|---|---|
| prefect-flows/garmin-flow.py:90 | the hydration flow's up-to-date branch logs `Stress data: already up to date!` | a hydration table whose latest date is yesterday | `Hydration data: already up to date!`, as the added-days branch at line 88 names hydration | high (not executed) | PrefectFlow.HydrationLogsStressMessage | PrefectFlow.FlowLogsDistinct |
