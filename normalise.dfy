/**
 * The per-series `collect_data` transforms: what each collector asks the
 * provider for, and how it turns the payloads into the rows it appends.
 */
module Normalise {
  import opened Results
  import opened Sorting
  import opened Frames

  /** A `[timestamp, value]` pair of the provider's intraday arrays. */
  datatype Sample = Sample(ms: int, value: Option<int>)

  /** What the provider answers for one day, one field per endpoint the collectors call. */
  datatype DayData = DayData(
    stats: Record,            // get_stats
    steps: seq<Record>,       // get_steps_data
    heartRates: seq<Sample>,  // get_heart_rates(...)['heartRateValues']
    stress: seq<Sample>,      // get_stress_data(...)['stressValuesArray']
    hydration: Record,        // get_hydration_data
    sleep: Record)            // get_sleep_data(...)['dailySleepDTO']

  /** The provider, one call per day ordinal. */
  type Provider = int -> DayData

  datatype Series = Stats | Steps | HeartRate | Stress | Hydration | Sleep

  /** The stats columns kept, calendar date first. */
  const StatsFields: seq<string> := ["calendarDate"] + StatsValueFields

  const StatsValueFields: seq<string> := [
    "totalKilocalories", "activeKilocalories", "bmrKilocalories",
    "totalSteps", "totalDistanceMeters",
    "highlyActiveSeconds", "activeSeconds", "sedentarySeconds", "sleepingSeconds",
    "moderateIntensityMinutes", "vigorousIntensityMinutes",
    "floorsAscendedInMeters", "floorsDescendedInMeters",
    "minHeartRate", "maxHeartRate", "restingHeartRate", "lastSevenDaysAvgRestingHeartRate",
    "averageStressLevel", "maxStressLevel", "stressDuration", "restStressDuration", "activityStressDuration",
    "uncategorizedStressDuration", "totalStressDuration", "lowStressDuration", "mediumStressDuration", "highStressDuration",
    "measurableAwakeDuration", "measurableAsleepDuration",
    "bodyBatteryChargedValue", "bodyBatteryDrainedValue", "bodyBatteryHighestValue", "bodyBatteryLowestValue",
    "averageSpo2", "lowestSpo2",
    "avgWakingRespirationValue", "highestRespirationValue"
  ]

  const StepsFields: seq<string> := ["startGMT", "steps", "primaryActivityLevel"]
  const StepsColumns: seq<string> := ["date", "steps", "activity_level"]

  const HydrationFields: seq<string> := ["calendarDate", "valueInML", "goalInML", "sweatLossInML"]
  const HydrationColumns: seq<string> := ["date", "value_in_ml", "goal_in_ml", "sweat_loss_in_ml"]

  const SleepFields: seq<string> := [
    "calendarDate", "sleepStartTimestampGMT", "sleepEndTimestampGMT", "sleepTimeSeconds",
    "deepSleepSeconds", "lightSleepSeconds", "remSleepSeconds", "awakeSleepSeconds",
    "averageSpO2Value", "lowestSpO2Value", "highestSpO2Value", "averageSpO2HRSleep",
    "averageRespirationValue", "lowestRespirationValue", "highestRespirationValue",
    "awakeCount", "avgSleepStress"
  ]
  const SleepColumns: seq<string> := [
    "date", "sleep_start", "sleep_end", "sleep_time_seconds",
    "deep_sleep_seconds", "light_sleep_seconds", "rem_sleep_seconds", "awake_sleep_seconds",
    "average_spo2", "lowest_spo2", "highest_spo2", "average_hr_sleep",
    "average_respiration", "lowest_respiration", "highest_respiration",
    "awake_count", "avg_sleep_stress"
  ]

  /** Missing value sentinels: 0 for daily stats, -1 for heart rate. */
  const StatsSentinel: int := 0
  const HeartRateSentinel: int := -1

  function Flatten<T>(xss: seq<seq<T>>): (r: seq<T>)
  {
    if xss == [] then [] else xss[0] + Flatten(xss[1..])
  }

  // ---------------------------------------------------------------------
  // Stats

  /** The row one daily record becomes: its calendar date, then every other field with the sentinel for a missing value. */
  function DailyRow(r: Record, fields: seq<string>, sentinel: int): Row
    requires |fields| >= 1
  {
    Row(Cell(r, fields[0]), seq(|fields| - 1, j requires 0 <= j < |fields| - 1 => Fill(Cell(r, fields[j + 1]), sentinel)))
  }

  /** One row per record, in record order, before sorting. */
  function DailyRows(records: seq<Record>, fields: seq<string>, sentinel: int): (rows: seq<Row>)
    requires |fields| >= 1
    ensures |rows| == |records|
    ensures forall i :: 0 <= i < |records| ==> rows[i] == DailyRow(records[i], fields, sentinel)
  {
    seq(|records|, i requires 0 <= i < |records| => DailyRow(records[i], fields, sentinel))
  }

  /** The column names after the rename of `calendarDate` to `date` and the snake_case step. */
  function SnakeColumns(fields: seq<string>): (cols: seq<string>)
    requires |fields| >= 1 && fields[0] == "calendarDate"
    ensures |cols| == |fields| && cols[0] == "date"
  {
    SnakeCaseOfDate();
    seq(|fields|, k requires 0 <= k < |fields| => SnakeCase(if fields[k] == "calendarDate" then "date" else fields[k]))
  }

  /**
   * `StatsCollector.collect_data` after the provider calls, for a field list
   * whose head is the calendar date: select, rename, snake_case, fill, cast
   * to int, sort by date.
   */
  function NormaliseDaily(records: seq<Record>, fields: seq<string>, sentinel: int): (r: Result<Frame>)
    requires |fields| >= 1 && fields[0] == "calendarDate"
    ensures r.Success? <==> forall c :: c in fields ==> Present(records, c)
    ensures r.Success? ==>
      && r.value.columns == SnakeColumns(fields)
      && Shaped(r.value)
      && |r.value.rows| == |records|
      && SortedBy(r.value.rows, RowKey)
      && multiset(r.value.rows) == multiset(DailyRows(records, fields, sentinel))
      && forall i, j :: 0 <= i < |r.value.rows| && 0 <= j < |r.value.rows[i].values| ==> r.value.rows[i].values[j].Some?
  {
    var selected := Select(records, fields);
    if selected.Failure? then Failure(selected.error)
    else
      var filled := FillValues(SnakeCaseColumns(RenameColumn(selected.value, "calendarDate", "date")), sentinel);
      DailyNormalised(records, fields, sentinel, selected.value, filled);
      // after the fill every cell holds a number, so the cast cannot fail
      assert CastColumns(filled, AllValueColumns(filled)) == Success(filled);
      DailySorted(filled);
      Success(SortRows(filled))
  }

  lemma DailySorted(filled: Frame)
    requires Shaped(filled)
    requires forall i, j :: 0 <= i < |filled.rows| && 0 <= j < |filled.rows[i].values| ==> filled.rows[i].values[j].Some?
    ensures Shaped(SortRows(filled))
    ensures forall i, j :: 0 <= i < |SortRows(filled).rows| && 0 <= j < |SortRows(filled).rows[i].values| ==> SortRows(filled).rows[i].values[j].Some?
  {
    var sorted := SortRows(filled);
    ShapedSorted(filled);
    forall i, j | 0 <= i < |sorted.rows| && 0 <= j < |sorted.rows[i].values|
      ensures sorted.rows[i].values[j].Some?
    {
      InMultiset(sorted.rows, filled.rows, i);
    }
  }

  lemma DailyNormalised(records: seq<Record>, fields: seq<string>, sentinel: int, selected: Frame, filled: Frame)
    requires |fields| >= 1 && fields[0] == "calendarDate"
    requires Select(records, fields) == Success(selected)
    requires filled == FillValues(SnakeCaseColumns(RenameColumn(selected, "calendarDate", "date")), sentinel)
    ensures filled.columns == SnakeColumns(fields) && Shaped(filled)
    ensures filled.rows == DailyRows(records, fields, sentinel)
    ensures forall i, j :: 0 <= i < |filled.rows| && 0 <= j < |filled.rows[i].values| ==> filled.rows[i].values[j].Some?
  {
    var snake := SnakeCaseColumns(RenameColumn(selected, "calendarDate", "date"));
    assert snake.rows == selected.rows;
    assert filled.columns == SnakeColumns(fields);
    DailyFilledRows(records, fields, sentinel, selected, filled);
  }

  lemma DailyFilledRows(records: seq<Record>, fields: seq<string>, sentinel: int, selected: Frame, filled: Frame)
    requires |fields| >= 1
    requires |selected.rows| == |records|
    requires forall i :: 0 <= i < |records| ==> selected.rows[i] == RowOf(records[i], fields)
    requires filled == FillValues(Frame(filled.columns, selected.rows), sentinel)
    ensures filled.rows == DailyRows(records, fields, sentinel)
  {
    var want := DailyRows(records, fields, sentinel);
    forall i | 0 <= i < |records|
      ensures filled.rows[i] == want[i]
    {
      var row := filled.rows[i];
      assert |row.values| == |want[i].values|;
      forall j | 0 <= j < |row.values|
        ensures row.values[j] == want[i].values[j]
      {
        assert row.values[j] == Fill(selected.rows[i].values[j], sentinel);
      }
    }
  }

  // ---------------------------------------------------------------------
  // Intraday arrays: heart rate and stress

  /** `pd.DataFrame(samples, columns=['date', name])`. */
  function SampleFrame(samples: seq<Sample>, name: string): (f: Frame)
    ensures Shaped(f) && |f.rows| == |samples|
  {
    Frame(["date", name], seq(|samples|, i requires 0 <= i < |samples| => Row(Some(samples[i].ms), [samples[i].value])))
  }

  /** The row one heart-rate sample becomes: a missing reading is -1. */
  function HeartRateRow(s: Sample): Row {
    Row(Some(s.ms), [Fill(s.value, HeartRateSentinel)])
  }

  /** `HeartRateCollector.collect_data`: fill a missing `hr` with -1, cast to int, sort by timestamp. */
  function NormaliseHeartRate(samples: seq<Sample>): (f: Frame)
    ensures f.columns == ["date", "hr"] && Shaped(f)
    ensures SortedBy(f.rows, RowKey)
    ensures multiset(f.rows) == multiset(seq(|samples|, i requires 0 <= i < |samples| => HeartRateRow(samples[i])))
    ensures forall i :: 0 <= i < |f.rows| ==> f.rows[i].values[0].Some?
  {
    var framed := SampleFrame(samples, "hr");
    var filled := FillValues(framed, HeartRateSentinel);
    var want := seq(|samples|, i requires 0 <= i < |samples| => HeartRateRow(samples[i]));
    forall i | 0 <= i < |samples|
      ensures filled.rows[i] == want[i]
    {
      assert |filled.rows[i].values| == 1;
    }
    assert filled.rows == want;
    var cast := CastColumns(filled, [0]);
    assert cast == Success(filled) by {
      assert !HasMissing(filled, 0);
    }
    ShapedSorted(filled);
    var sorted := SortRows(filled);
    forall i | 0 <= i < |sorted.rows|
      ensures sorted.rows[i].values[0].Some?
    {
      InMultiset(sorted.rows, filled.rows, i);
    }
    sorted
  }

  function StressRow(s: Sample): Row {
    Row(Some(s.ms), [s.value])
  }

  /** `StressCollector.collect_data`: cast `stress` to int with no fill (fails on a missing value), sort by timestamp. */
  function NormaliseStress(samples: seq<Sample>): (r: Result<Frame>)
    ensures r.Success? <==> forall i :: 0 <= i < |samples| ==> samples[i].value.Some?
    ensures r.Success? ==>
      && r.value.columns == ["date", "stress"] && Shaped(r.value)
      && SortedBy(r.value.rows, RowKey)
      && multiset(r.value.rows) == multiset(seq(|samples|, i requires 0 <= i < |samples| => StressRow(samples[i])))
  {
    var framed := SampleFrame(samples, "stress");
    assert framed.rows == seq(|samples|, i requires 0 <= i < |samples| => StressRow(samples[i]));
    assert HasMissing(framed, 0) <==> exists i :: 0 <= i < |samples| && samples[i].value.None? by {
      if HasMissing(framed, 0) {
        var i :| 0 <= i < |framed.rows| && 0 < |framed.rows[i].values| && framed.rows[i].values[0].None?;
        assert samples[i].value.None?;
      }
      if exists i :: 0 <= i < |samples| && samples[i].value.None? {
        var i :| 0 <= i < |samples| && samples[i].value.None?;
        assert framed.rows[i].values[0].None?;
      }
    }
    var cast :- CastColumns(framed, [0]);
    ShapedSorted(cast);
    Success(SortRows(cast))
  }

  // ---------------------------------------------------------------------
  // Steps, hydration, sleep

  /**
   * `StepsCollector.collect_data`: select and rename three columns, cast
   * `steps` to int (a missing count fails there, so the `fillna(0)` that
   * follows never fills anything), sort by start time.
   */
  function NormaliseSteps(records: seq<Record>): (r: Result<Frame>)
    ensures r.Success? <==>
      (forall c :: c in StepsFields ==> Present(records, c)) &&
      forall i :: 0 <= i < |records| ==> Cell(records[i], "steps").Some?
    ensures r.Success? ==>
      && r.value.columns == StepsColumns && Shaped(r.value) && |r.value.rows| == |records|
      && SortedBy(r.value.rows, RowKey)
      && multiset(r.value.rows) == multiset(seq(|records|, i requires 0 <= i < |records| => RowOf(records[i], StepsFields)))
  {
    var selected :- Select(records, StepsFields);
    var renamed := SetColumns(selected, StepsColumns);
    assert HasMissing(renamed, 0) <==> exists i :: 0 <= i < |records| && Cell(records[i], "steps").None? by {
      if HasMissing(renamed, 0) {
        var i :| 0 <= i < |renamed.rows| && 0 < |renamed.rows[i].values| && renamed.rows[i].values[0].None?;
        assert Cell(records[i], StepsFields[1]).None?;
      }
      if exists i :: 0 <= i < |records| && Cell(records[i], "steps").None? {
        var i :| 0 <= i < |records| && Cell(records[i], "steps").None?;
        assert renamed.rows[i].values[0].None?;
      }
    }
    var cast :- CastColumns(renamed, [0]);
    assert cast.rows == seq(|records|, i requires 0 <= i < |records| => RowOf(records[i], StepsFields));
    ShapedSorted(cast);
    Success(SortRows(cast))
  }

  /** `HydrationCollector.collect_data`: four fields kept and renamed in order; no cast, no fill, no sort. */
  function NormaliseHydration(records: seq<Record>): (r: Result<Frame>)
    ensures r.Success? <==> forall c :: c in HydrationFields ==> Present(records, c)
    ensures r.Success? ==>
      && r.value.columns == HydrationColumns && Shaped(r.value)
      && r.value.rows == seq(|records|, i requires 0 <= i < |records| => RowOf(records[i], HydrationFields))
  {
    var selected :- Select(records, HydrationFields);
    Success(SetColumns(selected, HydrationColumns))
  }

  /**
   * `SleepCollector.collect_data`: seventeen fields kept and renamed in
   * order; no cast, no fill, no sort. The date is then read with
   * `to_datetime(unit='ms')`, which keeps the number and makes it an
   * instant in milliseconds: the key is the record's number, unchanged.
   */
  function NormaliseSleep(records: seq<Record>): (r: Result<Frame>)
    ensures r.Success? <==> forall c :: c in SleepFields ==> Present(records, c)
    ensures r.Success? ==>
      && r.value.columns == SleepColumns && Shaped(r.value)
      && r.value.rows == seq(|records|, i requires 0 <= i < |records| => RowOf(records[i], SleepFields))
  {
    var selected :- Select(records, SleepFields);
    Success(SetColumns(selected, SleepColumns))
  }

  // ---------------------------------------------------------------------
  // Provider calls

  function StatsRecords(api: Provider, days: seq<int>): (rs: seq<Record>)
    ensures |rs| == |days|
  {
    seq(|days|, i requires 0 <= i < |days| => api(days[i]).stats)
  }

  /** `collect_data` of each series: one provider call per missing day, then the series' transform. */
  function Collect(series: Series, api: Provider, days: seq<int>): Result<Frame>
  {
    match series
    case Stats => NormaliseDaily(StatsRecords(api, days), StatsFields, StatsSentinel)
    case Steps => NormaliseSteps(Flatten(seq(|days|, i requires 0 <= i < |days| => api(days[i]).steps)))
    case HeartRate => Success(NormaliseHeartRate(Flatten(seq(|days|, i requires 0 <= i < |days| => api(days[i]).heartRates))))
    case Stress => NormaliseStress(Flatten(seq(|days|, i requires 0 <= i < |days| => api(days[i]).stress)))
    case Hydration => NormaliseHydration(seq(|days|, i requires 0 <= i < |days| => api(days[i]).hydration))
    case Sleep => NormaliseSleep(seq(|days|, i requires 0 <= i < |days| => api(days[i]).sleep))
  }

  /** A heart-rate sample without a reading is stored as -1, while a stats field without a value is stored as 0. */
  lemma SentinelsPerSeries(s: Sample, r: Record, c: string)
    requires s.value.None? && c in StatsFields[1..] && c !in r
    ensures HeartRateRow(s).values == [Some(-1)]
    ensures exists j ::
      && 0 <= j < |DailyRow(r, StatsFields, StatsSentinel).values|
      && StatsFields[j + 1] == c
      && DailyRow(r, StatsFields, StatsSentinel).values[j] == Some(0)
  {
    var j := MissingFieldFilled(r, StatsFields, StatsSentinel, c);
  }

  /** A field missing from a daily record holds the sentinel in that field's column of the record's row. */
  lemma MissingFieldFilled(r: Record, fields: seq<string>, sentinel: int, c: string) returns (j: nat)
    requires |fields| >= 1 && c in fields[1..] && c !in r
    ensures j < |DailyRow(r, fields, sentinel).values| && fields[j + 1] == c
    ensures DailyRow(r, fields, sentinel).values[j] == Some(sentinel)
  {
    j :| 0 <= j < |fields[1..]| && fields[1..][j] == c;
    assert fields[j + 1] == c;
  }

  /** A step record without a step count makes the whole steps collection fail instead of storing 0. */
  lemma StepsHaveNoSentinel(records: seq<Record>, i: nat)
    requires i < |records| && Cell(records[i], "steps").None?
    ensures NormaliseSteps(records).Failure?
  {
  }
}
