/**
 * The older Prefect flow: the same backfill for the stress and hydration
 * tables, with a one-day lag, a bare `except` around the date truncation,
 * no epoch clamp, and an empty table that makes the run fail.
 */
module PrefectFlow {
  import opened Results
  import opened Frames
  import opened Normalise
  import opened Storage
  import opened Calendar
  import opened Collectors

  /** The flow stops at the day before today. */
  const FlowLag: int := 1

  /**
   * `get_list_missing_dates`' watermark: a date as it is, a timestamp
   * truncated to its day; NULL and text have no `.date()`, and the bare
   * `except` turns that into the epoch. Nothing is clamped.
   */
  function FlowWatermark(value: Stored): (w: int)
    ensures value.DateValue? || value.TimestampValue? ==> w == StoredDay(value).value
    ensures value.Null? || value.TextValue? ==> w == Epoch
  {
    match value
    case DateValue(d) => d
    case TimestampValue(ms) => DayOf(ms)
    case _ => Epoch
  }

  /** `get_latest_data_point(conn, table)[0]` then `get_list_missing_dates`: indexing a missing row raises. */
  function FlowMissingDays(fetched: Option<Stored>, today: int): (r: Result<seq<int>>)
    ensures r.Failure? <==> fetched.None?
    ensures r.Success? ==> forall d :: d in r.value <==> FlowWatermark(fetched.value) < d <= today - FlowLag
  {
    match fetched
    case None => Failure(NoLatestRow)
    case Some(v) => Success(MissingDates(FlowWatermark(v), today - FlowLag))
  }

  /** `collect_stress_data` / `collect_hydration_data` as a value: the report and the appended batch. */
  function FlowBackfill(series: Series, api: Provider, fetched: Option<Stored>, today: int): Result<(Report, seq<Row>)>
    requires series == Stress || series == Hydration
  {
    var missing :- FlowMissingDays(fetched, today);
    if missing == [] then Success((UpToDate, []))
    else
      var frame :- Collect(series, api, missing);
      Success((Added(|missing|), frame.rows))
  }

  function Label(series: Series): string
    requires series == Stress || series == Hydration
  {
    if series == Stress then "Stress data" else "Hydration data"
  }

  /** The line each flow logs, with the hydration flow naming itself in both branches. */
  function FlowLog(series: Series, report: Report): (line: string)
    requires series == Stress || series == Hydration
    ensures |line| > |Label(series)| && line[..|Label(series)|] == Label(series)
  {
    Announcement(Label(series), report)
  }

  /** The line as the source logs it: the hydration flow's up-to-date branch reuses the stress text. */
  function FlowLogAsWritten(series: Series, report: Report): string
    requires series == Stress || series == Hydration
  {
    if series == Hydration && report == UpToDate then Announcement("Stress data", UpToDate)
    else FlowLog(series, report)
  }

  /** As written, an up-to-date hydration run cannot be told apart from an up-to-date stress run in the log. */
  lemma HydrationLogsStressMessage()
    ensures FlowLogAsWritten(Hydration, UpToDate) == FlowLog(Stress, UpToDate)
    ensures FlowLogAsWritten(Hydration, UpToDate) != FlowLog(Hydration, UpToDate)
  {
    assert FlowLogAsWritten(Hydration, UpToDate)[0] == 'S';
    assert FlowLog(Hydration, UpToDate)[0] == 'H';
  }

  /** Corrected: no stress log line equals any hydration log line. */
  lemma FlowLogsDistinct(a: Report, b: Report)
    ensures FlowLog(Stress, a) != FlowLog(Hydration, b)
  {
    assert FlowLog(Stress, a)[0] == 'S';
    assert FlowLog(Hydration, b)[0] == 'H';
  }

  /** On an empty table the flow fails before it computes any range. */
  lemma EmptyTableFails(series: Series, api: Provider, today: int)
    requires series == Stress || series == Hydration
    ensures FlowBackfill(series, api, None, today) == Failure(NoLatestRow)
  {
  }

  /** A stored date before the epoch is used as it is: the range starts before the epoch. */
  lemma PreEpochNotClamped(day: int, today: int)
    requires day < Epoch && day < today - FlowLag
    ensures FlowMissingDays(Some(DateValue(day)), today).Success?
    ensures day + 1 in FlowMissingDays(Some(DateValue(day)), today).value
    ensures day + 1 <= Epoch
  {
  }

  /**
   * A text date hides the watermark: every run starts again from the day
   * after the epoch, so a day already stored is requested and appended again.
   */
  lemma TextKeyRefetches(day: int, today: int)
    requires Epoch < day <= today - FlowLag
    ensures FlowMissingDays(Some(TextValue(day)), today).Success?
    ensures day in FlowMissingDays(Some(TextValue(day)), today).value
    ensures FlowMissingDays(Some(TextValue(day)), today).value[0] == Epoch + 1
  {
  }

  /** Scenario: stored 2023-01-10, today 2023-01-10, one-day lag: nothing is missing. */
  lemma UpToDateScenario()
    ensures FlowMissingDays(Some(DateValue(DaysFromCivil(2023, 1, 10))), DaysFromCivil(2023, 1, 10)) == Success([])
  {
  }

  /** The flow is up to date exactly when the watermark has reached the day before today; then the provider is not asked. */
  lemma FlowUpToDateIff(series: Series, api: Provider, other: Provider, value: Stored, today: int)
    requires series == Stress || series == Hydration
    ensures FlowBackfill(series, api, Some(value), today) == Success((UpToDate, [])) <==> FlowWatermark(value) >= today - FlowLag
    ensures FlowWatermark(value) >= today - FlowLag ==> FlowBackfill(series, api, Some(value), today) == FlowBackfill(series, other, Some(value), today)
  {
    var w := FlowWatermark(value);
    var missing := MissingDates(w, today - FlowLag);
    assert FlowMissingDays(Some(value), today) == Success(missing);
    if w < today - FlowLag {
      assert today - FlowLag in missing;
      var c := Collect(series, api, missing);
      assert FlowBackfill(series, api, Some(value), today) == if c.Failure? then Failure(c.error) else Success((Added(|missing|), c.value.rows));
    } else {
      assert missing == [];
    }
  }

  /**
   * One flow run: append the batch when there is one, and return the line
   * the flow logs, as the source writes it.
   */
  method RunFlow(series: Series, api: Provider, table: Table, today: int) returns (r: Result<string>)
    requires series == Stress || series == Hydration
    modifies table
    ensures var b := FlowBackfill(series, api, old(table.LatestPoint()), today);
      && (b.Failure? ==> r == Failure(b.error) && table.rows == old(table.rows))
      && (b.Success? ==> r == Success(FlowLogAsWritten(series, b.value.0)) && table.rows == old(table.rows) + b.value.1)
  {
    var missing := FlowMissingDays(table.LatestPoint(), today);
    if missing.Failure? {
      return Failure(missing.error);
    }
    if missing.value == [] {
      return Success(FlowLogAsWritten(series, UpToDate));
    }
    var frame := Collect(series, api, missing.value);
    if frame.Failure? {
      return Failure(frame.error);
    }
    table.Append(frame.value.rows);
    r := Success(FlowLogAsWritten(series, Added(|missing.value|)));
  }

  /** `collect_stress_data`: stress rows cast to int and sorted by timestamp, appended once. */
  method CollectStressData(api: Provider, table: Table, today: int) returns (r: Result<string>)
    modifies table
    ensures var b := FlowBackfill(Stress, api, old(table.LatestPoint()), today);
      && (b.Failure? ==> r == Failure(b.error) && table.rows == old(table.rows))
      && (b.Success? ==> r == Success(FlowLog(Stress, b.value.0)) && table.rows == old(table.rows) + b.value.1)
  {
    r := RunFlow(Stress, api, table, today);
  }

  /**
   * `collect_hydration_data`: the four hydration columns, appended once. An
   * up-to-date run logs the stress flow's line; any other run logs its own.
   */
  method CollectHydrationData(api: Provider, table: Table, today: int) returns (r: Result<string>)
    modifies table
    ensures var b := FlowBackfill(Hydration, api, old(table.LatestPoint()), today);
      && (b.Failure? ==> r == Failure(b.error) && table.rows == old(table.rows))
      && (b == Success((UpToDate, [])) ==> r == Success(FlowLog(Stress, UpToDate)) && table.rows == old(table.rows))
      && (b.Success? && b.value.0.Added? ==> r == Success(FlowLog(Hydration, b.value.0)) && table.rows == old(table.rows) + b.value.1)
  {
    r := RunFlow(Hydration, api, table, today);
    HydrationLogsStressMessage();
  }

  /** The stress batch of a flow run is sorted by timestamp and holds only integers. */
  lemma StressBatchSorted(api: Provider, fetched: Option<Stored>, today: int, n: nat, batch: seq<Row>)
    requires FlowBackfill(Stress, api, fetched, today) == Success((Added(n), batch))
    ensures Sorting.SortedBy(batch, RowKey)
    ensures forall i :: 0 <= i < |batch| ==> |batch[i].values| == 1 && batch[i].values[0].Some?
  {
    var days := FlowMissingDays(fetched, today).value;
    var samples := Flatten(seq(|days|, i requires 0 <= i < |days| => api(days[i]).stress));
    var f := NormaliseStress(samples).value;
    assert batch == f.rows;
    var want := seq(|samples|, i requires 0 <= i < |samples| => StressRow(samples[i]));
    forall i | 0 <= i < |batch|
      ensures |batch[i].values| == 1 && batch[i].values[0].Some?
    {
      Sorting.InMultiset(batch, want, i);
    }
  }
}
