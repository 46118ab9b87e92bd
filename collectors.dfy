/**
 * The incremental backfill of `GarminCollector`: read the watermark of a
 * table, list the missing days up to three days before today, fetch and
 * normalise them, and append them in one write.
 */
module Collectors {
  import opened Results
  import opened Frames
  import opened Normalise
  import opened Storage
  import opened Calendar
  import opened Sorting
  import Text

  /** Days before today that the provider may not have finalised yet. */
  const SafetyLag: int := 3

  /** What a run reports: nothing to do, or the number of days added. */
  datatype Report = UpToDate | Added(days: nat)

  /**
   * The watermark of `create_list_missing_dates`: the epoch for an empty
   * table or a NULL date, the calendar date of a timestamp, clamped up to
   * the epoch; a text date has no `.date()` and raises.
   */
  function Watermark(latest: Option<Stored>): (r: Result<int>)
    ensures r.Failure? <==> latest.Some? && latest.value.TextValue?
    ensures r.Success? ==> r.value >= Epoch
    ensures r.Success? && (latest.None? || latest.value.Null?) ==> r.value == Epoch
    ensures r.Success? && latest.Some? && !latest.value.Null? ==>
      var day := StoredDay(latest.value).value;
      day <= r.value && (r.value == day || r.value == Epoch)
  {
    match latest
    case None => Success(Epoch)
    case Some(Null) => Success(Epoch)
    case Some(TextValue(_)) => Failure(NoDateMethod)
    case Some(v) =>
      var day := StoredDay(v).value;
      Success(if day < Epoch then Epoch else day)
  }

  /** `pd.date_range(start=watermark + 1 day, end=lastDay, freq='d')`. */
  function MissingDates(watermark: int, lastDay: int): (r: seq<int>)
    ensures |r| == if lastDay > watermark then lastDay - watermark else 0
    ensures forall d :: d in r <==> watermark < d <= lastDay
    ensures forall i :: 0 < i < |r| ==> r[i] == r[i - 1] + 1
    ensures r != [] ==> r[0] == watermark + 1 && r[|r| - 1] == lastDay
  {
    var n := if lastDay > watermark then lastDay - watermark else 0;
    var r := seq(n, i requires 0 <= i < n => watermark + 1 + i);
    RangeMembers(watermark, n, r);
    r
  }

  lemma RangeMembers(watermark: int, n: nat, r: seq<int>)
    requires |r| == n && forall i :: 0 <= i < n ==> r[i] == watermark + 1 + i
    ensures forall d :: d in r <==> watermark < d <= watermark + n
  {
    forall d | watermark < d <= watermark + n
      ensures d in r
    {
      assert r[d - watermark - 1] == d;
    }
  }

  /** `create_list_missing_dates` against `today`. */
  function MissingDays(latest: Option<Stored>, today: int): Result<seq<int>> {
    var watermark :- Watermark(latest);
    Success(MissingDates(watermark, today - SafetyLag))
  }

  /** `insert_new_data` as a value: the report and the batch a run appends. */
  function Backfill(series: Series, api: Provider, latest: Option<Stored>, today: int): Result<(Report, seq<Row>)> {
    var missing :- MissingDays(latest, today);
    if missing == [] then Success((UpToDate, []))
    else
      var frame :- Collect(series, api, missing);
      Success((Added(|missing|), frame.rows))
  }

  /** The line `insert_new_data` prints: the table's name, then the outcome. */
  function Announcement(table: string, report: Report): (line: string)
    ensures |line| > |table| && line[..|table|] == table
  {
    match report
    case UpToDate => table + ": already up to date!"
    case Added(n) => table + ": " + Text.NatToString(n) + " new days added."
  }

  /** The printed line tells the outcome: an up-to-date run and each number of added days print different lines. */
  lemma AnnouncementDetermines(table: string, a: Report, b: Report)
    requires Announcement(table, a) == Announcement(table, b)
    ensures a == b
  {
    var la, lb := Announcement(table, a), Announcement(table, b);
    var k := |table| + 2;
    if a.Added? && b.Added? {
      var sa, sb := Text.NatToString(a.days), Text.NatToString(b.days);
      var tail := " new days added.";
      assert la == table + ": " + sa + tail && lb == table + ": " + sb + tail;
      assert |sa| == |sb|;
      assert la[k..k + |sa|] == sa && lb[k..k + |sb|] == sb;
      Text.NatToStringInjective(a.days, b.days);
    } else {
      OutcomeChar(table, a);
      OutcomeChar(table, b);
    }
  }

  /** The character after `<table>: ` is a digit exactly when days were added. */
  lemma OutcomeChar(table: string, report: Report)
    ensures |Announcement(table, report)| > |table| + 2
    ensures Text.IsDigit(Announcement(table, report)[|table| + 2]) <==> report.Added?
  {
    var line := Announcement(table, report);
    if report.Added? {
      var digits := Text.NatToString(report.days);
      assert line == table + ": " + digits + " new days added.";
      assert line[|table| + 2] == digits[0];
    } else {
      assert line[|table| + 2] == 'a';
    }
  }

  /**
   * A run is "already up to date" exactly when the watermark has reached
   * today minus the lag; then the provider is never asked (any provider
   * gives the same outcome) and nothing is appended.
   */
  lemma UpToDateIff(series: Series, api: Provider, other: Provider, latest: Option<Stored>, today: int)
    requires Watermark(latest).Success?
    ensures Backfill(series, api, latest, today) == Success((UpToDate, [])) <==> Watermark(latest).value >= today - SafetyLag
    ensures Watermark(latest).value >= today - SafetyLag ==> Backfill(series, api, latest, today) == Backfill(series, other, latest, today)
  {
    var w := Watermark(latest).value;
    var missing := MissingDates(w, today - SafetyLag);
    assert MissingDays(latest, today) == Success(missing);
    if w < today - SafetyLag {
      assert today - SafetyLag in missing;
      var c := Collect(series, api, missing);
      assert Backfill(series, api, latest, today) == if c.Failure? then Failure(c.error) else Success((Added(|missing|), c.value.rows));
    } else {
      assert missing == [];
    }
  }

  /**
   * A run that adds days reports the number of missing days, appends what
   * the series' transform made of them, and every added day lies after the
   * watermark and no later than today minus the lag.
   */
  lemma AddedRun(series: Series, api: Provider, latest: Option<Stored>, today: int, n: nat, batch: seq<Row>)
    requires Backfill(series, api, latest, today) == Success((Added(n), batch))
    ensures Watermark(latest).Success?
    ensures var w := Watermark(latest).value;
      && n == today - SafetyLag - w && n > 0
      && Collect(series, api, MissingDates(w, today - SafetyLag)) == Success(Frame(Collect(series, api, MissingDates(w, today - SafetyLag)).value.columns, batch))
  {
  }

  /** The stats table gains exactly one row per missing day. */
  lemma StatsRowPerDay(api: Provider, latest: Option<Stored>, today: int, n: nat, batch: seq<Row>)
    requires Backfill(Stats, api, latest, today) == Success((Added(n), batch))
    ensures |batch| == n
  {
    AddedRun(Stats, api, latest, today, n, batch);
  }

  /**
   * Idempotence: once the stored dates reach today minus the lag, a second
   * run with the same `today` adds nothing, whatever the provider says.
   */
  lemma {:induction false} SecondRunAddsNothing(series: Series, api: Provider, column: KeyColumn, rows: seq<Row>, batch: seq<Row>, i: nat, today: int)
    requires column != TextColumn
    requires i < |batch| && batch[i].key.Some?
    requires StoredDay(Typed(column, batch[i].key)).value >= today - SafetyLag
    ensures Backfill(series, api, PointOf(column, rows + batch), today) == Success((UpToDate, []))
  {
    LatestGrows(rows, batch, i);
    var top := Latest(rows + batch).value;
    var k := batch[i].key.value;
    if column == TimestampColumn {
      DayOfMonotone(k, top.value);
    }
    var w := Watermark(Some(Typed(column, top))).value;
    assert w >= today - SafetyLag;
    assert MissingDates(w, today - SafetyLag) == [];
  }

  /**
   * With a provider whose stats record for day d is dated d, a stats
   * backfill brings the table up to today minus the lag: the run right
   * after it adds nothing.
   */
  lemma StatsBackfillIdempotent(api: Provider, rows: seq<Row>, today: int, n: nat, batch: seq<Row>)
    requires forall d :: Cell(api(d).stats, "calendarDate") == Some(d)
    requires Backfill(Stats, api, PointOf(DateColumn, rows), today) == Success((Added(n), batch))
    ensures Backfill(Stats, api, PointOf(DateColumn, rows + batch), today) == Success((UpToDate, []))
  {
    var latest := PointOf(DateColumn, rows);
    AddedRun(Stats, api, latest, today, n, batch);
    var w := Watermark(latest).value;
    var days := MissingDates(w, today - SafetyLag);
    assert |days| == n && n > 0;
    var c := Collect(Stats, api, days);
    assert c.Success? && c.value.rows == batch;
    var i := StatsBatchHasDay(api, days, batch, |days| - 1);
    assert days[|days| - 1] == today - SafetyLag;
    assert StoredDay(Typed(DateColumn, batch[i].key)).value == today - SafetyLag;
    SecondRunAddsNothing(Stats, api, DateColumn, rows, batch, i, today);
  }

  /** Each requested day's stats row is in the batch, keyed by that day. */
  lemma StatsBatchHasDay(api: Provider, days: seq<int>, batch: seq<Row>, k: nat) returns (i: nat)
    requires forall d :: Cell(api(d).stats, "calendarDate") == Some(d)
    requires k < |days|
    requires Collect(Stats, api, days).Success? && Collect(Stats, api, days).value.rows == batch
    ensures i < |batch| && batch[i].key == Some(days[k])
  {
    var records := StatsRecords(api, days);
    var result := NormaliseDaily(records, StatsFields, StatsSentinel);
    assert Collect(Stats, api, days) == result;
    var expected := DailyRows(records, StatsFields, StatsSentinel);
    assert multiset(batch) == multiset(expected);
    var row := expected[k];
    assert row == DailyRow(records[k], StatsFields, StatsSentinel);
    assert records[k] == api(days[k]).stats;
    assert row.key == Cell(records[k], "calendarDate");
    var day: int := days[k];
    assert Cell(api(day).stats, "calendarDate") == Some(day);
    InMultiset(expected, batch, k);
    i :| 0 <= i < |batch| && batch[i] == row;
  }

  /** Scenario: an empty table, today 2022-08-30 and a three-day lag give the single day 2022-08-27. */
  lemma EmptyTableScenario()
    ensures MissingDays(None, DaysFromCivil(2022, 8, 30)) == Success([DaysFromCivil(2022, 8, 27)])
  {
    assert DaysFromCivil(2022, 8, 30) == Epoch + 4;
    assert MissingDates(Epoch, Epoch + 1) == [Epoch + 1];
  }

  /** A stored date before the epoch is clamped: the backfill starts the day after the epoch. */
  lemma PreEpochClamped(day: int, today: int)
    requires day < Epoch && today - SafetyLag > Epoch
    ensures MissingDays(Some(DateValue(day)), today).Success?
    ensures MissingDays(Some(DateValue(day)), today).value[0] == Epoch + 1
  {
  }

  /**
   * The sleep collector reads its date column with `to_datetime(unit='ms')`:
   * a day ordinal read as milliseconds is an instant on 1970-01-01, so in a
   * timestamp-keyed table such a key leaves the watermark at the epoch, and
   * every later run asks for the same days again.
   */
  lemma SleepDateIsMilliseconds(day: int, today: int)
    requires 0 <= day < DayMs
    ensures StoredDay(TimestampValue(day)) == Some(0)
    ensures Watermark(Some(TimestampValue(day))) == Success(Epoch)
    ensures MissingDays(Some(TimestampValue(day)), today) == MissingDays(None, today)
  {
    assert DayOf(day) == 0;
  }

  /** The collector object: its provider, its table and the series' transform. */
  class Collector {
    const series: Series
    const api: Provider
    const table: Table

    constructor (series: Series, api: Provider, table: Table)
      ensures this.series == series && this.api == api && this.table == table
    {
      this.series := series;
      this.api := api;
      this.table := table;
    }

    method CreateListMissingDates(today: int) returns (r: Result<seq<int>>)
      ensures r == MissingDays(table.LatestPoint(), today)
      ensures r.Success? ==> forall d :: d in r.value ==> Epoch < d <= today - SafetyLag
    {
      var watermark := Watermark(table.LatestPoint());
      if watermark.Failure? {
        return Failure(watermark.error);
      }
      r := Success(MissingDates(watermark.value, today - SafetyLag));
    }

    /**
     * `insert_new_data`: on an empty range nothing is fetched or written;
     * otherwise the normalised rows are appended in one write; a failing run
     * leaves the table as it was. A run that completes returns the report
     * and the line it prints.
     */
    method InsertNewData(today: int) returns (r: Result<(Report, string)>)
      modifies table
      ensures var b := Backfill(series, api, old(table.LatestPoint()), today);
        && (b.Failure? ==> r == Failure(b.error) && table.rows == old(table.rows))
        && (b.Success? ==> r == Success((b.value.0, Announcement(table.name, b.value.0))) && table.rows == old(table.rows) + b.value.1)
    {
      var missing := CreateListMissingDates(today);
      if missing.Failure? {
        return Failure(missing.error);
      }
      if missing.value == [] {
        return Success((UpToDate, Announcement(table.name, UpToDate)));
      }
      var frame := Collect(series, api, missing.value);
      if frame.Failure? {
        return Failure(frame.error);
      }
      table.Append(frame.value.rows);
      var report := Added(|missing.value|);
      r := Success((report, Announcement(table.name, report)));
    }
  }
}
