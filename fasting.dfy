/**
 * The arithmetic of the Fasting page: fast start and end instants, the
 * fast duration taken modulo one day, the dropped unfinished fast, the
 * `"<H>h <MM>min"` rendering and the window a metric averages over.
 * Instants are whole seconds, with no time zone.
 */
module Fasting {
  import opened Results
  import opened Sorting
  import opened Text
  import Calendar

  type SecondOfDay = s: int | 0 <= s < 86400

  /** One line of the export: the calendar day, and the start and end times of day. */
  datatype Fast = Fast(date: int, start: SecondOfDay, end: SecondOfDay)

  /** One loaded fast: its start and end instants and its duration in seconds. */
  datatype FastRow = FastRow(startAt: int, endAt: int, durationSec: int)

  /** The fast starts at its start time on its date. */
  function StartInstant(f: Fast): int {
    f.date * Calendar.DaySeconds + f.start
  }

  /** The fast ends at its end time on the day after its date. */
  function EndInstant(f: Fast): (t: int)
    ensures t - StartInstant(f) == Calendar.DaySeconds + f.end - f.start
  {
    (f.date + 1) * Calendar.DaySeconds + f.end
  }

  /**
   * `(End - Start).dt.seconds`: the seconds component of the difference, so
   * the end time of day minus the start time of day, modulo one day.
   */
  function FastDurationSec(f: Fast): (r: int)
    ensures 0 <= r < Calendar.DaySeconds
    ensures r == (f.end - f.start) % Calendar.DaySeconds
    ensures f.start <= f.end ==> r == f.end - f.start
    ensures f.end < f.start ==> r == Calendar.DaySeconds + f.end - f.start
  {
    (EndInstant(f) - StartInstant(f)) % Calendar.DaySeconds
  }

  /**
   * A fast whose end time of day is not before its start time of day lasts
   * a day or more, and its duration wraps around to the part beyond whole
   * days; any other fast is measured exactly.
   */
  lemma DurationWraps(f: Fast)
    ensures f.start <= f.end ==>
      EndInstant(f) - StartInstant(f) >= Calendar.DaySeconds &&
      FastDurationSec(f) == EndInstant(f) - StartInstant(f) - Calendar.DaySeconds
    ensures f.end < f.start ==> FastDurationSec(f) == EndInstant(f) - StartInstant(f)
  {
  }

  function ToRow(f: Fast): FastRow {
    FastRow(StartInstant(f), EndInstant(f), FastDurationSec(f))
  }

  function StartKey(r: FastRow): Option<int> {
    Some(r.startAt)
  }

  /** Every fast of the export converted, in export order. */
  function Converted(fasts: seq<Fast>): (rows: seq<FastRow>)
    ensures |rows| == |fasts|
    ensures forall i :: 0 <= i < |fasts| ==> rows[i] == ToRow(fasts[i])
  {
    seq(|fasts|, i requires 0 <= i < |fasts| => ToRow(fasts[i]))
  }

  /**
   * `load_fasting_df` after the download: every fast converted, sorted by
   * start, and the last one (the fast still running) dropped.
   */
  function LoadFasts(fasts: seq<Fast>): (rows: seq<FastRow>)
    ensures |rows| == if fasts == [] then 0 else |fasts| - 1
    ensures SortedBy(rows, StartKey)
    ensures forall i :: 0 <= i < |rows| ==> 0 <= rows[i].durationSec < Calendar.DaySeconds
    ensures fasts != [] ==> exists last ::
      && multiset(rows) + multiset{last} == multiset(Converted(fasts))
      && forall i :: 0 <= i < |rows| ==> rows[i].startAt <= last.startAt
  {
    var sorted := SortBy(Converted(fasts), StartKey);
    if sorted == [] then []
    else
      DropLast(Converted(fasts), sorted);
      sorted[..|sorted| - 1]
  }

  /** Dropping the last fast by start keeps the order, and the dropped one started last. */
  lemma DropLast(converted: seq<FastRow>, sorted: seq<FastRow>)
    requires sorted == SortBy(converted, StartKey) && sorted != []
    requires forall i :: 0 <= i < |converted| ==> 0 <= converted[i].durationSec < Calendar.DaySeconds
    ensures SortedBy(sorted[..|sorted| - 1], StartKey)
    ensures forall i :: 0 <= i < |sorted| - 1 ==> 0 <= sorted[i].durationSec < Calendar.DaySeconds
    ensures multiset(sorted[..|sorted| - 1]) + multiset{sorted[|sorted| - 1]} == multiset(converted)
    ensures forall i :: 0 <= i < |sorted| - 1 ==> sorted[i].startAt <= sorted[|sorted| - 1].startAt
  {
    SortedPrefix(sorted);
    SplitLast(sorted);
    forall i | 0 <= i < |sorted| - 1
      ensures 0 <= sorted[i].durationSec < Calendar.DaySeconds
    {
      InMultiset(sorted, converted, i);
    }
  }

  lemma SortedPrefix(sorted: seq<FastRow>)
    requires SortedBy(sorted, StartKey) && sorted != []
    ensures SortedBy(sorted[..|sorted| - 1], StartKey)
    ensures forall i :: 0 <= i < |sorted| - 1 ==> sorted[i].startAt <= sorted[|sorted| - 1].startAt
  {
    var rows := sorted[..|sorted| - 1];
    forall i, j | 0 <= i < j < |rows|
      ensures KeyLe(StartKey(rows[i]), StartKey(rows[j]))
    {
      assert rows[i] == sorted[i] && rows[j] == sorted[j];
    }
    forall i | 0 <= i < |sorted| - 1
      ensures sorted[i].startAt <= sorted[|sorted| - 1].startAt
    {
      assert KeyLe(StartKey(sorted[i]), StartKey(sorted[|sorted| - 1]));
    }
  }

  lemma SplitLast(sorted: seq<FastRow>)
    requires sorted != []
    ensures multiset(sorted[..|sorted| - 1]) + multiset{sorted[|sorted| - 1]} == multiset(sorted)
  {
    assert sorted == sorted[..|sorted| - 1] + [sorted[|sorted| - 1]];
  }

  // ---------------------------------------------------------------------
  // format_timedelta

  /** `str(timedelta(seconds=s))` below one day: `H:MM:SS`, hours unpadded. */
  function TimedeltaStr(s: nat): (t: string)
    requires s < 86400
  {
    NatToString(s / 3600) + ":" + Pad2(s % 3600 / 60) + ":" + Pad2(s % 60)
  }

  /** `str.replace(':', rep)`. */
  function ReplaceColon(t: string, rep: string): (u: string)
  {
    if t == [] then [] else (if t[0] == ':' then rep else [t[0]]) + ReplaceColon(t[1..], rep)
  }

  /** `format_timedelta` on whole seconds: cut the last three characters, replace ':' with 'h ', add 'min'. */
  function FormatTimedelta(s: nat): string
    requires s < 86400
  {
    var t := TimedeltaStr(s);
    ReplaceColon(t[..|t| - 3], "h ") + "min"
  }

  lemma {:induction false} ReplaceColonAppend(a: string, b: string, rep: string)
    ensures ReplaceColon(a + b, rep) == ReplaceColon(a, rep) + ReplaceColon(b, rep)
  {
    if a != [] {
      assert (a + b)[0] == a[0];
      assert (a + b)[1..] == a[1..] + b;
      ReplaceColonAppend(a[1..], b, rep);
    } else {
      assert a + b == b;
    }
  }

  lemma {:induction false} ReplaceColonDigits(a: string, rep: string)
    requires AllDigits(a)
    ensures ReplaceColon(a, rep) == a
  {
    if a != [] {
      ReplaceColonDigits(a[1..], rep);
    }
  }

  /**
   * The rendering is hours, `h `, two-digit minutes and `min`: the seconds
   * are cut off, not rounded into the minutes.
   */
  lemma FormatShape(s: nat)
    requires s < 86400
    ensures FormatTimedelta(s) == NatToString(s / 3600) + "h " + Pad2(s % 3600 / 60) + "min"
  {
    var h := NatToString(s / 3600);
    var m := Pad2(s % 3600 / 60);
    var t := TimedeltaStr(s);
    assert t[..|t| - 3] == h + ":" + m;
    ReplaceColonAppend(h + ":", m, "h ");
    ReplaceColonAppend(h, ":", "h ");
    ReplaceColonDigits(h, "h ");
    ReplaceColonDigits(m, "h ");
  }

  lemma FormatJustUnderAnHour()
    ensures FormatTimedelta(3599) == "0h 59min"
  {
    FormatShape(3599);
  }

  lemma FormatDetermines(a: nat, b: nat)
    requires a < 86400 && b < 86400
    requires FormatTimedelta(a) == FormatTimedelta(b)
    ensures a / 3600 == b / 3600 && a % 3600 / 60 == b % 3600 / 60
  {
    FormatShape(a);
    FormatShape(b);
    var ha, hb := NatToString(a / 3600), NatToString(b / 3600);
    var ma, mb := Pad2(a % 3600 / 60), Pad2(b % 3600 / 60);
    var fa := ha + "h " + ma + "min";
    var fb := hb + "h " + mb + "min";
    assert fa == fb;
    assert |ha| == |hb|;
    assert fa[..|ha|] == ha;
    assert fb[..|hb|] == hb;
    NatToStringInjective(a / 3600, b / 3600);
    assert fa[|ha| + 2..|ha| + 4] == ma;
    assert fb[|hb| + 2..|hb| + 4] == mb;
    ParsePad2(a % 3600 / 60);
    ParsePad2(b % 3600 / 60);
  }

  lemma MinuteSplit(a: nat, b: nat)
    ensures a / 60 == b / 60 <==> a / 3600 == b / 3600 && a % 3600 / 60 == b % 3600 / 60
  {
    assert a / 60 == (a / 3600) * 60 + a % 3600 / 60;
    assert b / 60 == (b / 3600) * 60 + b % 3600 / 60;
  }

  /** Two durations render the same exactly when they agree to the minute. */
  lemma FormatMinutePrecision(a: nat, b: nat)
    requires a < 86400 && b < 86400
    ensures FormatTimedelta(a) == FormatTimedelta(b) <==> a / 60 == b / 60
  {
    MinuteSplit(a, b);
    if FormatTimedelta(a) == FormatTimedelta(b) {
      FormatDetermines(a, b);
    }
    if a / 60 == b / 60 {
      FormatShape(a);
      FormatShape(b);
    }
  }

  // ---------------------------------------------------------------------
  // generate_metric_fasting

  /** What a metric reads: the fasts it averages over and whether it shows a delta against all time. */
  datatype Window = Window(fasts: seq<FastRow>, showsDelta: bool)

  /**
   * The window of `generate_metric_fasting`: the last `days` fasts by
   * start and a delta, or all fasts and no delta when `days` is None; a
   * zero `days` skips the all-time mean the delta needs, which raises.
   */
  function MetricWindow(rows: seq<FastRow>, days: Option<nat>): (r: Result<Window>)
    ensures r.Failure? <==> days == Some(0)
    ensures days.None? ==> r == Success(Window(rows, false))
    ensures days.Some? && days.value > 0 ==>
      && r.Success? && r.value.showsDelta
      && |r.value.fasts| == (if days.value < |rows| then days.value else |rows|)
      && SortedBy(r.value.fasts, StartKey)
      && multiset(r.value.fasts) <= multiset(rows)
  {
    match days
    case None => Success(Window(rows, false))
    case Some(k) =>
      if k == 0 then Failure(UnboundAllTime)
      else
        var sorted := SortBy(rows, StartKey);
        var from := if k < |sorted| then |sorted| - k else 0;
        assert sorted == sorted[..from] + sorted[from..];
        Success(Window(sorted[from..], true))
  }

  /** The window holds the most recent fasts: none left out started later than one kept. */
  lemma WindowIsMostRecent(rows: seq<FastRow>, k: nat)
    requires k > 0
    ensures var w := MetricWindow(rows, Some(k)).value.fasts;
      var sorted := SortBy(rows, StartKey);
      && w == sorted[|sorted| - |w|..]
      && forall i, j :: 0 <= i < |sorted| - |w| <= j < |sorted| ==> sorted[i].startAt <= sorted[j].startAt
  {
  }
}
