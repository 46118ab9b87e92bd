/**
 * Calendar arithmetic on naive day ordinals (days since 1970-01-01) and
 * instants (milliseconds since 1970-01-01T00:00, no time zone).
 */
module Calendar {

  const DayMs: int := 86_400_000
  const DaySeconds: int := 86_400

  /** Day ordinal of a proleptic Gregorian date (H. Hinnant's civil algorithm). */
  function DaysFromCivil(y: int, m: int, d: int): int
    requires 1 <= m <= 12 && 1 <= d <= 31
  {
    var y' := if m <= 2 then y - 1 else y;
    var era := y' / 400;
    var yoe := y' - era * 400;
    var doy := (153 * (if m > 2 then m - 3 else m + 9) + 2) / 5 + d - 1;
    var doe := yoe * 365 + yoe / 4 - yoe / 100 + doy;
    era * 146097 + doe - 719468
  }

  /** The first day of data of the watch, the series epoch: 2022-08-26. */
  const Epoch: int := DaysFromCivil(2022, 8, 26)

  /** The calendar day an instant falls on (`datetime.date()`). */
  function DayOf(ms: int): (d: int)
    ensures d * DayMs <= ms < d * DayMs + DayMs
  {
    ms / DayMs
  }

  /** The calendar year of a day ordinal (inverse direction of DaysFromCivil). */
  function YearOfDay(z: int): int
  {
    var z' := z + 719468;
    var era := z' / 146097;
    var doe := z' - era * 146097;
    var yoe := (doe - doe / 1460 + doe / 36524 - doe / 146096) / 365;
    var doy := doe - (365 * yoe + yoe / 4 - yoe / 100);
    var mp := (5 * doy + 2) / 153;
    var m := if mp < 10 then mp + 3 else mp - 9;
    yoe + era * 400 + (if m <= 2 then 1 else 0)
  }

  /** `.dt.year` of an instant. */
  function YearOf(ms: int): int
  {
    YearOfDay(DayOf(ms))
  }

  /** The first and last days of 2018 and the day before it fall in the years they are dated in. */
  lemma YearBoundaries()
    ensures YearOfDay(DaysFromCivil(2017, 12, 31)) == 2017
    ensures YearOfDay(DaysFromCivil(2018, 1, 1)) == 2018
    ensures YearOfDay(DaysFromCivil(2018, 12, 31)) == 2018
    ensures DaysFromCivil(2018, 1, 1) == DaysFromCivil(2017, 12, 31) + 1 == 17532
  {
    assert DaysFromCivil(2017, 12, 31) == 17531;
    assert DaysFromCivil(2018, 1, 1) == 17532;
    assert DaysFromCivil(2018, 12, 31) == 17896;
    assert 736999 / 146097 == 5 && 736999 - 5 * 146097 == 6514;
    assert (6514 - 6514 / 1460 + 6514 / 36524 - 6514 / 146096) / 365 == 17;
    assert 6514 - (365 * 17 + 17 / 4 - 17 / 100) == 305 && (5 * 305 + 2) / 153 == 9;
    assert 737000 / 146097 == 5 && 737000 - 5 * 146097 == 6515;
    assert (6515 - 6515 / 1460 + 6515 / 36524 - 6515 / 146096) / 365 == 17;
    assert 6515 - (365 * 17 + 17 / 4 - 17 / 100) == 306 && (5 * 306 + 2) / 153 == 10;
    assert 737364 / 146097 == 5 && 737364 - 5 * 146097 == 6879;
    assert (6879 - 6879 / 1460 + 6879 / 36524 - 6879 / 146096) / 365 == 18;
    assert 6879 - (365 * 18 + 18 / 4 - 18 / 100) == 305 && (5 * 305 + 2) / 153 == 9;
  }

  lemma DayOfMonotone(a: int, b: int)
    requires a <= b
    ensures DayOf(a) <= DayOf(b)
  {
  }

  lemma EpochIsDay19230()
    ensures Epoch == 19230
  {
  }
}
