/** The UTC calendar JavaScript dates use, after the ECMAScript definitions
    (section 21.4.1 of ECMA-262): days from a year, the year and month of a
    day, `MakeDay`, the time-of-day fields, and `TimeClip`. Times are integer
    milliseconds since 1970-01-01T00:00:00Z. */
module Calendar {
  import opened JsNum

  const MS_PER_DAY: int := 86400000
  const MS_PER_HOUR: int := 3600000
  const MS_PER_MINUTE: int := 60000
  const MS_PER_SECOND: int := 1000
  /** 2000-01-01T00:00:00Z in milliseconds since 1970: 10957 days. */
  const EPOCH_2000: int := 946684800000
  /** The largest magnitude of a valid time value. */
  const MAX_TIME: int := 8640000000000000

  /** `DaysInYear`. */
  function DaysInYear(y: int): (n: int)
    ensures n == 365 || n == 366
  {
    if y % 4 != 0 then 365
    else if y % 100 != 0 then 366
    else if y % 400 != 0 then 365
    else 366
  }

  /** `DayFromYear`: the day number of the first day of year `y`. */
  function DayFromYear(y: int): int {
    365 * (y - 1970) + (y - 1969) / 4 - (y - 1901) / 100 + (y - 1601) / 400
  }

  /** Consecutive years are `DaysInYear` apart. */
  lemma YearLength(y: int)
    ensures DayFromYear(y + 1) == DayFromYear(y) + DaysInYear(y)
  {
    LeapCounts(y);
    Divisors(y);
  }

  /** A multiple of 400 is a multiple of 100, which is a multiple of 4. */
  lemma Divisors(y: int)
    ensures y % 400 == 0 ==> y % 100 == 0
    ensures y % 100 == 0 ==> y % 4 == 0
  {
    if y % 400 == 0 {
      Hundreds(y, 4 * (y / 400));
    }
    if y % 100 == 0 {
      Fours(y, 25 * (y / 100));
    }
  }

  lemma Hundreds(y: int, k: int)
    requires y == 100 * k
    ensures y % 100 == 0
  {
  }

  lemma Fours(y: int, k: int)
    requires y == 4 * k
    ensures y % 4 == 0
  {
  }

  /** The leap-day counts in `DayFromYear` grow by one exactly at a year
      divisible by 4, 100 or 400. */
  lemma LeapCounts(y: int)
    ensures (y - 1968) / 4 == (y - 1969) / 4 + (if y % 4 == 0 then 1 else 0)
    ensures (y - 1900) / 100 == (y - 1901) / 100 + (if y % 100 == 0 then 1 else 0)
    ensures (y - 1600) / 400 == (y - 1601) / 400 + (if y % 400 == 0 then 1 else 0)
  {
    Count4(y);
    Count100(y);
    Count400(y);
  }

  lemma Count4(y: int)
    ensures (y - 1968) / 4 == (y - 1969) / 4 + (if y % 4 == 0 then 1 else 0)
  {
  }

  lemma Count100(y: int)
    ensures (y - 1900) / 100 == (y - 1901) / 100 + (if y % 100 == 0 then 1 else 0)
  {
  }

  lemma Count400(y: int)
    ensures (y - 1600) / 400 == (y - 1601) / 400 + (if y % 400 == 0 then 1 else 0)
  {
  }

  /** `DayFromYear` is strictly increasing. */
  lemma {:induction false} DayFromYearMonotone(a: int, b: int)
    requires a < b
    ensures DayFromYear(a) < DayFromYear(b)
    decreases b - a
  {
    YearLength(a);
    if a + 1 < b {
      DayFromYearMonotone(a + 1, b);
    }
  }

  function YearUp(day: int, y: int): (r: int)
    requires DayFromYear(y) <= day
    ensures DayFromYear(r) <= day < DayFromYear(r + 1)
    decreases day - DayFromYear(y)
  {
    YearLength(y);
    if day < DayFromYear(y + 1) then y else YearUp(day, y + 1)
  }

  function YearDown(day: int, y: int): (r: int)
    requires day < DayFromYear(y)
    ensures DayFromYear(r) <= day < DayFromYear(r + 1)
    decreases DayFromYear(y) - day
  {
    YearLength(y - 1);
    if DayFromYear(y - 1) <= day then y - 1 else YearDown(day, y - 1)
  }

  /** `YearFromTime` on a day number: the year whose first day is the last
      one at or before `day`. */
  function YearOf(day: int): (y: int)
    ensures DayFromYear(y) <= day < DayFromYear(y + 1)
  {
    var guess := 1970 + day / 366;
    if DayFromYear(guess) <= day then YearUp(day, guess) else YearDown(day, guess)
  }

  /** A day lies in exactly one year. */
  lemma YearOfUnique(day: int, y: int)
    requires DayFromYear(y) <= day < DayFromYear(y + 1)
    ensures YearOf(day) == y
  {
    var r := YearOf(day);
    if r < y {
      if r + 1 < y { DayFromYearMonotone(r + 1, y); }
    } else if r > y {
      if y + 1 < r { DayFromYearMonotone(y + 1, r); }
    }
  }

  function Leap(y: int): int {
    if DaysInYear(y) == 366 then 1 else 0
  }

  /** The day within the year on which month `m` (0 for January) begins. */
  function MonthStart(m: int, leap: int): int
    requires 0 <= m < 12
  {
    match m
    case 0 => 0
    case 1 => 31
    case 2 => 59 + leap
    case 3 => 90 + leap
    case 4 => 120 + leap
    case 5 => 151 + leap
    case 6 => 181 + leap
    case 7 => 212 + leap
    case 8 => 243 + leap
    case 9 => 273 + leap
    case 10 => 304 + leap
    case _ => 334 + leap
  }

  /** `MonthFromTime` on a day within a year: the month whose table range
      holds `d`. */
  function MonthWithin(d: int, leap: int): (m: int)
    ensures 0 <= m < 12
    ensures 0 <= d ==> MonthStart(m, leap) <= d
    ensures m < 11 ==> d < MonthStart(m + 1, leap)
  {
    if d < 31 then 0
    else if d < 59 + leap then 1
    else if d < 90 + leap then 2
    else if d < 120 + leap then 3
    else if d < 151 + leap then 4
    else if d < 181 + leap then 5
    else if d < 212 + leap then 6
    else if d < 243 + leap then 7
    else if d < 273 + leap then 8
    else if d < 304 + leap then 9
    else if d < 334 + leap then 10
    else 11
  }

  /** The day number of a time value (`Day(t)`, rounding down). */
  function DayOf(t: int): int { t / MS_PER_DAY }

  /** `getUTCFullYear`. */
  function UtcYear(t: int): int { YearOf(DayOf(t)) }

  /** `getUTCMonth`, 0 for January. */
  function UtcMonth(t: int): (m: int)
    ensures 0 <= m < 12
  {
    var y := YearOf(DayOf(t));
    MonthWithin(DayOf(t) - DayFromYear(y), Leap(y))
  }

  /** The day number on which month `mn` (0..11) of year `ym` begins. */
  function FirstDayOfMonth(ym: int, mn: int): int
    requires 0 <= mn < 12
  {
    DayFromYear(ym) + MonthStart(mn, Leap(ym))
  }

  /** `MakeDay(year, month, 1)` on integer year and month: whole years carried
      out of the month (rounding down), then the first day of that month. */
  function MakeDayFirst(year: int, month: int): int {
    FirstDayOfMonth(year + month / 12, month % 12)
  }

  /** A month begins inside its year. */
  lemma MonthStartWithinYear(m: int, y: int)
    requires 0 <= m < 12
    ensures 0 <= MonthStart(m, Leap(y)) < DaysInYear(y)
  {
  }

  /** The month table read back at a month's first day gives that month. */
  lemma MonthWithinStart(m: int, leap: int)
    requires 0 <= m < 12 && 0 <= leap <= 1
    ensures MonthWithin(MonthStart(m, leap), leap) == m
  {
  }

  /** The first day of the month of a time value is in the same year and
      month, and no later than the time's own day. */
  lemma FirstOfMonthSameMonth(t: int)
    ensures var y := UtcYear(t); var m := UtcMonth(t);
            var f := FirstDayOfMonth(y, m);
            f <= DayOf(t) && YearOf(f) == y && MonthWithin(f - DayFromYear(y), Leap(y)) == m
  {
    var y := UtcYear(t);
    var m := UtcMonth(t);
    var d := DayOf(t) - DayFromYear(y);
    assert m == MonthWithin(d, Leap(y));
    var f := FirstDayOfMonth(y, m);
    MonthStartWithinYear(m, y);
    YearLength(y);
    YearOfUnique(f, y);
    MonthWithinStart(m, Leap(y));
  }

  /** The time within the day (`TimeWithinDay`). */
  function TimeWithinDay(t: int): (w: int)
    ensures 0 <= w < MS_PER_DAY
  {
    t % MS_PER_DAY
  }

  /** `getUTCHours`, `getUTCMinutes`, `getUTCSeconds`, `getUTCMilliseconds`. */
  function UtcHours(t: int): int { (t / MS_PER_HOUR) % 24 }
  function UtcMinutes(t: int): int { (t / MS_PER_MINUTE) % 60 }
  function UtcSeconds(t: int): int { (t / MS_PER_SECOND) % 60 }
  function UtcMillis(t: int): int { t % MS_PER_SECOND }

  /** The time-of-day fields recombine into whole minutes, seconds and
      milliseconds of the day. */
  lemma TimeOfDayFields(t: int)
    ensures UtcHours(t) * 60 + UtcMinutes(t) == TimeWithinDay(t) / MS_PER_MINUTE
    ensures (UtcHours(t) * 60 + UtcMinutes(t)) * 60 + UtcSeconds(t) == TimeWithinDay(t) / MS_PER_SECOND
    ensures ((UtcHours(t) * 60 + UtcMinutes(t)) * 60 + UtcSeconds(t)) * 1000 + UtcMillis(t) == TimeWithinDay(t)
  {
    var w := TimeWithinDay(t);
    FieldsOfDay(t);
    Regroup(w);
  }

  /** Each field of a time is the same field of its time within the day. */
  lemma FieldsOfDay(t: int)
    ensures UtcHours(t) == TimeWithinDay(t) / MS_PER_HOUR
    ensures UtcMinutes(t) == (TimeWithinDay(t) / MS_PER_MINUTE) % 60
    ensures UtcSeconds(t) == (TimeWithinDay(t) / MS_PER_SECOND) % 60
    ensures UtcMillis(t) == TimeWithinDay(t) % MS_PER_SECOND
  {
    var w := TimeWithinDay(t);
    var d := t / MS_PER_DAY;
    assert t == d * MS_PER_DAY + w;
    HourOfDay(t, d, w);
    MinuteOfDay(t, d, w);
    SecondOfDay(t, d, w);
    MilliOfDay(t, d, w);
  }

  lemma HourOfDay(t: int, d: int, w: int)
    requires t == d * MS_PER_DAY + w && 0 <= w < MS_PER_DAY
    ensures (t / MS_PER_HOUR) % 24 == w / MS_PER_HOUR
  {
    assert t / MS_PER_HOUR == d * 24 + w / MS_PER_HOUR;
  }

  lemma MinuteOfDay(t: int, d: int, w: int)
    requires t == d * MS_PER_DAY + w && 0 <= w < MS_PER_DAY
    ensures (t / MS_PER_MINUTE) % 60 == (w / MS_PER_MINUTE) % 60
  {
    assert t / MS_PER_MINUTE == 60 * (d * 24) + w / MS_PER_MINUTE;
    Sixties(d * 24, w / MS_PER_MINUTE);
  }

  lemma SecondOfDay(t: int, d: int, w: int)
    requires t == d * MS_PER_DAY + w && 0 <= w < MS_PER_DAY
    ensures (t / MS_PER_SECOND) % 60 == (w / MS_PER_SECOND) % 60
  {
    assert t / MS_PER_SECOND == 60 * (d * 1440) + w / MS_PER_SECOND;
    Sixties(d * 1440, w / MS_PER_SECOND);
  }

  /** Whole sixties do not change a remainder by 60. */
  lemma Sixties(q: int, m: int)
    ensures (60 * q + m) % 60 == m % 60
  {
  }

  lemma MilliOfDay(t: int, d: int, w: int)
    requires t == d * MS_PER_DAY + w && 0 <= w < MS_PER_DAY
    ensures t % MS_PER_SECOND == w % MS_PER_SECOND
  {
    assert t / MS_PER_SECOND == d * 86400 + w / MS_PER_SECOND;
  }

  /** Hours, minutes, seconds and milliseconds of a time within the day
      recombine into its minutes, seconds and milliseconds. */
  lemma Regroup(w: int)
    requires 0 <= w < MS_PER_DAY
    ensures (w / MS_PER_HOUR) * 60 + (w / MS_PER_MINUTE) % 60 == w / MS_PER_MINUTE
    ensures (w / MS_PER_MINUTE) * 60 + (w / MS_PER_SECOND) % 60 == w / MS_PER_SECOND
    ensures (w / MS_PER_SECOND) * 1000 + w % MS_PER_SECOND == w
  {
    assert w / MS_PER_HOUR == (w / MS_PER_MINUTE) / 60;
    assert w / MS_PER_MINUTE == (w / MS_PER_SECOND) / 60;
  }

  /** `TimeClip` followed by the conversion a `Date` applies: a finite time
      of magnitude at most 8.64e15 ms, truncated toward zero; anything else
      is an invalid date (`None`). */
  datatype Clipped = Valid(ms: int) | Invalid

  function TimeClip(t: Number): (c: Clipped)
    ensures c.Valid? <==> t.Fin? && -(MAX_TIME as real) <= t.r <= MAX_TIME as real
    ensures c.Valid? ==> c.ms == Trunc(t.r) && -MAX_TIME <= c.ms <= MAX_TIME
  {
    if t.Fin? && -(MAX_TIME as real) <= t.r <= MAX_TIME as real then Valid(Trunc(t.r)) else Invalid
  }
}
