/**
 Proleptic Gregorian calendar in UTC. An instant is a whole number of seconds since the
 beginning of year 0, a day is numbered by `second / 86400`, and a month by `12 * year + month - 1`.
 */
module Calendar {

  const MINUTE := 60
  const HOUR := 3600
  const DAY := 86400

  // ---------- Days, months and years ----------

  predicate IsLeap(y: int) {
    y % 4 == 0 && (y % 100 != 0 || y % 400 == 0)
  }

  /** The number of the first day of year `y`: 365 days a year plus the leap days before it. */
  function YearStart(y: int): int {
    365 * y + (y + 3) / 4 - (y + 99) / 100 + (y + 399) / 400
  }

  /** Days of a year that precede its month `m`; 13 stands for the end of the year. */
  function DaysBeforeMonth(m: int, leap: bool): int
    requires 1 <= m <= 13
  {
    var common := [0, 31, 59, 90, 120, 151, 181, 212, 243, 273, 304, 334, 365][m - 1];
    if leap && m > 2 then common + 1 else common
  }

  /** The number of the first day of month `idx`, where `idx` counts months from year 0. */
  function MonthStart(idx: int): int {
    YearStart(idx / 12) + DaysBeforeMonth(idx % 12 + 1, IsLeap(idx / 12))
  }

  /** How many multiples of 4, of 100 and of 400 there are from 0 up to `y`, exclusively. */
  function Fourths(y: int): int { (y + 3) / 4 }
  function Hundredths(y: int): int { (y + 99) / 100 }
  function FourHundredths(y: int): int { (y + 399) / 400 }

  predicate By4(y: int) { y % 4 == 0 }
  predicate By100(y: int) { y % 100 == 0 }
  predicate By400(y: int) { y % 400 == 0 }

  lemma YearStartParts(y: int)
    ensures YearStart(y) == 365 * y + Fourths(y) - Hundredths(y) + FourHundredths(y)
  {
  }

  lemma FourthYears(y: int)
    ensures Fourths(y + 1) - Fourths(y) == if By4(y) then 1 else 0
  {
  }

  lemma HundredthYears(y: int)
    ensures Hundredths(y + 1) - Hundredths(y) == if By100(y) then 1 else 0
  {
  }

  lemma FourHundredthYears(y: int)
    ensures FourHundredths(y + 1) - FourHundredths(y) == if By400(y) then 1 else 0
  {
  }

  lemma LeapYears(y: int)
    ensures IsLeap(y) <==> By4(y) && (!By100(y) || By400(y))
    ensures By400(y) ==> By100(y)
    ensures By100(y) ==> By4(y)
  {
    assert y == 100 * (y / 100) + y % 100;
    assert y == 400 * (y / 400) + y % 400;
  }

  lemma YearLength(y: int)
    ensures YearStart(y + 1) - YearStart(y) == if IsLeap(y) then 366 else 365
  {
    hide YearStart, IsLeap, By4, By100, By400, Fourths, Hundredths, FourHundredths;
    YearStartParts(y);
    YearStartParts(y + 1);
    FourthYears(y);
    HundredthYears(y);
    FourHundredthYears(y);
    LeapYears(y);
  }

  /** Thirty days hath September, April, June and November. */
  function DaysInMonth(m: int, leap: bool): int {
    if m == 2 then (if leap then 29 else 28) else if m in {4, 6, 9, 11} then 30 else 31
  }

  lemma MonthLength(idx: int)
    ensures MonthStart(idx + 1) - MonthStart(idx) == DaysInMonth(idx % 12 + 1, IsLeap(idx / 12))
    ensures 28 <= MonthStart(idx + 1) - MonthStart(idx) <= 31
  {
    var y, m := idx / 12, idx % 12;
    assert idx == 12 * y + m;
    if m == 11 {
      assert (idx + 1) / 12 == y + 1 && (idx + 1) % 12 == 0;
      YearLength(y);
    } else {
      assert (idx + 1) / 12 == y && (idx + 1) % 12 == m + 1;
    }
  }

  lemma FebruaryLength(y: int)
    ensures MonthStart(12 * y + 2) - MonthStart(12 * y + 1) == if IsLeap(y) then 29 else 28
  {
    assert (12 * y + 2) / 12 == y && (12 * y + 2) % 12 == 2;
    assert (12 * y + 1) / 12 == y && (12 * y + 1) % 12 == 1;
  }

  lemma {:induction false} MonthStartMonotone(i: int, j: int)
    requires i <= j
    ensures MonthStart(i) + 28 * (j - i) <= MonthStart(j)
    decreases j - i
  {
    hide MonthStart;
    if i < j {
      MonthLength(j - 1);
      MonthStartMonotone(i, j - 1);
    }
  }

  /** Walks from month `idx` to the month that contains `day`. */
  function MonthIndexFrom(idx: int, day: int): (r: int)
    ensures MonthStart(r) <= day < MonthStart(r + 1)
    decreases if day < MonthStart(idx) then MonthStart(idx) - day
              else if MonthStart(idx + 1) <= day then day - MonthStart(idx)
              else 0
  {
    hide MonthStart;
    MonthLength(idx);
    MonthLength(idx - 1);
    if day < MonthStart(idx) then MonthIndexFrom(idx - 1, day)
    else if MonthStart(idx + 1) <= day then MonthIndexFrom(idx + 1, day)
    else idx
  }

  /** The month that contains `day`. */
  function MonthIndex(day: int): (r: int)
    ensures MonthStart(r) <= day < MonthStart(r + 1)
  {
    MonthIndexFrom(0, day)
  }

  /** A day belongs to one month only, so `MonthIndex` inverts `MonthStart`. */
  lemma MonthIndexUnique(idx: int, day: int)
    requires MonthStart(idx) <= day < MonthStart(idx + 1)
    ensures MonthIndex(day) == idx
  {
    hide MonthStart;
    var r := MonthIndex(day);
    if r < idx { MonthStartMonotone(r + 1, idx); }
    if idx < r { MonthStartMonotone(idx + 1, r); }
  }

  // ---------- The fields of an instant ----------

  function DayNumber(u: int): int { u / DAY }
  function MonthNumber(u: int): int { MonthIndex(DayNumber(u)) }
  function Year(u: int): int { MonthNumber(u) / 12 }
  function Month(u: int): (m: int) ensures 1 <= m <= 12 { MonthNumber(u) % 12 + 1 }

  function Day(u: int): (d: int)
    ensures 1 <= d <= 31
  {
    hide MonthStart, MonthIndex, DaysInMonth, IsLeap;
    MonthLength(MonthNumber(u));
    DayNumber(u) - MonthStart(MonthNumber(u)) + 1
  }

  /** Sunday is 0; day 0, the first of January of year 0, is a Saturday. */
  function Weekday(u: int): (w: int) ensures 0 <= w <= 6 { (DayNumber(u) + 6) % 7 }

  function Hour(u: int): (h: int) ensures 0 <= h <= 23 { u / HOUR % 24 }
  function Minute(u: int): (m: int) ensures 0 <= m <= 59 { u / MINUTE % 60 }
  function Second(u: int): (s: int) ensures 0 <= s <= 59 { u % 60 }

  // ---------- Building instants ----------

  /** Go's `time.Date` in UTC: out-of-range months, days and clock fields carry over. */
  function Date(y: int, m: int, d: int, hour: int, minute: int, second: int): int {
    (MonthStart(12 * y + m - 1) + d - 1) * DAY + hour * HOUR + minute * MINUTE + second
  }

  /** Go's `Time.AddDate` in UTC. */
  function AddDate(u: int, years: int, months: int, days: int): int {
    Date(Year(u) + years, Month(u) + months, Day(u) + days, Hour(u), Minute(u), Second(u))
  }

  lemma ClockFields(day: int, hour: int, minute: int, second: int)
    requires 0 <= hour < 24 && 0 <= minute < 60 && 0 <= second < 60
    ensures var u := day * DAY + hour * HOUR + minute * MINUTE + second;
            DayNumber(u) == day && Hour(u) == hour && Minute(u) == minute && Second(u) == second
  {
    var u := day * DAY + hour * HOUR + minute * MINUTE + second;
    assert u / MINUTE == 1440 * day + 60 * hour + minute;
    assert u / HOUR == 24 * day + hour;
    assert u / DAY == day;
  }

  lemma ClockOfSecond(u: int)
    ensures u == DayNumber(u) * DAY + Hour(u) * HOUR + Minute(u) * MINUTE + Second(u)
  {
    assert u / HOUR / 24 == u / DAY;
    assert u / MINUTE / 60 == u / HOUR;
  }

  /** Reading the fields of an instant and building a date from them gives the instant back. */
  lemma DateOfFields(u: int)
    ensures Date(Year(u), Month(u), Day(u), Hour(u), Minute(u), Second(u)) == u
  {
    hide MonthStart;
    assert 12 * Year(u) + Month(u) - 1 == MonthNumber(u);
    ClockOfSecond(u);
  }

  /** Building a date from fields in range and reading them gives the fields back. */
  lemma FieldsOfDate(y: int, m: int, d: int, hour: int, minute: int, second: int)
    requires 1 <= m <= 12 && 1 <= d <= MonthStart(12 * y + m) - MonthStart(12 * y + m - 1)
    requires 0 <= hour < 24 && 0 <= minute < 60 && 0 <= second < 60
    ensures var u := Date(y, m, d, hour, minute, second);
            Year(u) == y && Month(u) == m && Day(u) == d && Hour(u) == hour && Minute(u) == minute && Second(u) ==
                second
  {
    hide MonthStart;
    var day := MonthStart(12 * y + m - 1) + d - 1;
    ClockFields(day, hour, minute, second);
    MonthIndexUnique(12 * y + m - 1, day);
  }

  lemma LeapDays(u: int)
    requires Month(u) == 2
    ensures Day(u) <= if IsLeap(Year(u)) then 29 else 28
  {
    hide MonthStart, MonthIndex;
    assert MonthNumber(u) == 12 * Year(u) + 1;
    FebruaryLength(Year(u));
  }

  /** The model agrees with the Unix epoch: 1970-01-01 00:00:00 is a Thursday, 719528 days after day 0. */
  lemma EpochIsThursday()
    ensures Date(1970, 1, 1, 0, 0, 0) == 719528 * DAY
    ensures Weekday(Date(1970, 1, 1, 0, 0, 0)) == 4
  {
  }

  /** The weekday goes on by one at every midnight, and only there. */
  lemma WeekdaysInTurn(u: int, w: int)
    requires DayNumber(w) == DayNumber(u)
    ensures Weekday(w) == Weekday(u)
    ensures Weekday(w + DAY) == if Weekday(u) == 6 then 0 else Weekday(u) + 1
  {
    assert DayNumber(w + DAY) == DayNumber(w) + 1;
  }

  /** Go's `Time.Truncate` for a duration of `d` whole seconds that divides a day. */
  function Truncate(u: int, d: int): int
    requires d > 0
  {
    u - u % d
  }

  // ---------- Periods ----------

  predicate AtMinuteStart(u: int) { u % MINUTE == 0 }
  predicate AtHourStart(u: int) { u % HOUR == 0 }
  predicate AtDayStart(u: int) { u % DAY == 0 }
  predicate AtMonthStart(u: int) { AtDayStart(u) && Day(u) == 1 }

  /** The first second after the month of `u`. */
  function MonthEnd(u: int): int { MonthStart(MonthNumber(u) + 1) * DAY }

  /** A month is an interval: it holds the same month number, and ends where the next one starts. */
  lemma MonthPeriod(u: int, w: int)
    requires u <= w <= MonthEnd(u)
    ensures u < MonthEnd(u)
    ensures w < MonthEnd(u) ==> MonthNumber(w) == MonthNumber(u)
    ensures w == MonthEnd(u) ==> AtMonthStart(w) && MonthNumber(w) == MonthNumber(u) + 1
  {
    hide MonthStart;
    var idx := MonthNumber(u);
    MonthLength(idx + 1);
    if w < MonthEnd(u) {
      MonthIndexUnique(idx, DayNumber(w));
    } else {
      MonthIndexUnique(idx + 1, DayNumber(w));
    }
  }

  /** A midnight is in the same month as the day before it, or starts a month. */
  lemma MidnightOrMonthStart(u: int, v: int)
    requires v == (DayNumber(u) + 1) * DAY
    ensures MonthNumber(v) == MonthNumber(u) || AtMonthStart(v)
  {
    hide MonthStart;
    var d, idx := DayNumber(u), MonthNumber(u);
    assert DayNumber(v) == d + 1;
    if d + 1 < MonthStart(idx + 1) {
      MonthIndexUnique(idx, d + 1);
    } else {
      MonthLength(idx + 1);
      MonthIndexUnique(idx + 1, d + 1);
    }
  }

  /** The first second after the end of year `y`. */
  function YearEnd(y: int): int { MonthStart(12 * (y + 1)) * DAY }

  lemma YearBound(u: int, y: int)
    ensures Year(u) <= y <==> u < YearEnd(y)
  {
    hide MonthStart;
    var idx := MonthNumber(u);
    if Year(u) <= y {
      MonthStartMonotone(idx + 1, 12 * (y + 1));
    } else {
      MonthStartMonotone(12 * (y + 1), idx);
    }
  }

  // ---------- How the clock periods nest ----------

  /** The numbers of the hour and of the day follow from the number of the minute and of the hour. */
  lemma PeriodNumbers(u: int)
    ensures u / MINUTE / 60 == u / HOUR && u / HOUR / 24 == u / DAY
  {
  }

  lemma NestedPeriods(u: int)
    ensures AtDayStart(u) ==> AtHourStart(u) && Hour(u) == 0
    ensures AtHourStart(u) ==> AtMinuteStart(u)
  {
    if AtDayStart(u) {
      assert u == HOUR * (24 * (u / DAY));
      assert u / HOUR == 24 * (u / DAY);
    }
    if AtHourStart(u) {
      assert u == MINUTE * (60 * (u / HOUR));
    }
  }

  lemma PeriodEnd(u: int, v: int, length: int)
    requires length == DAY || length == HOUR || length == MINUTE
    requires v == (u / length + 1) * length
    ensures u < v && v % length == 0 && v / length == u / length + 1
    ensures forall w :: u <= w < v ==> w / length == u / length
  {
  }

  lemma HourBoundary(u: int, v: int)
    requires v == (u / HOUR + 1) * HOUR
    ensures if Hour(v) == 0 then v == (DayNumber(u) + 1) * DAY else DayNumber(v) == DayNumber(u)
  {
    PeriodNumbers(u);
    PeriodNumbers(v);
    assert v / HOUR == u / HOUR + 1;
  }

  lemma MinuteBoundary(u: int, v: int)
    requires v == (u / MINUTE + 1) * MINUTE
    ensures if Minute(v) == 0 then v == (u / HOUR + 1) * HOUR else v / HOUR == u / HOUR
  {
    PeriodNumbers(u);
    PeriodNumbers(v);
    assert v / MINUTE == u / MINUTE + 1;
  }

  lemma SecondBoundary(u: int, v: int)
    requires v == u + 1
    ensures if Second(v) == 0 then v == (u / MINUTE + 1) * MINUTE else v / MINUTE == u / MINUTE
  {
  }

  // ---------- What the search does to an instant ----------

  lemma FirstOfMonth(u: int)
    ensures var f := Date(Year(u), Month(u), 1, 0, 0, 0);
            AtMonthStart(f) && f <= u && MonthEnd(f) == MonthEnd(u)
  {
    hide MonthStart, MonthIndex;
    var idx := MonthNumber(u);
    assert 12 * Year(u) + Month(u) - 1 == idx;
    MonthLength(idx);
    var f := MonthStart(idx) * DAY;
    assert DayNumber(f) == MonthStart(idx);
    MonthIndexUnique(idx, DayNumber(f));
  }

  lemma NextMonth(u: int)
    requires AtMonthStart(u)
    ensures AddDate(u, 0, 1, 0) == MonthEnd(u)
  {
    hide MonthStart, MonthIndex, Hour, Minute, Second;
    assert 12 * Year(u) + Month(u) == MonthNumber(u) + 1;
    ClockOfSecond(u);
  }

  lemma NextDay(u: int)
    ensures AddDate(u, 0, 0, 1) == u + DAY
  {
    hide MonthStart, MonthIndex, Year, Month, Day, Hour, Minute, Second;
    DateOfFields(u);
  }

  lemma MidnightBefore(u: int)
    ensures Date(Year(u), Month(u), Day(u), 0, 0, 0) == DayNumber(u) * DAY
    ensures Date(Year(u), Month(u), Day(u), Hour(u), 0, 0) == u / HOUR * HOUR
  {
    hide MonthStart, MonthIndex, Year, Month, Day;
    DateOfFields(u);
    ClockOfSecond(u);
    assert u / HOUR == 24 * DayNumber(u) + Hour(u);
  }
}
