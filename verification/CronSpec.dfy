/** The calendar search of `plugin/cron/spec.go`: the next activation of a crontab schedule. */
module CronSpec {
  import opened Wrappers
  import opened Calendar
  import opened Word64

  const STAR_BIT: nat := 63

  /** One set of admissible values per field. */
  datatype SpecSchedule = SpecSchedule(second: Word, minute: Word, hour: Word, dom: Word, month: Word, dow: Word)

  const NANO := 1_000_000_000

  // ---------- When an instant matches ----------

  predicate MonthMatches(s: SpecSchedule, u: int) { Has(s.month, Month(u)) }
  predicate HourMatches(s: SpecSchedule, u: int) { Has(s.hour, Hour(u)) }
  predicate MinuteMatches(s: SpecSchedule, u: int) { Has(s.minute, Minute(u)) }
  predicate SecondMatches(s: SpecSchedule, u: int) { Has(s.second, Second(u)) }

  /** A star in either day field makes both restrictions apply; otherwise one of them is enough. */
  predicate DayMatches(s: SpecSchedule, u: int) {
    var domMatch := Has(s.dom, Day(u));
    var dowMatch := Has(s.dow, Weekday(u));
    if Has(s.dom, STAR_BIT) || Has(s.dow, STAR_BIT) then domMatch && dowMatch else domMatch || dowMatch
  }

  predicate Matches(s: SpecSchedule, u: int) {
    MonthMatches(s, u) && DayMatches(s, u) && HourMatches(s, u) && MinuteMatches(s, u) && SecondMatches(s, u)
  }

  // ---------- The reference: try every second ----------

  /** The first matching second in [from, until), found by trying them in order. */
  function Scan(s: SpecSchedule, from: int, until: int): Option<int>
    decreases until - from
  {
    if until <= from then None
    else if Matches(s, from) then Some(from)
    else Scan(s, from + 1, until)
  }

  /** The next whole second after an instant `t` in nanoseconds. */
  function UpcomingSecond(t: int): int { t / NANO + 1 }

  /** Where the search gives up: the end of the fifth year after the upcoming second's. */
  function Horizon(t: int): int { YearEnd(Year(UpcomingSecond(t)) + 5) }

  /** The first matching whole second after `t` and before the horizon, in nanoseconds. */
  function FirstActivation(s: SpecSchedule, t: int): Option<int> {
    match Scan(s, UpcomingSecond(t), Horizon(t))
    case None => None
    case Some(u) => Some(u * NANO)
  }

  ghost predicate NoMatch(s: SpecSchedule, from: int, until: int) {
    forall w :: from <= w < until ==> !Matches(s, w)
  }

  lemma {:induction false} ScanSkips(s: SpecSchedule, from: int, mid: int, until: int)
    requires from <= mid <= until && NoMatch(s, from, mid)
    ensures Scan(s, from, until) == Scan(s, mid, until)
    decreases mid - from
  {
    hide Matches;
    if from < mid {
      ScanSkips(s, from + 1, mid, until);
    }
  }

  lemma {:induction false} ScanIsFirst(s: SpecSchedule, from: int, until: int)
    ensures match Scan(s, from, until) {
              case None => NoMatch(s, from, until)
              case Some(u) => from <= u < until && Matches(s, u) && NoMatch(s, from, u)
            }
    decreases until - from
  {
    hide Matches;
    if from < until && !Matches(s, from) {
      ScanIsFirst(s, from + 1, until);
    }
  }

  /** What the documentation of `Next` promises, and when it answers with the zero time. */
  lemma FirstActivationIsEarliest(s: SpecSchedule, t: int)
    ensures match FirstActivation(s, t) {
              case None =>
                forall w :: t < w * NANO && Year(w) <= Year(UpcomingSecond(t)) + 5 ==> !Matches(s, w)
              case Some(r) =>
                && t < r && r % NANO == 0 && Matches(s, r / NANO)
                && Year(r / NANO) <= Year(UpcomingSecond(t)) + 5
                && forall w :: t < w * NANO < r ==> !Matches(s, w)
            }
  {
    hide Matches, Year, YearEnd;
    var from, until := UpcomingSecond(t), Horizon(t);
    ScanIsFirst(s, from, until);
    forall w { YearBound(w, Year(from) + 5); }
    assert forall w :: t < w * NANO <==> from <= w;
  }

  /** `0 0 0 29 2 *`: midnight of every 29 February. */
  const EVERY_LEAP_DAY := SpecSchedule({0}, {0}, {0}, {29}, {2}, {0, 1, 2, 3, 4, 5, 6, STAR_BIT})

  /**
   The five-year limit can cut a satisfiable schedule off: 2100 is not a leap year, so from the
   beginning of 2097 the search gives up although 29 February 2104 matches.
   */
  lemma LeapDayGap()
    ensures FirstActivation(EVERY_LEAP_DAY, Date(2097, 1, 1, 0, 0, 0) * NANO) == None
    ensures Matches(EVERY_LEAP_DAY, Date(2104, 2, 29, 0, 0, 0))
  {
    hide MonthStart, MonthIndex, Day, Month, Year, Weekday, YearEnd, DaysInMonth;
    var t := Date(2097, 1, 1, 0, 0, 0) * NANO;
    var start := UpcomingSecond(t);
    assert start == Date(2097, 1, 1, 0, 0, 1);
    MonthLength(12 * 2097);
    FieldsOfDate(2097, 1, 1, 0, 0, 1);
    ScanIsFirst(EVERY_LEAP_DAY, start, Horizon(t));
    var found := Scan(EVERY_LEAP_DAY, start, Horizon(t));
    if found.Some? {
      var u := found.value;
      YearBound(u, 2102);
      YearBound(u, 2096);
      YearBound(start, 2096);
      LeapDays(u);
      LeapDayMatches(u);
      assert false;
    }
    FebruaryLength(2104);
    FieldsOfDate(2104, 2, 29, 0, 0, 0);
    LeapDayMatches(Date(2104, 2, 29, 0, 0, 0));
  }

  lemma LeapDayMatches(u: int)
    ensures Matches(EVERY_LEAP_DAY, u) <==>
            Month(u) == 2 && Day(u) == 29 && Hour(u) == 0 && Minute(u) == 0 && Second(u) == 0
  {
    hide Has, Month, Day, Weekday, Hour, Minute, Second;
    var s := EVERY_LEAP_DAY;
    HasIsMembership(s.month, Month(u));
    HasIsMembership(s.dom, Day(u));
    HasIsMembership(s.dom, STAR_BIT);
    HasIsMembership(s.dow, Weekday(u));
    HasIsMembership(s.dow, STAR_BIT);
    HasIsMembership(s.hour, Hour(u));
    HasIsMembership(s.minute, Minute(u));
    HasIsMembership(s.second, Second(u));
  }

  // ---------- Advancing one field ----------

  /**
   Once some field has been advanced, a field that does not match sits at the start of its own
   period, so that advancing it skips nothing and needs no further reset.
   */
  predicate Aligned(s: SpecSchedule, u: int) {
    && (MonthMatches(s, u) || AtMonthStart(u))
    && (DayMatches(s, u) || AtDayStart(u))
    && (HourMatches(s, u) || AtHourStart(u))
    && (MinuteMatches(s, u) || AtMinuteStart(u))
  }

  lemma AlignedAtMonthStart(s: SpecSchedule, u: int)
    requires AtMonthStart(u)
    ensures Aligned(s, u)
  {
    hide MonthMatches, DayMatches, HourMatches, MinuteMatches, AtHourStart, AtDayStart, AtMinuteStart, Day;
    NestedPeriods(u);
  }

  /** From a second whose month does not match, the next month start skips no match. */
  lemma MonthCarry(s: SpecSchedule, u: int, v: int)
    requires !MonthMatches(s, u) && v == MonthEnd(u)
    ensures u < v && NoMatch(s, u, v) && AtMonthStart(v) && MonthNumber(v) == MonthNumber(u) + 1
  {
    hide MonthStart, MonthIndex;
    MonthPeriod(u, u);
    MonthPeriod(u, v);
    forall w | u <= w < v ensures !Matches(s, w) {
      MonthPeriod(u, w);
    }
  }

  // The fields of one period depend on its number only.

  lemma SameDay(s: SpecSchedule, u: int, w: int)
    requires DayNumber(w) == DayNumber(u)
    ensures MonthMatches(s, w) == MonthMatches(s, u) && DayMatches(s, w) == DayMatches(s, u)
  {
    hide MonthStart, MonthIndex;
  }

  lemma SameHour(s: SpecSchedule, u: int, w: int)
    requires w / HOUR == u / HOUR
    ensures DayNumber(w) == DayNumber(u) && HourMatches(s, w) == HourMatches(s, u)
  {
    PeriodNumbers(u);
    PeriodNumbers(w);
  }

  lemma SameMinute(s: SpecSchedule, u: int, w: int)
    requires w / MINUTE == u / MINUTE
    ensures w / HOUR == u / HOUR && MinuteMatches(s, w) == MinuteMatches(s, u)
  {
    PeriodNumbers(u);
    PeriodNumbers(w);
  }

  /** The next midnight: alignment holds, and unless it starts a month the month is the same. */
  lemma DayCarry(s: SpecSchedule, u: int, v: int)
    requires MonthMatches(s, u) && v == (DayNumber(u) + 1) * DAY
    ensures u < v && AtDayStart(v) && Aligned(s, v)
    ensures Day(v) == 1 || MonthNumber(v) == MonthNumber(u)
    ensures !DayMatches(s, u) ==> NoMatch(s, u, v)
  {
    hide Has, MonthNumber, Day, DayMatches, HourMatches, MinuteMatches, SecondMatches;
    PeriodEnd(u, v, DAY);
    NestedPeriods(v);
    MidnightOrMonthStart(u, v);
    forall w | u <= w < v && !DayMatches(s, u) ensures !Matches(s, w) {
      SameDay(s, u, w);
    }
  }

  /** The next full hour: alignment holds, and unless it starts a day the day is the same. */
  lemma HourCarry(s: SpecSchedule, u: int, v: int)
    requires MonthMatches(s, u) && DayMatches(s, u) && v == (u / HOUR + 1) * HOUR
    ensures u < v && AtHourStart(v) && Aligned(s, v)
    ensures Hour(v) == 0 || DayNumber(v) == DayNumber(u)
    ensures !HourMatches(s, u) ==> NoMatch(s, u, v)
  {
    hide MonthMatches, DayMatches, HourMatches, MinuteMatches, SecondMatches, AtMonthStart;
    PeriodEnd(u, v, HOUR);
    NestedPeriods(v);
    HourBoundary(u, v);
    if Hour(v) == 0 {
      DayCarry(s, u, v);
    } else {
      SameDay(s, u, v);
    }
    forall w | u <= w < v && !HourMatches(s, u) ensures !Matches(s, w) {
      SameHour(s, u, w);
    }
  }

  /** The next full minute: alignment holds, and unless it starts an hour the hour is the same. */
  lemma MinuteCarry(s: SpecSchedule, u: int, v: int)
    requires MonthMatches(s, u) && DayMatches(s, u) && HourMatches(s, u) && v == (u / MINUTE + 1) * MINUTE
    ensures u < v && AtMinuteStart(v) && Aligned(s, v)
    ensures Minute(v) == 0 || v / HOUR == u / HOUR
    ensures !MinuteMatches(s, u) ==> NoMatch(s, u, v)
  {
    hide MonthMatches, DayMatches, HourMatches, MinuteMatches, SecondMatches, AtMonthStart, AtDayStart;
    PeriodEnd(u, v, MINUTE);
    NestedPeriods(v);
    MinuteBoundary(u, v);
    if Minute(v) == 0 {
      HourCarry(s, u, v);
    } else {
      SameHour(s, u, v);
      SameDay(s, u, v);
    }
    forall w | u <= w < v && !MinuteMatches(s, u) ensures !Matches(s, w) {
      SameMinute(s, u, w);
    }
  }

  /** The next second: alignment holds, and unless it starts a minute the minute is the same. */
  lemma SecondCarry(s: SpecSchedule, u: int, v: int)
    requires MonthMatches(s, u) && DayMatches(s, u) && HourMatches(s, u) && MinuteMatches(s, u) && v == u + 1
    ensures Aligned(s, v)
    ensures Second(v) == 0 || v / MINUTE == u / MINUTE
    ensures !SecondMatches(s, u) ==> NoMatch(s, u, v)
  {
    hide MonthMatches, DayMatches, HourMatches, MinuteMatches, SecondMatches, AtMonthStart, AtDayStart, AtHourStart;
    NestedPeriods(v);
    SecondBoundary(u, v);
    if Second(v) == 0 {
      MinuteCarry(s, u, v);
    } else {
      SameMinute(s, u, v);
      SameHour(s, u, v);
      SameDay(s, u, v);
    }
  }

  // ---------- The search ----------

  /** Nothing from `start` up to `u` matches, and advancing from `u` needs no reset once `added` is set. */
  ghost predicate Searched(s: SpecSchedule, start: int, u: int, added: bool) {
    start <= u && NoMatch(s, start, u) && (added ==> Aligned(s, u))
  }

  lemma SearchExtends(s: SpecSchedule, start: int, u: int, v: int, added: bool)
    requires Searched(s, start, u, added) && u <= v && NoMatch(s, u, v) && Aligned(s, v)
    ensures Searched(s, start, v, true)
  {
    hide Matches, Aligned;
  }

  // One pass through each loop body, with the reset that the first advance of a search does.

  lemma MonthStep(s: SpecSchedule, start: int, u: int, added: bool)
    requires Searched(s, start, u, added) && !MonthMatches(s, u)
    ensures var first := if added then u else Date(Year(u), Month(u), 1, 0, 0, 0);
            var v := AddDate(first, 0, 1, 0);
            u < v && Searched(s, start, v, true) && (Month(v) == 1 || Year(v) == Year(u))
  {
    hide Matches, DayMatches, HourMatches, MinuteMatches, MonthStart, MonthIndex, Date, AddDate;
    var first := if added then u else Date(Year(u), Month(u), 1, 0, 0, 0);
    FirstOfMonth(u);
    NextMonth(first);
    var v := MonthEnd(u);
    MonthCarry(s, u, v);
    AlignedAtMonthStart(s, v);
    SearchExtends(s, start, u, v, added);
  }

  /** Before its day is advanced, an aligned second is a midnight. */
  lemma MidnightStart(u: int, added: bool, s: SpecSchedule, start: int)
    requires Searched(s, start, u, added) && added && !DayMatches(s, u)
    ensures u == DayNumber(u) * DAY
  {
    hide DayMatches, MonthMatches, HourMatches, MinuteMatches, NoMatch, AtMonthStart;
  }

  lemma DayStep(s: SpecSchedule, start: int, u: int, added: bool)
    requires Searched(s, start, u, added) && MonthMatches(s, u) && !DayMatches(s, u)
    ensures var first := if added then u else Date(Year(u), Month(u), Day(u), 0, 0, 0);
            var v := AddDate(first, 0, 0, 1);
            && u < v && Searched(s, start, v, true) && Hour(v) == 0
            && (Day(v) == 1 || (MonthMatches(s, v) && Year(v) == Year(u)))
  {
    hide Matches, Aligned, Searched, DayMatches, MonthNumber, Date, AddDate, Day, Hour, Has, AtDayStart;
    var first := if added then u else Date(Year(u), Month(u), Day(u), 0, 0, 0);
    MidnightBefore(u);
    NextDay(first);
    var v := (DayNumber(u) + 1) * DAY;
    if added { MidnightStart(u, added, s, start); }
    DayCarry(s, u, v);
    NestedPeriods(v);
    SearchExtends(s, start, u, v, added);
  }

  lemma HourStep(s: SpecSchedule, start: int, u: int, added: bool)
    requires Searched(s, start, u, added) && MonthMatches(s, u) && DayMatches(s, u) && !HourMatches(s, u)
    ensures var first := if added then u else Date(Year(u), Month(u), Day(u), Hour(u), 0, 0);
            var v := first + HOUR;
            && u < v && Searched(s, start, v, true)
            && (Hour(v) == 0 || (MonthMatches(s, v) && DayMatches(s, v) && Year(v) == Year(u)))
  {
    hide Matches, MonthMatches, DayMatches, HourMatches, MinuteMatches, MonthIndex, Date, AddDate, Day;
    MidnightBefore(u);
    var v := (u / HOUR + 1) * HOUR;
    HourCarry(s, u, v);
    if Hour(v) != 0 { SameDay(s, u, v); }
    SearchExtends(s, start, u, v, added);
  }

  lemma MinuteStep(s: SpecSchedule, start: int, u: int, added: bool)
    requires Searched(s, start, u, added) && MonthMatches(s, u) && DayMatches(s, u) && HourMatches(s, u)
    requires !MinuteMatches(s, u)
    ensures var first := if added then u else Truncate(u, MINUTE);
            var v := first + MINUTE;
            && u < v && Searched(s, start, v, true)
            && (Minute(v) == 0 ||
                (MonthMatches(s, v) && DayMatches(s, v) && HourMatches(s, v) && Year(v) == Year(u)))
  {
    hide Matches, MonthMatches, DayMatches, HourMatches, MinuteMatches, MonthIndex, Day;
    var v := (u / MINUTE + 1) * MINUTE;
    MinuteCarry(s, u, v);
    if Minute(v) != 0 {
      SameHour(s, u, v);
      SameDay(s, u, v);
    }
    SearchExtends(s, start, u, v, added);
  }

  lemma SecondStep(s: SpecSchedule, start: int, u: int, added: bool)
    requires Searched(s, start, u, added) && MonthMatches(s, u) && DayMatches(s, u) && HourMatches(s, u)
    requires MinuteMatches(s, u) && !SecondMatches(s, u)
    ensures var v := Truncate(u, 1) + 1;
            && Truncate(u, 1) == u && Searched(s, start, v, true)
            && (Second(v) == 0 ||
                (MonthMatches(s, v) && DayMatches(s, v) && HourMatches(s, v) && MinuteMatches(s, v) && Year(v) ==
                    Year(u)))
  {
    hide Matches, MonthMatches, DayMatches, HourMatches, MinuteMatches, SecondMatches, MonthIndex, Day;
    var v := u + 1;
    SecondCarry(s, u, v);
    if Second(v) != 0 {
      SameMinute(s, u, v);
      SameHour(s, u, v);
      SameDay(s, u, v);
    }
    SearchExtends(s, start, u, v, added);
  }

  lemma SearchStarts(s: SpecSchedule, start: int)
    ensures Searched(s, start, start, false)
  {
  }

  /** A search that stops within the year limit at a match, or beyond it, has found what the scan finds. */
  lemma SearchEnds(s: SpecSchedule, t: int, u: int, added: bool)
    requires Searched(s, UpcomingSecond(t), u, added)
    ensures Year(u) > Year(UpcomingSecond(t)) + 5 ==> FirstActivation(s, t) == None
    ensures Year(u) <= Year(UpcomingSecond(t)) + 5 && Matches(s, u) ==> FirstActivation(s, t) == Some(u * NANO)
    ensures Year(u) <= Year(UpcomingSecond(t)) + 5 <==> u < Horizon(t)
  {
    hide Matches, Aligned, Year, YearEnd;
    var start := UpcomingSecond(t);
    YearBound(u, Year(start) + 5);
    YearBound(start, Year(start) + 5);
    ScanSkips(s, start, if u < Horizon(t) then u else Horizon(t), Horizon(t));
  }

  method Next(s: SpecSchedule, t: int) returns (r: Option<int>)
    ensures r == FirstActivation(s, t)
  {
    hide Searched, FirstActivation, Horizon, Truncate, Date, AddDate, MonthNumber, Year, Month, Day, Hour, Minute,
        Second;
    hide MonthMatches, DayMatches, HourMatches, MinuteMatches, SecondMatches;
    // Start at the upcoming second.
    var u := (t + NANO - t % NANO) / NANO;
    assert u == UpcomingSecond(t);
    ghost var start := u;
    SearchStarts(s, u);
    var added := false;
    var yearLimit := Year(u) + 5;
    label WRAP:
    while true
      invariant Searched(s, start, u, added)
      decreases Horizon(t) - u
    {
      SearchEnds(s, t, u, added);
      if Year(u) > yearLimit {
        return None;
      }
      ghost var head := u;
      while !MonthMatches(s, u)
        invariant head <= u && Searched(s, start, u, added) && Year(u) <= yearLimit
        decreases Horizon(t) - u
      {
        SearchEnds(s, t, u, added);
        MonthStep(s, start, u, added);
        if !added {
          added := true;
          u := Date(Year(u), Month(u), 1, 0, 0, 0);
        }
        u := AddDate(u, 0, 1, 0);
        if Month(u) == 1 {
          continue WRAP;
        }
      }
      while !DayMatches(s, u)
        invariant head <= u && Searched(s, start, u, added) && Year(u) <= yearLimit
        invariant MonthMatches(s, u)
        decreases Horizon(t) - u
      {
        SearchEnds(s, t, u, added);
        DayStep(s, start, u, added);
        if !added {
          added := true;
          u := Date(Year(u), Month(u), Day(u), 0, 0, 0);
        }
        u := AddDate(u, 0, 0, 1);
        assert Hour(u) == 0; // in UTC the daylight-saving correction never applies
        if Day(u) == 1 {
          continue WRAP;
        }
      }
      while !HourMatches(s, u)
        invariant head <= u && Searched(s, start, u, added) && Year(u) <= yearLimit
        invariant MonthMatches(s, u) && DayMatches(s, u)
        decreases Horizon(t) - u
      {
        SearchEnds(s, t, u, added);
        HourStep(s, start, u, added);
        if !added {
          added := true;
          u := Date(Year(u), Month(u), Day(u), Hour(u), 0, 0);
        }
        u := u + HOUR;
        if Hour(u) == 0 {
          continue WRAP;
        }
      }
      while !MinuteMatches(s, u)
        invariant head <= u && Searched(s, start, u, added) && Year(u) <= yearLimit
        invariant MonthMatches(s, u) && DayMatches(s, u) && HourMatches(s, u)
        decreases Horizon(t) - u
      {
        SearchEnds(s, t, u, added);
        MinuteStep(s, start, u, added);
        if !added {
          added := true;
          u := Truncate(u, MINUTE);
        }
        u := u + MINUTE;
        if Minute(u) == 0 {
          continue WRAP;
        }
      }
      while !SecondMatches(s, u)
        invariant head <= u && Searched(s, start, u, added) && Year(u) <= yearLimit
        invariant MonthMatches(s, u) && DayMatches(s, u) && HourMatches(s, u) && MinuteMatches(s, u)
        decreases Horizon(t) - u
      {
        SearchEnds(s, t, u, added);
        SecondStep(s, start, u, added);
        if !added {
          added := true;
          u := Truncate(u, 1);
        }
        u := u + 1;
        if Second(u) == 0 {
          continue WRAP;
        }
      }
      SearchEnds(s, t, u, added);
      return Some(u * NANO);
    }
  }
}
