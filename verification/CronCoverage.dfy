/**
 Which schedules the calendar search can miss. Parsing only makes schedules whose day fields are full
 when they have the star bit; of these, `Next` gives up too early only on those of 29 February.
 */
module CronCoverage {
  import opened Wrappers
  import opened Calendar
  import opened Word64
  import opened CronSpec

  // ---------- Shape ----------

  predicate FullIfStarred(w: Word, low: nat, high: nat) {
    STAR_BIT in w ==> forall i: nat | low <= i <= high :: i in w
  }

  /** What parsing makes of the day fields. */
  predicate Shaped(s: SpecSchedule) {
    FullIfStarred(s.dom, 1, 31) && FullIfStarred(s.dow, 0, 6)
  }

  /** The day of the month alone can admit a day. */
  predicate ByDate(s: SpecSchedule) {
    STAR_BIT in s.dow || STAR_BIT !in s.dom
  }

  /** The weekday alone can admit a day. */
  predicate ByWeekday(s: SpecSchedule) {
    STAR_BIT !in s.dow && HasBelow(s.dow, 7)
  }

  predicate HasBelow(w: Word, n: nat) {
    exists i <- w :: i < n
  }

  lemma DayRule(s: SpecSchedule, u: int)
    requires Shaped(s)
    ensures DayMatches(s, u) <==> (ByDate(s) && Day(u) in s.dom) || (ByWeekday(s) && Weekday(u) in s.dow)
  {
    hide Day, Weekday, Has;
    HasIsMembership(s.dom, Day(u));
    HasIsMembership(s.dom, STAR_BIT);
    HasIsMembership(s.dow, Weekday(u));
    HasIsMembership(s.dow, STAR_BIT);
  }

  // ---------- What can match ----------

  predicate HasTime(s: SpecSchedule) {
    HasBelow(s.hour, 24) && HasBelow(s.minute, 60) && HasBelow(s.second, 60)
  }

  predicate HasMonth(s: SpecSchedule) {
    exists m <- s.month :: 1 <= m <= 12
  }

  /** Some month of the schedule has some day of it, in leap years or in others. */
  predicate HasDate(s: SpecSchedule, leap: bool) {
    exists m <- s.month, d <- s.dom :: 1 <= m <= 12 && 1 <= d <= DaysInMonth(m, leap)
  }

  /** Some instant matches, told from the fields. */
  predicate Satisfiable(s: SpecSchedule) {
    Possible(s, true)
  }

  /** Some instant of every leap year, or of every other year, matches. */
  predicate Possible(s: SpecSchedule, leap: bool) {
    HasTime(s) && HasMonth(s) && (ByWeekday(s) || (ByDate(s) && HasDate(s, leap)))
  }

  /** February is the only month, 29 the first day, and no weekday is an alternative. */
  predicate OnlyLeapDay(s: SpecSchedule) {
    && ByDate(s) && !ByWeekday(s)
    && (forall m: nat | 1 <= m <= 12 :: m in s.month <==> m == 2)
    && 29 in s.dom && forall d: nat | 1 <= d <= 28 :: d !in s.dom
  }

  /** What can match at all matches in every year, unless it is 29 February. */
  lemma PossibleEveryYear(s: SpecSchedule)
    requires Satisfiable(s) && !OnlyLeapDay(s)
    ensures Possible(s, false)
  {
    if !ByWeekday(s) {
      var m: nat, d: nat :| m in s.month && d in s.dom && 1 <= m <= 12 && 1 <= d <= DaysInMonth(m, true);
      if d > DaysInMonth(m, false) {
        assert m == 2 && d == 29;
        if n: nat :| 1 <= n <= 12 && n in s.month && n != 2 {
          assert d <= DaysInMonth(n, false);
        } else {
          var e: nat :| 1 <= e <= 28 && e in s.dom;
          assert e <= DaysInMonth(m, false);
        }
      }
    }
  }

  lemma MatchesByFields(s: SpecSchedule, u: int)
    requires Shaped(s)
    ensures Matches(s, u) <==>
            && Month(u) in s.month && Hour(u) in s.hour && Minute(u) in s.minute && Second(u) in s.second
            && ((ByDate(s) && Day(u) in s.dom) || (ByWeekday(s) && Weekday(u) in s.dow))
  {
    hide Month, Day, Weekday, Hour, Minute, Second, Has, DayMatches, ByDate, ByWeekday;
    HasIsMembership(s.month, Month(u));
    HasIsMembership(s.hour, Hour(u));
    HasIsMembership(s.minute, Minute(u));
    HasIsMembership(s.second, Second(u));
    DayRule(s, u);
  }

  lemma DayInMonth(u: int)
    ensures 1 <= Day(u) <= DaysInMonth(Month(u), IsLeap(Year(u)))
  {
    hide MonthStart, MonthIndex;
    MonthLength(MonthNumber(u));
  }

  /** An instant that matches shows the schedule possible in years like its own. */
  lemma MatchIsPossible(s: SpecSchedule, u: int)
    requires Shaped(s) && Matches(s, u)
    ensures Possible(s, IsLeap(Year(u))) && Satisfiable(s)
  {
    hide Month, Day, Weekday, Hour, Minute, Second, Year, IsLeap, Matches, Shaped, ByDate, ByWeekday;
    MatchesByFields(s, u);
    DayInMonth(u);
    assert Day(u) <= DaysInMonth(Month(u), true);
  }

  /** The first day of a month with a weekday is one of its first seven. */
  lemma WeekdayInMonth(y: int, m: int, w: nat, hour: int, minute: int, second: int) returns (d: int)
    requires 1 <= m <= 12 && w <= 6 && 0 <= hour < 24 && 0 <= minute < 60 && 0 <= second < 60
    ensures 1 <= d <= 7 && Weekday(Date(y, m, d, hour, minute, second)) == w
  {
    hide MonthStart;
    var first := MonthStart(12 * y + m - 1);
    d := (w - first - 6) % 7 + 1;
    ClockFields(first + d - 1, hour, minute, second);
    assert (first + d - 1 + 6) % 7 == w;
  }

  lemma MonthOfYear(y: int, m: int)
    requires 1 <= m <= 12
    ensures MonthStart(12 * y + m) - MonthStart(12 * y + m - 1) == DaysInMonth(m, IsLeap(y))
  {
    hide MonthStart, IsLeap;
    var idx := 12 * y + m - 1;
    assert idx / 12 == y && idx % 12 == m - 1;
    MonthLength(idx);
  }

  /** A schedule that is possible in years like `y` matches in `y`. */
  lemma MatchInYear(s: SpecSchedule, y: int) returns (u: int)
    requires Shaped(s) && Possible(s, IsLeap(y))
    ensures Year(u) == y && Matches(s, u)
  {
    hide Month, Day, Weekday, Hour, Minute, Second, Year, IsLeap, Matches, Date, MonthStart, Shaped, ByDate;
    var h: nat :| h in s.hour && h < 24;
    var i: nat :| i in s.minute && i < 60;
    var j: nat :| j in s.second && j < 60;
    var m: nat, d: int;
    if ByWeekday(s) {
      m :| m in s.month && 1 <= m <= 12;
      var w: nat :| w in s.dow && w < 7;
      d := WeekdayInMonth(y, m, w, h, i, j);
    } else {
      var e: nat;
      m, e :| m in s.month && e in s.dom && 1 <= m <= 12 && 1 <= e <= DaysInMonth(m, IsLeap(y));
      d := e;
    }
    u := Date(y, m, d, h, i, j);
    MonthOfYear(y, m);
    FieldsOfDate(y, m, d, h, i, j);
    MatchesByFields(s, u);
  }

  lemma SatisfiableInLeapYears(s: SpecSchedule, y: int)
    requires Satisfiable(s) && IsLeap(y)
    ensures Possible(s, IsLeap(y))
  {
  }

  /** Some instant matches exactly when a time, a month and a day are possible; otherwise `Next` always answers zero. */
  lemma NeverMatches(s: SpecSchedule)
    requires Shaped(s)
    ensures (forall u :: !Matches(s, u)) <==> !Satisfiable(s)
  {
    hide Matches, Shaped, Satisfiable, Possible;
    if Satisfiable(s) {
      SatisfiableInLeapYears(s, 0);
      var u := MatchInYear(s, 0);
    }
    forall u | Matches(s, u) ensures Satisfiable(s) { MatchIsPossible(s, u); }
  }

  // ---------- The limit of five years ----------

  /** A match in one of the five years after the one in which the search starts is found. */
  lemma FoundWithinLimit(s: SpecSchedule, t: int, u: int)
    requires Matches(s, u) && UpcomingSecond(t) <= u && Year(u) <= Year(UpcomingSecond(t)) + 5
    ensures FirstActivation(s, t).Some?
  {
    hide Matches, Year, YearEnd;
    ScanIsFirst(s, UpcomingSecond(t), Horizon(t));
    YearBound(u, Year(UpcomingSecond(t)) + 5);
  }

  lemma LaterYear(u: int, v: int)
    requires Year(u) < Year(v)
    ensures u < v
  {
    hide Year, YearEnd;
    YearBound(u, Year(u));
    YearBound(v, Year(u));
  }

  /** Every schedule that can match at all, and not only on 29 February, is always activated again. */
  lemma NextIsFound(s: SpecSchedule, t: int)
    requires Shaped(s) && Satisfiable(s) && !OnlyLeapDay(s)
    ensures FirstActivation(s, t).Some?
  {
    hide Matches, Shaped, Satisfiable, Possible, OnlyLeapDay, Year;
    var y := Year(UpcomingSecond(t)) + 1;
    PossibleEveryYear(s);
    if IsLeap(y) { SatisfiableInLeapYears(s, y); }
    var u := MatchInYear(s, y);
    LaterYear(UpcomingSecond(t), u);
    FoundWithinLimit(s, t, u);
  }

  /** The greatest position below `n`. */
  function Last(w: Word, n: nat): (r: nat)
    requires HasBelow(w, n)
    ensures r in w && r < n && forall i <- w :: i < n ==> i <= r
  {
    if n - 1 in w then n - 1 else Last(w, n - 1)
  }

  /** The last activation on 29 February of a year. */
  function LastOnLeapDay(s: SpecSchedule, y: int): int
    requires HasTime(s)
  {
    Date(y, 2, 29, Last(s.hour, 24), Last(s.minute, 60), Last(s.second, 60))
  }

  /**
   The three years before a century year that is not a leap year, and the rest of the leap year before them
   once the last activation of its 29 February has passed.
   */
  predicate InGap(s: SpecSchedule, start: int)
    requires HasTime(s)
  {
    var y := Year(start);
    && y % 100 in {96, 97, 98} && (y / 100 + 1) % 4 != 0
    && (y % 100 == 96 ==> LastOnLeapDay(s, y) < start)
  }

  lemma CenturyYear(q: int, j: int)
    requires 0 <= j < 100
    ensures (100 * q + j) % 100 == j && (100 * q + j) % 4 == j % 4
    ensures j == 0 ==> ((100 * q) % 400 == 0 <==> q % 4 == 0)
  {
    assert 100 * q + j == 4 * (25 * q) + j;
    assert 100 * q == 400 * (q / 4) + 100 * (q % 4);
  }

  lemma LeapYearAhead(y: int) returns (z: int)
    requires !(y % 100 in {96, 97, 98} && (y / 100 + 1) % 4 != 0)
    ensures y < z <= y + 5 && IsLeap(z)
  {
    var c, r := y / 100, y % 100;
    if r < 96 {
      var j := r - r % 4 + 4;
      z := 100 * c + j;
      CenturyYear(c, j);
    } else if (c + 1) % 4 == 0 {
      z := 100 * (c + 1);
      CenturyYear(c + 1, 0);
    } else {
      z := 100 * (c + 1) + 4;
      CenturyYear(c + 1, 4);
    }
  }

  lemma NoLeapYearAhead(y: int, z: int)
    requires y % 100 in {96, 97, 98} && (y / 100 + 1) % 4 != 0 && y <= z <= y + 5 && IsLeap(z)
    ensures y == z && y % 100 == 96
  {
    var c, j := y / 100, y % 100 + (z - y);
    if j >= 100 {
      CenturyYear(c + 1, j - 100);
    } else {
      CenturyYear(c, j);
    }
  }

  /** A schedule of 29 February matches nothing else, and on that day nothing after its last activation. */
  lemma OnlyOnLeapDays(s: SpecSchedule, u: int)
    requires Shaped(s) && OnlyLeapDay(s) && HasTime(s) && Matches(s, u)
    ensures IsLeap(Year(u)) && u <= LastOnLeapDay(s, Year(u))
  {
    hide Month, Day, Weekday, Hour, Minute, Second, Year, IsLeap, Matches, MonthStart, Shaped, ByDate, ByWeekday;
    MatchesByFields(s, u);
    DayInMonth(u);
    DateOfFields(u);
    assert Day(u) == 29;
  }

  lemma LastMatches(s: SpecSchedule, y: int)
    requires Shaped(s) && OnlyLeapDay(s) && HasTime(s) && IsLeap(y)
    ensures Matches(s, LastOnLeapDay(s, y)) && Year(LastOnLeapDay(s, y)) == y
  {
    hide Month, Day, Weekday, Hour, Minute, Second, Year, IsLeap, Matches, MonthStart, Shaped, ByDate, ByWeekday, Date;
    MonthOfYear(y, 2);
    FieldsOfDate(y, 2, 29, Last(s.hour, 24), Last(s.minute, 60), Last(s.second, 60));
    MatchesByFields(s, LastOnLeapDay(s, y));
  }

  /** A schedule of 29 February is missed exactly in the gap. */
  lemma LeapDayIsMissed(s: SpecSchedule, t: int)
    requires Shaped(s) && Satisfiable(s) && OnlyLeapDay(s)
    ensures FirstActivation(s, t) == None <==> InGap(s, UpcomingSecond(t))
  {
    hide Matches, Shaped, Year, YearEnd, OnlyLeapDay, IsLeap, LastOnLeapDay, Scan;
    var start := UpcomingSecond(t);
    var y := Year(start);
    ScanIsFirst(s, start, Horizon(t));
    if InGap(s, start) {
      var found := Scan(s, start, Horizon(t));
      if found.Some? {
        var u := found.value;
        OnlyOnLeapDays(s, u);
        YearBound(u, y + 5);
        if Year(u) < y { LaterYear(u, start); }
        NoLeapYearAhead(y, Year(u));
        assert false;
      }
    } else if y % 100 in {96, 97, 98} && (y / 100 + 1) % 4 != 0 {
      LeapOfGap(y);
      LastMatches(s, y);
      FoundWithinLimit(s, t, LastOnLeapDay(s, y));
    } else {
      var z := LeapYearAhead(y);
      LastMatches(s, z);
      LaterYear(start, LastOnLeapDay(s, z));
      FoundWithinLimit(s, t, LastOnLeapDay(s, z));
    }
  }

  lemma LeapOfGap(y: int)
    requires y % 100 == 96
    ensures IsLeap(y)
  {
    assert y == 100 * (y / 100) + 96;
  }

  /**
   When the search answers with the zero time although a later instant matches: exactly for the schedules of
   29 February, in the gap before a century year that is not a leap year.
   */
  lemma MissedExactly(s: SpecSchedule, t: int)
    requires Shaped(s)
    ensures (FirstActivation(s, t) == None && exists u :: t < u * NANO && Matches(s, u))
            <==> Satisfiable(s) && OnlyLeapDay(s) && InGap(s, UpcomingSecond(t))
  {
    hide Matches, Shaped, Year, OnlyLeapDay, IsLeap, FirstActivation, ByDate, ByWeekday, HasTime;
    if u :| t < u * NANO && Matches(s, u) {
      MatchIsPossible(s, u);
      if OnlyLeapDay(s) { LeapDayIsMissed(s, t); } else { NextIsFound(s, t); }
    }
    if Satisfiable(s) && OnlyLeapDay(s) && InGap(s, UpcomingSecond(t)) {
      LeapDayIsMissed(s, t);
      var y := 400 * (Year(UpcomingSecond(t)) / 400 + 1);
      FourCenturies(y);
      SatisfiableInLeapYears(s, y);
      var u := MatchInYear(s, y);
      LaterYear(UpcomingSecond(t), u);
      assert t < u * NANO;
    }
  }

  lemma FourCenturies(y: int)
    requires y % 400 == 0
    ensures IsLeap(y)
  {
    assert y == 400 * (y / 400);
  }

  // ---------- Without the shape ----------

  /** Friday 13 August, with a star bit that no parsed weekday field has. */
  const FRIDAY_13_AUGUST := SpecSchedule({0}, {0}, {0}, {13}, {8}, {5, STAR_BIT})

  lemma ThirteenthOfAugust(u: int)
    requires Month(u) == 8 && Day(u) == 13
    ensures Weekday(u) == (YearStart(Year(u)) + DaysBeforeMonth(8, IsLeap(Year(u))) + 18) % 7
  {
    hide MonthIndex, YearStart, IsLeap, DaysBeforeMonth;
    var idx := MonthNumber(u);
    assert idx == 12 * Year(u) + 7;
    assert idx / 12 == Year(u) && idx % 12 == 7;
    assert DayNumber(u) == MonthStart(idx) + 12;
  }

  lemma FridayMatches(u: int)
    ensures Matches(FRIDAY_13_AUGUST, u) <==>
            Month(u) == 8 && Day(u) == 13 && Weekday(u) == 5 && Hour(u) == 0 && Minute(u) == 0 && Second(u) == 0
  {
    hide Month, Day, Weekday, Hour, Minute, Second, Has;
    var s := FRIDAY_13_AUGUST;
    HasIsMembership(s.month, Month(u));
    HasIsMembership(s.dom, Day(u));
    HasIsMembership(s.dom, STAR_BIT);
    HasIsMembership(s.dow, Weekday(u));
    HasIsMembership(s.dow, STAR_BIT);
    HasIsMembership(s.hour, Hour(u));
    HasIsMembership(s.minute, Minute(u));
    HasIsMembership(s.second, Second(u));
  }

  /** The shape matters: this schedule is missed without any leap day. */
  lemma ShapeMatters()
    ensures !Shaped(FRIDAY_13_AUGUST)
    ensures FirstActivation(FRIDAY_13_AUGUST, Date(2011, 1, 1, 0, 0, 0) * NANO) == None
    ensures Matches(FRIDAY_13_AUGUST, Date(2021, 8, 13, 0, 0, 0))
  {
    hide MonthIndex, Day, Month, Year, Weekday, YearEnd, Matches, Scan, Hour, Minute, Second, MonthStart;
    var s, t := FRIDAY_13_AUGUST, Date(2011, 1, 1, 0, 0, 0) * NANO;
    var start := UpcomingSecond(t);
    assert start == Date(2011, 1, 1, 0, 0, 1);
    assert !FullIfStarred(s.dow, 0, 6) by { assert 0 !in s.dow; }
    MonthOfYear(2011, 1);
    FieldsOfDate(2011, 1, 1, 0, 0, 1);
    ScanIsFirst(s, start, Horizon(t));
    var found := Scan(s, start, Horizon(t));
    if found.Some? {
      var u := found.value;
      YearBound(u, 2016);
      if Year(u) < 2011 { LaterYear(u, start); }
      FridayMatches(u);
      ThirteenthOfAugust(u);
      NoFriday(Year(u));
    }
    MonthOfYear(2021, 8);
    FieldsOfDate(2021, 8, 13, 0, 0, 0);
    ThirteenthOfAugust(Date(2021, 8, 13, 0, 0, 0));
    FridayMatches(Date(2021, 8, 13, 0, 0, 0));
  }

  /** An empty day of the month leaves the decision to the weekday: this is every Friday of August. */
  lemma EmptyDayFieldMatches()
    ensures var s := SpecSchedule({0}, {0}, {0}, {}, {8}, {5});
            Shaped(s) && !OnlyLeapDay(s) && Satisfiable(s) && Matches(s, Date(2021, 8, 13, 0, 0, 0))
  {
    hide MonthIndex, Day, Month, Year, Weekday, Matches, Hour, Minute, Second, MonthStart;
    var s, u := SpecSchedule({0}, {0}, {0}, {}, {8}, {5}), Date(2021, 8, 13, 0, 0, 0);
    MonthOfYear(2021, 8);
    FieldsOfDate(2021, 8, 13, 0, 0, 0);
    ThirteenthOfAugust(u);
    assert HasBelow(s.dow, 7) by { assert 5 in s.dow; }
    MatchesByFields(s, u);
    MatchIsPossible(s, u);
  }

  lemma NoFriday(y: int)
    requires 2011 <= y <= 2016
    ensures (YearStart(y) + DaysBeforeMonth(8, IsLeap(y)) + 18) % 7 != 5
  {
    assert y == 2011 || y == 2012 || y == 2013 || y == 2014 || y == 2015 || y == 2016;
  }
}
