/** `Parser.Parse` of `plugin/cron/parser.go`: from the fields of a crontab line to the instants it means. */
module CronLine {
  import opened Wrappers
  import opened Text
  import opened Word64
  import opened CronParser
  import C = Calendar
  import opened CronSpec
  import opened CronCoverage

  datatype LineError = BadLine(reason: NormalizeError) | BadField(error: ParseError)

  /** What `NormalizeFields` makes of the given fields: the completed ones at their places, defaults elsewhere. */
  predicate Expands(fields: seq<string>, options: set<ParseOption>, line: seq<string>) {
    && |line| == |PLACES|
    && Selected(line, Effective(options), |PLACES|) == Completed(fields, options)
    && forall i | 0 <= i < |PLACES| :: PLACES[i] !in Effective(options) ==> line[i] == DEFAULTS[i]
  }

  const BOUNDS := [SECONDS, MINUTES, HOURS, DOM, MONTHS, DOW]

  function FieldBits(line: seq<string>, i: nat): (Word, Option<ParseError>)
    requires i < |line| == 6
  {
    FieldWord(Pieces(line[i]), BOUNDS[i])
  }

  function FirstError(line: seq<string>, n: nat): Option<ParseError>
    requires n <= |line| == 6
  {
    if n == 0 then None
    else if FirstError(line, n - 1).Some? then FirstError(line, n - 1)
    else FieldBits(line, n - 1).1
  }

  function ScheduleOf(line: seq<string>): SpecSchedule
    requires |line| == 6
  {
    SpecSchedule(FieldBits(line, 0).0, FieldBits(line, 1).0, FieldBits(line, 2).0,
                 FieldBits(line, 3).0, FieldBits(line, 4).0, FieldBits(line, 5).0)
  }

  /** The closure of `Parse`: after an error no further field is read. */
  method ReadField(field: string, b: Bounds, err: Option<ParseError>) returns (bits: Word, err': Option<ParseError>)
    requires b.max < WIDTH - 1
    ensures err.Some? ==> err' == err
    ensures err.None? ==> (bits, err') == FieldWord(Pieces(field), b)
  {
    if err.Some? {
      return {}, err;
    }
    bits, err' := GetField(field, b);
  }

  /** The schedule of a line that has been split at white space. */
  method Parse(fields: seq<string>, options: set<ParseOption>)
    returns (r: Result<SpecSchedule, LineError>, ghost line: seq<string>)
    ensures r.Err? && r.error.BadField? ==> Expands(fields, options, line) && FirstError(line, 6) == Some(r.error.error)
    ensures r.Ok? ==> Expands(fields, options, line) && FirstError(line, 6) == None && r.value == ScheduleOf(line)
    ensures r.Err? && r.error.BadLine? <==>
              || (SecondOptional in options && DowOptional in options)
              || |fields| > FullCount(options)
              || |fields| < FullCount(options) - if SecondOptional in options || DowOptional in options then 1 else 0
  {
    hide FieldWord, Selected, Completed, Effective, Pieces;
    var expanded := NormalizeFields(fields, options);
    line := [];
    if expanded.Err? {
      return Err(BadLine(expanded.error)), line;
    }
    line := expanded.value;
    var err: Option<ParseError> := None;
    var second, minute, hour, dayofmonth, month, dayofweek: Word;
    second, err := ReadField(expanded.value[0], SECONDS, err);
    assert FirstError(line, 1) == err;
    minute, err := ReadField(expanded.value[1], MINUTES, err);
    assert FirstError(line, 2) == err;
    hour, err := ReadField(expanded.value[2], HOURS, err);
    assert FirstError(line, 3) == err;
    dayofmonth, err := ReadField(expanded.value[3], DOM, err);
    assert FirstError(line, 4) == err;
    month, err := ReadField(expanded.value[4], MONTHS, err);
    assert FirstError(line, 5) == err;
    dayofweek, err := ReadField(expanded.value[5], DOW, err);
    assert FirstError(line, 6) == err;
    if err.Some? {
      return Err(BadField(err.value)), line;
    }
    return Ok(SpecSchedule(second, minute, hour, dayofmonth, month, dayofweek)), line;
  }

  // ---------- Which lines are never activated, and which are missed ----------

  lemma {:induction false} EveryFieldAccepted(line: seq<string>, n: nat, i: nat)
    requires i < n <= |line| == 6 && FirstError(line, n) == None
    ensures FieldBits(line, i).1 == None
  {
    hide FieldBits;
    if i < n - 1 {
      EveryFieldAccepted(line, n - 1, i);
    }
  }

  /** Every accepted line has a schedule whose starred fields are full. */
  lemma LineShaped(line: seq<string>)
    requires |line| == 6 && FirstError(line, 6) == None
    ensures Shaped(ScheduleOf(line))
  {
    hide FieldWord, Pieces;
    EveryFieldAccepted(line, 6, 3);
    EveryFieldAccepted(line, 6, 5);
    var s := ScheduleOf(line);
    forall i: nat | STAR_BIT in s.dom && 1 <= i <= 31 ensures i in s.dom { StarFieldIsFull(Pieces(line[3]), DOM, i); }
    forall i: nat | STAR_BIT in s.dow && 0 <= i <= 6 ensures i in s.dow { StarFieldIsFull(Pieces(line[5]), DOW, i); }
  }

  /** In an accepted line a field holds one of its values exactly when it has a range. */
  lemma FieldHasValue(line: seq<string>, i: nat)
    requires i < |line| == 6 && FirstError(line, 6) == None
    ensures HasBelow(FieldBits(line, i).0, BOUNDS[i].max + 1) <==> Pieces(line[i]) != []
  {
    hide FieldWord, Pieces;
    EveryFieldAccepted(line, 6, i);
    CrontabNames();
    EmptyField(Pieces(line[i]), BOUNDS[i]);
  }

  lemma MonthHasValue(line: seq<string>)
    requires |line| == 6 && FirstError(line, 6) == None
    ensures HasMonth(ScheduleOf(line)) <==> Pieces(line[4]) != []
  {
    hide FieldWord, Pieces;
    EveryFieldAccepted(line, 6, 4);
    EmptyField(Pieces(line[4]), MONTHS);
  }

  /**
   The day fields admit no day: with a star in the weekday field, no date of the line exists; with an empty
   weekday field, the day of the month is a star or no date exists; a weekday can always be met.
   */
  predicate NoDay(s: SpecSchedule, weekdayEmpty: bool) {
    if STAR_BIT in s.dow then !HasDate(s, true)
    else weekdayEmpty && (STAR_BIT in s.dom || !HasDate(s, true))
  }

  /** An accepted line is never activated exactly when a time or month field is empty or no day is admitted. */
  lemma LineNeverMatches(line: seq<string>)
    requires |line| == 6 && FirstError(line, 6) == None
    ensures (forall u :: !Matches(ScheduleOf(line), u)) <==>
            || Pieces(line[0]) == [] || Pieces(line[1]) == [] || Pieces(line[2]) == [] || Pieces(line[4]) == []
            || NoDay(ScheduleOf(line), Pieces(line[5]) == [])
  {
    hide FieldWord, Pieces, Matches, Shaped, HasDate, HasMonth, HasBelow;
    LineShaped(line);
    NeverMatches(ScheduleOf(line));
    FieldHasValue(line, 0);
    FieldHasValue(line, 1);
    FieldHasValue(line, 2);
    MonthHasValue(line);
    FieldHasValue(line, 5);
  }

  /** An empty day-of-month field admits no date, and alone it keeps no line from being activated. */
  lemma EmptyDayOfMonth(line: seq<string>)
    requires |line| == 6 && FirstError(line, 6) == None && Pieces(line[3]) == []
    ensures NoDay(ScheduleOf(line), Pieces(line[5]) == []) <==>
        STAR_BIT in ScheduleOf(line).dow || Pieces(line[5]) == []
  {
    EveryFieldAccepted(line, 6, 3);
    EmptyField(Pieces(line[3]), DOM);
  }

  /** The lines that are missed although they match later: those of 29 February, in the gap. */
  lemma LineMissed(line: seq<string>, t: int)
    requires |line| == 6 && FirstError(line, 6) == None
    ensures var s := ScheduleOf(line);
            (FirstActivation(s, t) == None && exists u :: t < u * NANO && Matches(s, u))
            <==> Satisfiable(s) && OnlyLeapDay(s) && InGap(s, UpcomingSecond(t))
  {
    hide FieldBits, Matches, Shaped, FirstActivation, OnlyLeapDay, InGap;
    LineShaped(line);
    MissedExactly(ScheduleOf(line), t);
  }

  // ---------- Crontab lines ----------

  /** The standard parser: five fields, and the second is zero. */
  const STANDARD: set<ParseOption> := {Minute, Hour, Dom, Month, Dow, Descriptor}

  lemma StandardLine(fields: seq<string>, line: seq<string>)
    requires |fields| == 5 && Expands(fields, STANDARD, line)
    ensures line == ["0"] + fields
  {
    assert Selected(line, STANDARD, 6) == [line[1], line[2], line[3], line[4], line[5]] by {
      SelectedStep(line, STANDARD, 0);
      SelectedStep(line, STANDARD, 1);
      SelectedStep(line, STANDARD, 2);
      SelectedStep(line, STANDARD, 3);
      SelectedStep(line, STANDARD, 4);
      SelectedStep(line, STANDARD, 5);
    }
  }

  /** The parser of `WithSeconds`: six fields in their order. */
  lemma LineWithSeconds(fields: seq<string>, line: seq<string>)
    requires |fields| == 6 && Expands(fields, {Second, Minute, Hour, Dom, Month, Dow, Descriptor}, line)
    ensures line == fields
  {
    var options := {Second, Minute, Hour, Dom, Month, Dow, Descriptor};
    assert Rank(options, 1) == 1 && Rank(options, 2) == 2 && Rank(options, 3) == 3;
    assert Rank(options, 4) == 4 && Rank(options, 5) == 5 && Rank(options, 6) == 6;
    forall i: nat | i < 6 ensures line[i] == fields[i] {
      ExpandedPlaces(line, Completed(fields, options), options, i);
    }
  }

  /** A missing optional second is 0. */
  lemma OptionalSecond(fields: seq<string>, line: seq<string>)
    requires 5 <= |fields| <= 6 && Expands(fields, {SecondOptional, Minute, Hour, Dom, Month, Dow}, line)
    ensures line == if |fields| == 5 then ["0"] + fields else fields
  {
    var options := {SecondOptional, Minute, Hour, Dom, Month, Dow};
    assert Rank(options, 1) == 1 && Rank(options, 2) == 2 && Rank(options, 3) == 3;
    assert Rank(options, 4) == 4 && Rank(options, 5) == 5 && Rank(options, 6) == 6;
    forall i: nat | i < 6 ensures line[i] == (if |fields| == 5 then ["0"] + fields else fields)[i] {
      ExpandedPlaces(line, Completed(fields, options), options, i);
    }
  }

  /** A missing optional weekday is a star, and the clock fields that are not asked for are 0. */
  lemma OptionalWeekday(fields: seq<string>, line: seq<string>)
    requires 2 <= |fields| <= 3 && Expands(fields, {Dom, Month, DowOptional}, line)
    ensures line == ["0", "0", "0"] + if |fields| == 2 then fields + ["*"] else fields
  {
    var options := {Dom, Month, DowOptional};
    assert Rank(options, 1) == 0 && Rank(options, 2) == 0 && Rank(options, 3) == 0;
    assert Rank(options, 4) == 1 && Rank(options, 5) == 2 && Rank(options, 6) == 3;
    forall i: nat | i < 6
      ensures line[i] == (["0", "0", "0"] + if |fields| == 2 then fields + ["*"] else fields)[i]
    {
      ExpandedPlaces(line, Completed(fields, options), options, i);
    }
  }

  /** A crontab line in the documented notation, with a list of ranges in every field. */
  datatype Crontab = Crontab(
    minute: seq<RangeText>, hour: seq<RangeText>, dom: seq<RangeText>, month: seq<RangeText>, dow: seq<RangeText>)

  /** The fields of the line as text. */
  function Fields(c: Crontab): seq<string> {
    [Join(ShowAll(c.minute), ','), Join(ShowAll(c.hour), ','), Join(ShowAll(c.dom), ','),
     Join(ShowAll(c.month), ','), Join(ShowAll(c.dow), ',')]
  }

  predicate InBounds(ts: seq<RangeText>, b: Bounds) {
    ts != [] && forall t <- ts :: WellWritten(t, b)
  }

  predicate ValidLine(c: Crontab) {
    && InBounds(c.minute, MINUTES) && InBounds(c.hour, HOURS)
    && InBounds(c.dom, DOM) && InBounds(c.month, MONTHS) && InBounds(c.dow, DOW)
  }

  /** One of the ranges denotes the value. */
  predicate Among(ts: seq<RangeText>, b: Bounds, i: nat)
    requires InBounds(ts, b)
  {
    exists t <- ts :: Meaning(t, b).Denotes(i)
  }

  /** One of the ranges is a star with a step of one. */
  predicate Starred(ts: seq<RangeText>, b: Bounds)
    requires InBounds(ts, b)
  {
    exists t <- ts :: Meaning(t, b).star
  }

  /** What a line says of an instant: the day fields are alternatives, unless one of them is a star. */
  predicate LineMatches(c: Crontab, u: int)
    requires ValidLine(c)
  {
    && Among(c.month, MONTHS, C.Month(u))
    && (var d, w := Among(c.dom, DOM, C.Day(u)), Among(c.dow, DOW, C.Weekday(u));
        if Starred(c.dom, DOM) || Starred(c.dow, DOW) then d && w else d || w)
    && Among(c.hour, HOURS, C.Hour(u)) && Among(c.minute, MINUTES, C.Minute(u)) && C.Second(u) == 0
  }

  lemma FieldRead(ts: seq<RangeText>, b: Bounds)
    requires InBounds(ts, b) && NamesAreWords(b) && b.max < WIDTH - 1
    ensures var (bits, err) := FieldWord(Pieces(Join(ShowAll(ts), ',')), b);
            && err == None && (STAR_BIT in bits <==> Starred(ts, b))
            && forall i: nat | i != STAR_BIT :: i in bits <==> Among(ts, b, i)
  {
    hide FieldWord, Pieces, Join, ShowAll, Meaning;
    WrittenField(ts, b);
    forall t <- ts ensures !Meaning(t, b).Denotes(STAR_BIT) {
      assert Meaning(t, b).Valid(b);
    }
    forall t <- ts, i: nat ensures Means(t, b, i) == if i ==
        STAR_BIT then Meaning(t, b).star else Meaning(t, b).Denotes(i) {
    }
  }

  lemma ZeroSecond()
    ensures Join(ShowAll([RangeText(Single(Number(0)), None)]), ',') == "0"
    ensures InBounds([RangeText(Single(Number(0)), None)], SECONDS)
    ensures forall i: nat :: Among([RangeText(Single(Number(0)), None)], SECONDS, i) <==> i == 0
  {
    var t := RangeText(Single(Number(0)), None);
    assert Meaning(t, SECONDS) == Range(0, 0, 1, false);
    assert t in [t];
    assert Decimal(0) == "0" && Show(t) == "0";
    assert ShowAll([t])[0] == "0";
  }

  /** From text to time: the schedule parsed from a written line matches the instants the line means. */
  lemma LineMeaning(c: Crontab, u: int)
    requires ValidLine(c)
    ensures var line := ["0"] + Fields(c);
            FirstError(line, 6) == None && (Matches(ScheduleOf(line), u) <==> LineMatches(c, u))
  {
    hide FieldWord, Pieces, Join, ShowAll, Among, Starred, InBounds, Has;
    hide C.Month, C.Day, C.Weekday, C.Hour, C.Minute, C.Second;
    CrontabNames();
    ZeroSecond();
    var line, zero := ["0"] + Fields(c), [RangeText(Single(Number(0)), None)];
    FieldRead(zero, SECONDS);
    FieldRead(c.minute, MINUTES);
    FieldRead(c.hour, HOURS);
    FieldRead(c.dom, DOM);
    FieldRead(c.month, MONTHS);
    FieldRead(c.dow, DOW);
    NoErrors(line);
    var s := ScheduleOf(line);
    HasIsMembership(s.second, C.Second(u));
    HasIsMembership(s.minute, C.Minute(u));
    HasIsMembership(s.hour, C.Hour(u));
    HasIsMembership(s.dom, C.Day(u));
    HasIsMembership(s.dom, STAR_BIT);
    HasIsMembership(s.month, C.Month(u));
    HasIsMembership(s.dow, C.Weekday(u));
    HasIsMembership(s.dow, STAR_BIT);
  }

  // ---------- Names and bounds ----------

  /** A name standing alone in its field. */
  function Alone(text: string): seq<RangeText> {
    [RangeText(Single(Name(text)), None)]
  }

  /** Two names with a hyphen between them. */
  function Through(first: string, last: string): seq<RangeText> {
    [RangeText(Span(Name(first), Name(last)), None)]
  }

  lemma RangeAmong(t: RangeText, b: Bounds, v: nat)
    requires WellWritten(t, b)
    ensures InBounds([t], b) && (Among([t], b, v) <==> Meaning(t, b).Denotes(v))
    ensures Starred([t], b) <==> Meaning(t, b).star
  {
    assert t in [t];
  }

  /** The months from one name to another. */
  lemma MonthsByName(first: string, i: nat, last: string, j: nat, v: nat)
    requires i <= j < 12 && InAnyCase(first, MONTH_NAMES[i]) && InAnyCase(last, MONTH_NAMES[j])
    ensures InBounds(Alone(first), MONTHS) && InBounds(Through(first, last), MONTHS)
    ensures Among(Alone(first), MONTHS, v) <==> v == i + 1
    ensures Among(Through(first, last), MONTHS, v) <==> i + 1 <= v <= j + 1
  {
    hide InAnyCase, ToLower, Among, InBounds, Starred;
    MonthNamed(first);
    MonthNamed(last);
    RangeAmong(Alone(first)[0], MONTHS, v);
    RangeAmong(Through(first, last)[0], MONTHS, v);
  }

  /** The weekdays from one name to another. */
  lemma DaysByName(first: string, i: nat, last: string, j: nat, v: nat)
    requires i <= j < 7 && InAnyCase(first, DAY_NAMES[i]) && InAnyCase(last, DAY_NAMES[j])
    ensures InBounds(Alone(first), DOW) && InBounds(Through(first, last), DOW)
    ensures Among(Alone(first), DOW, v) <==> v == i
    ensures Among(Through(first, last), DOW, v) <==> i <= v <= j
  {
    hide InAnyCase, ToLower, Among, InBounds, Starred;
    DayNamed(first);
    DayNamed(last);
    RangeAmong(Alone(first)[0], DOW, v);
    RangeAmong(Through(first, last)[0], DOW, v);
  }

  /** Stars, numbers and ranges of numbers within the bounds are well written, with any step. */
  lemma WrittenForms(b: Bounds, low: nat, high: nat, step: Option<nat>)
    requires b.min <= low <= high <= b.max && (step.Some? ==> 0 < step.value < 0x8000_0000_0000_0000)
    ensures WellWritten(RangeText(Star, step), b) && WellWritten(RangeText(Question, step), b)
    ensures WellWritten(RangeText(Single(Number(low)), step), b)
    ensures WellWritten(RangeText(Span(Number(low), Number(high)), step), b)
  {
  }

  /** A line that names a month is activated in that month only. */
  lemma MonthOfLine(c: Crontab, text: string, i: nat, u: int)
    requires ValidLine(c) && i < 12 && InAnyCase(text, MONTH_NAMES[i]) && c.month == Alone(text)
    ensures var s := ScheduleOf(["0"] + Fields(c));
            (LineMatches(c, u) || Matches(s, u)) ==> C.Month(u) == i + 1
  {
    hide Matches, ScheduleOf, Fields, InAnyCase, FirstError;
    hide C.Month, C.Day, C.Weekday, C.Hour, C.Minute, C.Second;
    MonthsByName(text, i, text, i, C.Month(u));
    LineMeaning(c, u);
  }

  /** A line that names a weekday, with a star for the day of the month, is activated on that weekday only. */
  lemma WeekdayOfLine(c: Crontab, text: string, i: nat, u: int)
    requires ValidLine(c) && i < 7 && InAnyCase(text, DAY_NAMES[i]) && c.dow == Alone(text)
    requires c.dom == [RangeText(Star, None)]
    ensures var s := ScheduleOf(["0"] + Fields(c));
            (LineMatches(c, u) || Matches(s, u)) ==> C.Weekday(u) == i
  {
    hide Matches, ScheduleOf, Fields, InAnyCase, FirstError;
    hide C.Month, C.Day, C.Weekday, C.Hour, C.Minute, C.Second;
    DaysByName(text, i, text, i, C.Weekday(u));
    RangeAmong(RangeText(Star, None), DOM, C.Day(u));
    LineMeaning(c, u);
  }

  predicate Within(b: Bounds, v: int) {
    b.min <= v <= b.max
  }

  lemma ClockBounds(v: int)
    ensures Within(SECONDS, v) <==> exists u :: C.Second(u) == v
    ensures Within(MINUTES, v) <==> exists u :: C.Minute(u) == v
    ensures Within(HOURS, v) <==> exists u :: C.Hour(u) == v
  {
    if 0 <= v < 60 {
      C.ClockFields(0, 0, 0, v);
      C.ClockFields(0, 0, v, 0);
    }
    if 0 <= v < 24 {
      C.ClockFields(0, v, 0, 0);
    }
  }

  lemma DateBounds(v: int)
    ensures Within(DOM, v) <==> exists u :: C.Day(u) == v
    ensures Within(MONTHS, v) <==> exists u :: C.Month(u) == v
  {
    hide C.MonthStart, C.Date, C.Day, C.Month;
    C.MonthLength(12 * 2000);
    if 1 <= v <= 31 {
      C.FieldsOfDate(2000, 1, v, 0, 0, 0);
    }
    if 1 <= v <= 12 {
      C.MonthLength(12 * 2000 + v - 1);
      C.FieldsOfDate(2000, v, 1, 0, 0, 0);
    }
  }

  lemma WeekdayBounds(v: int)
    ensures Within(DOW, v) <==> exists u :: C.Weekday(u) == v
  {
    assert 0 <= v <= 6 ==> C.Weekday((v + 1) * C.DAY) == v;
  }

  /** The bounds of a field are exactly the values that its part of an instant takes. */
  lemma BoundsAreCalendar(v: int)
    ensures Within(SECONDS, v) <==> exists u :: C.Second(u) == v
    ensures Within(MINUTES, v) <==> exists u :: C.Minute(u) == v
    ensures Within(HOURS, v) <==> exists u :: C.Hour(u) == v
    ensures Within(DOM, v) <==> exists u :: C.Day(u) == v
    ensures Within(MONTHS, v) <==> exists u :: C.Month(u) == v
    ensures Within(DOW, v) <==> exists u :: C.Weekday(u) == v
  {
    hide Within, C.Second, C.Minute, C.Hour, C.Day, C.Month, C.Weekday;
    ClockBounds(v);
    DateBounds(v);
    WeekdayBounds(v);
  }

  lemma NoErrors(line: seq<string>)
    requires |line| == 6 && forall i: nat | i < 6 :: FieldBits(line, i).1 == None
    ensures FirstError(line, 6) == None
  {
    assert FirstError(line, 1) == FirstError(line, 2) == FirstError(line, 3) == None;
    assert FirstError(line, 4) == FirstError(line, 5) == None;
  }

  /**
   Writing a line down, parsing it and asking for the next activation gives the first whole second after
   `t` that the line means, up to the end of the fifth year, and nothing when there is none. A later instant
   is missed only for a line of 29 February, in the gap.
   */
  method NextOfLine(c: Crontab, t: int) returns (r: Option<int>)
    requires ValidLine(c)
    ensures match r {
              case None => forall w :: t < w * NANO && C.Year(w) <= C.Year(UpcomingSecond(t)) + 5 ==> !LineMatches(c, w)
              case Some(n) =>
                && t < n && n % NANO == 0 && LineMatches(c, n / NANO)
                && forall w :: t < w * NANO < n ==> !LineMatches(c, w)
            }
    ensures var s := ScheduleOf(["0"] + Fields(c));
            (r == None && exists w :: t < w * NANO && LineMatches(c, w))
            <==> Satisfiable(s) && OnlyLeapDay(s) && InGap(s, UpcomingSecond(t))
  {
    hide LineMatches, Matches, ScheduleOf, C.Year, FirstActivation, Fields, Expands, FirstError, OnlyLeapDay, InGap,
        Satisfiable;
    ghost var line;
    var parsed;
    parsed, line := Parse(Fields(c), STANDARD);
    FiveFields(c);
    if parsed.Ok? || parsed.error.BadField? {
      StandardLine(Fields(c), line);
    }
    LineMeaning(c, 0);
    forall w { LineMeaning(c, w); }
    var s := parsed.value;
    r := Next(s, t);
    FirstActivationIsEarliest(s, t);
    LineMissed(line, t);
  }

  lemma FiveFields(c: Crontab)
    ensures |Fields(c)| == 5 == FullCount(STANDARD)
  {
    SelectedStep(DEFAULTS, STANDARD, 0);
    SelectedStep(DEFAULTS, STANDARD, 1);
    SelectedStep(DEFAULTS, STANDARD, 2);
    SelectedStep(DEFAULTS, STANDARD, 3);
    SelectedStep(DEFAULTS, STANDARD, 4);
    SelectedStep(DEFAULTS, STANDARD, 5);
  }
}
