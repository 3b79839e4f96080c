/** The field parser of `plugin/cron/parser.go`: from text to sets of admissible values. */
module CronParser {
  import opened Arithmetic
  import opened Wrappers
  import opened Text
  import opened Word64
  import CronSpec

  // ---------- Fields and their bounds ----------

  datatype Bounds = Bounds(min: nat, max: nat, names: map<string, nat>)

  const SECONDS := Bounds(0, 59, map[])
  const MINUTES := Bounds(0, 59, map[])
  const HOURS := Bounds(0, 23, map[])
  const DOM := Bounds(1, 31, map[])
  const MONTHS := Bounds(1, 12, map[
    "jan" := 1, "feb" := 2, "mar" := 3, "apr" := 4, "may" := 5, "jun" := 6,
    "jul" := 7, "aug" := 8, "sep" := 9, "oct" := 10, "nov" := 11, "dec" := 12])
  const DOW := Bounds(0, 6, map[
    "sun" := 0, "mon" := 1, "tue" := 2, "wed" := 3, "thu" := 4, "fri" := 5, "sat" := 6])

  datatype ParseError =
    | NotANumber
    | NegativeNumber
    | TooManyHyphens(expr: string)
    | TooManySlashes(expr: string)
    | BelowMinimum(expr: string)
    | AboveMaximum(expr: string)
    | BeginningAfterEnd(expr: string)
    | ZeroStep(expr: string)

  /**
   Lower case, for the letters that can occur in a name. Two characters outside ASCII have an
   ASCII lower-case letter: the dotted capital I and the Kelvin sign.
   */
  function ToLower(s: string): string {
    seq(|s|, i requires 0 <= i < |s| =>
      if 'A' <= s[i] <= 'Z' then (s[i] as int + 32) as char
      else if s[i] == '\U{0130}' then 'i'
      else if s[i] == '\U{212A}' then 'k'
      else s[i])
  }

  function MustParseInt(expr: string): (r: Result<nat, ParseError>)
    ensures r.Ok? ==> r.value < 0x8000_0000_0000_0000
  {
    match Atoi(expr)
    case None => Err(NotANumber)
    case Some(n) => if n < 0 then Err(NegativeNumber) else Ok(n)
  }

  function ParseIntOrName(expr: string, names: map<string, nat>): Result<nat, ParseError> {
    if ToLower(expr) in names then Ok(names[ToLower(expr)]) else MustParseInt(expr)
  }

  // ---------- What a range denotes ----------

  /** The values start, start + step, ... up to end; `star` asks for the star bit as well. */
  datatype Range = Range(start: nat, end: nat, step: nat, star: bool) {

    predicate Denotes(i: nat) {
      step > 0 && start <= i <= end && (i - start) % step == 0
    }

    /** Within the bounds of its field, and able to go on from any of its values. */
    predicate Valid(b: Bounds) {
      b.min <= start <= end <= b.max && 0 < step < 0x8000_0000_0000_0000
    }
  }

  /** The numbers of the range before its bounds are checked. */
  function RangeNumbers(expr: string, b: Bounds): Result<Range, ParseError> {
    var rangeAndStep := Split(expr, '/');
    var lowAndHigh := Split(rangeAndStep[0], '-');
    var ends := EndsOf(expr, lowAndHigh, b);
    if ends.Err? then Err(ends.error)
    else if |rangeAndStep| == 1 then Ok(Range(ends.value.0, ends.value.1, 1, ends.value.2))
    else
      var step := if |rangeAndStep| == 2 then MustParseInt(rangeAndStep[1]) else Err(TooManySlashes(expr));
      if step.Err? then Err(step.error)
      else
        // N/step runs to the end of the field, and only a step of one keeps the star.
        var end := if |lowAndHigh| == 1 then b.max else ends.value.1;
        Ok(Range(ends.value.0, end, step.value, ends.value.2 && step.value <= 1))
  }

  function EndsOf(expr: string, lowAndHigh: seq<string>, b: Bounds): Result<(nat, nat, bool), ParseError>
    requires |lowAndHigh| >= 1
  {
    if lowAndHigh[0] == "*" || lowAndHigh[0] == "?" then Ok((b.min, b.max, true))
    else
      match ParseIntOrName(lowAndHigh[0], b.names)
      case Err(e) => Err(e)
      case Ok(low) =>
        if |lowAndHigh| == 1 then Ok((low, low, false))
        else if |lowAndHigh| == 2 then
          match ParseIntOrName(lowAndHigh[1], b.names)
          case Err(e) => Err(e)
          case Ok(high) => Ok((low, high, false))
        else Err(TooManyHyphens(expr))
  }

  /** The range a text denotes, or why it denotes none. */
  function RangeOf(expr: string, b: Bounds): (r: Result<Range, ParseError>)
    ensures r.Ok? ==> r.value.Valid(b)
  {
    match RangeNumbers(expr, b)
    case Err(e) => Err(e)
    case Ok(r) =>
      if r.start < b.min then Err(BelowMinimum(expr))
      else if r.end > b.max then Err(AboveMaximum(expr))
      else if r.start > r.end then Err(BeginningAfterEnd(expr))
      else if r.step == 0 then Err(ZeroStep(expr))
      else Ok(r)
  }

  /** The word of a valid range: the values it denotes, and the star bit when it asks for it. */
  function RangeWord(r: Range): Word
    requires r.end < WIDTH
  {
    (set i: nat | r.start <= i <= r.end && r.Denotes(i)) + (if r.star then {CronSpec.STAR_BIT} else {})
  }

  /** The non-empty pieces between commas: `strings.FieldsFunc`. */
  function Pieces(field: string): seq<string> {
    NonEmpty(Split(field, ','))
  }

  function NonEmpty(parts: seq<string>): seq<string> {
    if parts == [] then []
    else (if parts[0] == "" then [] else [parts[0]]) + NonEmpty(parts[1..])
  }

  /** The union of the words of the first pieces, up to the first that denotes no range. */
  function FieldWord(exprs: seq<string>, b: Bounds): (Word, Option<ParseError>)
    requires b.max < WIDTH
  {
    if exprs == [] then ({}, None)
    else
      var (bits, err) := FieldWord(exprs[..|exprs| - 1], b);
      if err.Some? then (bits, err)
      else
        match RangeOf(exprs[|exprs| - 1], b)
        case Err(e) => (bits, Some(e))
        case Ok(r) => (bits + RangeWord(r), None)
  }

  // ---------- The parser ----------

  lemma ShiftedOnes(min: nat, max: nat)
    requires min <= max < WIDTH
    ensures Complement(Shl(ALL_ONES, max + 1)) * Shl(ALL_ONES, min) == RangeWord(Range(min, max, 1, false))
  {
    forall i: nat
      ensures i in Complement(Shl(ALL_ONES, max + 1)) * Shl(ALL_ONES, min) <==>
          i in RangeWord(Range(min, max, 1, false))
    {
      ShlOnes(max + 1, i);
      ShlOnes(min, i);
    }
  }

  /** A step of one uses shifts, any other step a loop; the counter is a 64-bit word in the source. */
  method GetBits(min: nat, max: nat, step: nat) returns (bits: Word)
    requires min <= max < WIDTH && 0 < step < 0x8000_0000_0000_0000
    ensures bits == RangeWord(Range(min, max, step, false))
  {
    bits := {};
    if step == 1 {
      ShiftedOnes(min, max);
      return Complement(Shl(ALL_ONES, max + 1)) * Shl(ALL_ONES, min);
    }
    var i := min;
    ghost var r := Range(min, max, step, false);
    while i <= max
      invariant min <= i && (i - min) % step == 0
      invariant forall k: nat :: k in bits <==> k < i && r.Denotes(k)
    {
      MultiplesAreSpaced(i - min, i - min, step);
      forall k: nat | i <= k < i + step ensures r.Denotes(k) <==> k == i {
        MultiplesAreSpaced(i - min, k - min, step);
      }
      bits := bits + Bit(i);
      i := (i + step) % 0x1_0000_0000_0000_0000;
    }
  }

  lemma StarAdded(r: Range)
    requires r.end < WIDTH
    ensures RangeWord(r) == RangeWord(r.(star := false)) + (if r.star then {CronSpec.STAR_BIT} else {})
  {
    assert forall i: nat :: r.Denotes(i) == r.(star := false).Denotes(i);
  }

  method GetRange(expr: string, b: Bounds) returns (bits: Word, err: Option<ParseError>)
    requires b.max < WIDTH - 1
    ensures match RangeOf(expr, b) {
              case Err(e) => err == Some(e) && bits == {}
              case Ok(r) => err == None && bits == RangeWord(r)
            }
  {
    hide ParseIntOrName, MustParseInt, Split, RangeWord;
    var rangeAndStep := Split(expr, '/');
    var lowAndHigh := Split(rangeAndStep[0], '-');
    var singleDigit := |lowAndHigh| == 1;
    var start, end, step: nat;
    var extra: Word := {};
    if lowAndHigh[0] == "*" || lowAndHigh[0] == "?" {
      start, end, extra := b.min, b.max, {CronSpec.STAR_BIT};
    } else {
      var low := ParseIntOrName(lowAndHigh[0], b.names);
      if low.Err? { return {}, Some(low.error); }
      start := low.value;
      if |lowAndHigh| == 1 {
        end := start;
      } else if |lowAndHigh| == 2 {
        var high := ParseIntOrName(lowAndHigh[1], b.names);
        if high.Err? { return {}, Some(high.error); }
        end := high.value;
      } else {
        return {}, Some(TooManyHyphens(expr));
      }
    }
    if |rangeAndStep| == 1 {
      step := 1;
    } else if |rangeAndStep| == 2 {
      var number := MustParseInt(rangeAndStep[1]);
      if number.Err? { return {}, Some(number.error); }
      step := number.value;
      if singleDigit { end := b.max; }
      if step > 1 { extra := {}; }
    } else {
      return {}, Some(TooManySlashes(expr));
    }
    if start < b.min { return {}, Some(BelowMinimum(expr)); }
    if end > b.max { return {}, Some(AboveMaximum(expr)); }
    if start > end { return {}, Some(BeginningAfterEnd(expr)); }
    if step == 0 { return {}, Some(ZeroStep(expr)); }
    bits := GetBits(start, end, step);
    StarAdded(Range(start, end, step, extra != {}));
    return bits + extra, None;
  }

  method GetField(field: string, b: Bounds) returns (bits: Word, err: Option<ParseError>)
    requires b.max < WIDTH - 1
    ensures (bits, err) == FieldWord(Pieces(field), b)
  {
    hide RangeOf, RangeWord, Pieces;
    bits := {};
    var ranges := Pieces(field);
    for i := 0 to |ranges|
      invariant FieldWord(ranges[..i], b) == (bits, None)
    {
      assert ranges[..i + 1][..i] == ranges[..i];
      var bit, e := GetRange(ranges[i], b);
      assert ranges[..i + 1][i] == ranges[i];
      if e.Some? {
        FieldWordStops(ranges, i + 1, b);
        return bits, e;
      }
      bits := bits + bit;
    }
    assert ranges[..|ranges|] == ranges;
    return bits, None;
  }

  /** Piece `e` puts position `i` into its field. */
  predicate Sets(e: string, b: Bounds, i: nat) {
    match RangeOf(e, b)
    case Err(_) => false
    case Ok(r) => r.Denotes(i) || (i == CronSpec.STAR_BIT && r.star)
  }

  lemma RangeWordMeaning(r: Range, b: Bounds, i: nat)
    requires r.Valid(b) && b.max < WIDTH - 1
    ensures i in RangeWord(r) <==> r.Denotes(i) || (i == CronSpec.STAR_BIT && r.star)
    ensures i in RangeWord(r) ==> b.min <= i <= b.max || i == CronSpec.STAR_BIT
  {
  }

  /**
   In an accepted field a position is set exactly when some piece sets it, and every position is
   within the bounds or is the star bit.
   */
  lemma {:induction false} FieldMeaning(exprs: seq<string>, b: Bounds, i: nat)
    requires b.max < WIDTH - 1
    requires FieldWord(exprs, b).1 == None
    ensures i in FieldWord(exprs, b).0 <==> exists e <- exprs :: Sets(e, b, i)
    ensures i in FieldWord(exprs, b).0 ==> b.min <= i <= b.max || i == CronSpec.STAR_BIT
    decreases |exprs|
  {
    hide RangeOf, RangeWord;
    if exprs != [] {
      var init, last := exprs[..|exprs| - 1], exprs[|exprs| - 1];
      FieldMeaning(init, b, i);
      RangeWordMeaning(RangeOf(last, b).value, b, i);
      assert exprs == init + [last];
      assert last in exprs && forall e <- init :: e in exprs;
      assert i in RangeWord(RangeOf(last, b).value) <==> Sets(last, b, i);
    }
  }

  /** A field is accepted exactly when each of its pieces denotes a range. */
  lemma {:induction false} FieldAccepted(exprs: seq<string>, b: Bounds)
    requires b.max < WIDTH - 1
    ensures FieldWord(exprs, b).1 == None <==> forall e <- exprs :: RangeOf(e, b).Ok?
    decreases |exprs|
  {
    hide RangeOf, RangeWord;
    if exprs != [] {
      var init, last := exprs[..|exprs| - 1], exprs[|exprs| - 1];
      FieldAccepted(init, b);
      assert exprs == init + [last];
    }
  }

  /** The star bit stands for a star or question mark, whatever follows a hyphen, with a step of one. */
  lemma StarMeaning(expr: string, b: Bounds)
    requires RangeOf(expr, b).Ok?
    ensures RangeOf(expr, b).value.star <==>
            Split(Split(expr, '/')[0], '-')[0] in {"*", "?"} && RangeOf(expr, b).value.step == 1
  {
    hide ParseIntOrName, MustParseInt;
  }

  /** A range with the star bit is the whole field. */
  lemma StarIsWholeField(expr: string, b: Bounds)
    requires RangeOf(expr, b).Ok? && RangeOf(expr, b).value.star
    ensures RangeOf(expr, b).value == Range(b.min, b.max, 1, true)
  {
    hide ParseIntOrName, MustParseInt;
  }

  /** An accepted field with the star bit holds every value of the field. */
  lemma StarFieldIsFull(exprs: seq<string>, b: Bounds, i: nat)
    requires b.max < WIDTH - 1 && FieldWord(exprs, b).1 == None
    requires CronSpec.STAR_BIT in FieldWord(exprs, b).0 && b.min <= i <= b.max
    ensures i in FieldWord(exprs, b).0
  {
    hide RangeOf, FieldWord;
    FieldMeaning(exprs, b, CronSpec.STAR_BIT);
    FieldMeaning(exprs, b, i);
    FieldAccepted(exprs, b);
    var e :| e in exprs && Sets(e, b, CronSpec.STAR_BIT);
    StarIsWholeField(e, b);
    assert Sets(e, b, i);
  }

  /** An accepted field holds no value exactly when it has no range at all. */
  lemma EmptyField(exprs: seq<string>, b: Bounds)
    requires b.max < WIDTH - 1 && FieldWord(exprs, b).1 == None
    ensures FieldWord(exprs, b).0 == {} <==> exprs == []
    ensures exprs != [] ==> exists i <- FieldWord(exprs, b).0 :: b.min <= i <= b.max
  {
    hide RangeOf;
    if exprs != [] {
      FieldAccepted(exprs, b);
      var r := RangeOf(exprs[0], b).value;
      assert r.Denotes(r.start);
      assert Sets(exprs[0], b, r.start);
      FieldMeaning(exprs, b, r.start);
    }
  }

  /** A comma is an accepted field without a range. */
  lemma CommaIsEmpty(b: Bounds)
    requires b.max < WIDTH
    ensures Pieces(",") == [] && FieldWord(Pieces(","), b) == ({}, None)
  {
    assert Split(",", ',') == ["", ""] by {
      SplitPrefix("", "", ',');
      assert "" + [','] + "" == ",";
    }
    assert NonEmpty(["", ""]) == NonEmpty([""]) == NonEmpty([]) == [];
  }

  /** Pieces after the first error are not looked at. */
  lemma {:induction false} FieldWordStops(exprs: seq<string>, i: nat, b: Bounds)
    requires b.max < WIDTH && i <= |exprs| && FieldWord(exprs[..i], b).1.Some?
    ensures FieldWord(exprs, b) == FieldWord(exprs[..i], b)
    decreases |exprs|
  {
    if i < |exprs| {
      var init := exprs[..|exprs| - 1];
      assert init[..i] == exprs[..i];
      FieldWordStops(init, i, b);
    } else {
      assert exprs[..i] == exprs;
    }
  }

  // ---------- Writing ranges down ----------

  /** A value as a number, or by its name in any case. */
  datatype Numeral = Number(n: nat) | Name(text: string)

  /** The documented forms of a range. */
  datatype Extent = Star | Question | Single(x: Numeral) | Span(low: Numeral, high: Numeral)
  datatype RangeText = RangeText(extent: Extent, step: Option<nat>)

  function Show(t: RangeText): string {
    ShowExtent(t.extent) + (if t.step.Some? then "/" + Decimal(t.step.value) else "")
  }

  function ShowNumeral(x: Numeral): string {
    if x.Number? then Decimal(x.n) else x.text
  }

  function ShowExtent(x: Extent): string {
    match x
    case Star => "*"
    case Question => "?"
    case Single(n) => ShowNumeral(n)
    case Span(low, high) => ShowNumeral(low) + "-" + ShowNumeral(high)
  }

  /** A number, or a name that the field knows. */
  predicate Knows(x: Numeral, b: Bounds) {
    x.Name? ==> ToLower(x.text) in b.names
  }

  function ValueOf(x: Numeral, b: Bounds): nat
    requires Knows(x, b)
  {
    if x.Number? then x.n else b.names[ToLower(x.text)]
  }

  predicate KnowsAll(t: RangeText, b: Bounds) {
    match t.extent
    case Single(n) => Knows(n, b)
    case Span(low, high) => Knows(low, b) && Knows(high, b)
    case _ => true
  }

  /** What a written range means: a single number with a step runs to the end of the field. */
  function Meaning(t: RangeText, b: Bounds): Range
    requires KnowsAll(t, b)
  {
    var step := if t.step.Some? then t.step.value else 1;
    match t.extent
    case Star => Range(b.min, b.max, step, step <= 1)
    case Question => Range(b.min, b.max, step, step <= 1)
    case Single(n) => Range(ValueOf(n, b), if t.step.Some? then b.max else ValueOf(n, b), step, false)
    case Span(low, high) => Range(ValueOf(low, b), ValueOf(high, b), step, false)
  }

  /** The names are known, and the range lies within the bounds of its field. */
  predicate WellWritten(t: RangeText, b: Bounds) {
    KnowsAll(t, b) && Meaning(t, b).Valid(b)
  }

  // ---------- Names ----------

  const MONTH_NAMES := ["jan", "feb", "mar", "apr", "may", "jun", "jul", "aug", "sep", "oct", "nov", "dec"]
  const DAY_NAMES := ["sun", "mon", "tue", "wed", "thu", "fri", "sat"]

  /** The lower-case letter itself, its capital, or one of the two further characters with that lower case. */
  predicate SameLetter(c: char, letter: char) {
    || c == letter
    || ('A' <= c <= 'Z' && letter as int - c as int == 'a' as int - 'A' as int)
    || (letter == 'i' && c == '\U{0130}') || (letter == 'k' && c == '\U{212A}')
  }

  predicate InAnyCase(text: string, name: string) {
    |text| == |name| && forall i | 0 <= i < |name| :: SameLetter(text[i], name[i])
  }

  lemma LowerOfAnyCase(text: string, name: string)
    requires IsWord(name)
    ensures ToLower(text) == name <==> InAnyCase(text, name)
  {
    var lower := ToLower(text);
    if InAnyCase(text, name) {
      assert forall i | 0 <= i < |name| :: lower[i] == name[i];
    }
    if lower == name {
      forall i | 0 <= i < |name| ensures SameLetter(text[i], name[i]) {
        assert lower[i] == name[i];
      }
    }
  }

  /** The month names in calendar order, in any case, denote the months from 1 on; there is no other name. */
  lemma MonthNamed(text: string)
    ensures Knows(Name(text), MONTHS) <==> exists i | 0 <= i < |MONTH_NAMES| :: InAnyCase(text, MONTH_NAMES[i])
    ensures forall i | 0 <= i < |MONTH_NAMES| && InAnyCase(text, MONTH_NAMES[i]) ::
              Knows(Name(text), MONTHS) && ValueOf(Name(text), MONTHS) == i + 1
  {
    hide InAnyCase, ToLower;
    MonthTable();
    hide MONTHS, MONTH_NAMES;
    forall i | 0 <= i < |MONTH_NAMES| { LowerOfAnyCase(text, MONTH_NAMES[i]); }
  }

  lemma MonthTable()
    ensures forall i | 0 <= i < |MONTH_NAMES| ::
              IsWord(MONTH_NAMES[i]) && MONTH_NAMES[i] in MONTHS.names && MONTHS.names[MONTH_NAMES[i]] == i + 1
    ensures forall name <- MONTHS.names ::
              var m := MONTHS.names[name]; 1 <= m <= |MONTH_NAMES| && MONTH_NAMES[m - 1] == name
  {
  }

  /** The weekday names from Sunday on, in any case, denote the weekdays from 0 on; there is no other name. */
  lemma DayNamed(text: string)
    ensures Knows(Name(text), DOW) <==> exists i | 0 <= i < |DAY_NAMES| :: InAnyCase(text, DAY_NAMES[i])
    ensures forall i | 0 <= i < |DAY_NAMES| && InAnyCase(text, DAY_NAMES[i]) ::
              Knows(Name(text), DOW) && ValueOf(Name(text), DOW) == i
  {
    hide InAnyCase, ToLower;
    forall i | 0 <= i < |DAY_NAMES|
      ensures IsWord(DAY_NAMES[i]) && DAY_NAMES[i] in DOW.names && DOW.names[DAY_NAMES[i]] == i
    {
    }
    forall i | 0 <= i < |DAY_NAMES| { LowerOfAnyCase(text, DAY_NAMES[i]); }
    if ToLower(text) in DOW.names {
      assert ToLower(text) == DAY_NAMES[DOW.names[ToLower(text)]];
    }
  }

  predicate NamesAreWords(b: Bounds) {
    forall name <- b.names :: name != "" && IsWord(name)
  }

  predicate IsWord(name: string) {
    forall i | 0 <= i < |name| :: 'a' <= name[i] <= 'z'
  }

  lemma DecimalIsPlain(n: nat)
    ensures forall c <- Decimal(n) :: '0' <= c <= '9'
    ensures Decimal(n) != "*" && Decimal(n) != "?"
  {
    DecimalValue(n);
    assert Decimal(n)[0] in Decimal(n);
  }

  lemma NumberIsNoName(n: nat, b: Bounds)
    requires n < 0x8000_0000_0000_0000
    requires NamesAreWords(b)
    ensures ParseIntOrName(Decimal(n), b.names) == Ok(n) && MustParseInt(Decimal(n)) == Ok(n)
  {
    hide Decimal, ToLower, NamesAreWords;
    var s := Decimal(n);
    DecimalIsPlain(n);
    DecimalValue(n);
    AtoiOfDecimal(n);
    DigitsAreNoName(s, b);
  }

  lemma DigitsAreNoName(s: string, b: Bounds)
    requires s != "" && NamesAreWords(b) && forall c <- s :: '0' <= c <= '9'
    ensures ToLower(s) == s && s !in b.names
  {
    assert forall i | 0 <= i < |s| :: s[i] in s;
    assert s[0] in s;
  }

  /** A name in any case holds none of the characters that divide a field. */
  lemma NameIsPlain(text: string, b: Bounds)
    requires NamesAreWords(b) && ToLower(text) in b.names
    ensures text != "" && text != "*" && text != "?" && ',' !in text && '-' !in text && '/' !in text
  {
    assert IsWord(ToLower(text));
    forall i | 0 <= i < |text| ensures text[i] !in [',', '-', '/', '*', '?'] {
      assert 'a' <= ToLower(text)[i] <= 'z';
    }
    assert text[0] != '*' && text[0] != '?';
  }

  lemma NumeralIsPlain(x: Numeral, b: Bounds)
    requires NamesAreWords(b) && Knows(x, b)
    ensures var s := ShowNumeral(x); s != "" && s != "*" && s != "?" && ',' !in s && '-' !in s && '/' !in s
  {
    hide ToLower;
    if x.Number? { DecimalIsPlain(x.n); } else { NameIsPlain(x.text, b); }
  }

  /** A numeral is read as its value. */
  lemma NumeralIsRead(x: Numeral, b: Bounds)
    requires NamesAreWords(b) && Knows(x, b) && ValueOf(x, b) < 0x8000_0000_0000_0000
    ensures ParseIntOrName(ShowNumeral(x), b.names) == Ok(ValueOf(x, b))
  {
    hide ToLower, MustParseInt;
    if x.Number? { NumberIsNoName(x.n, b); }
  }

  lemma SplitExtent(x: Extent, b: Bounds)
    requires NamesAreWords(b) && KnowsAll(RangeText(x, None), b)
    ensures '/' !in ShowExtent(x) && ',' !in ShowExtent(x) && ShowExtent(x) != ""
    ensures Split(ShowExtent(x), '-') ==
            match x {
              case Star => ["*"]
              case Question => ["?"]
              case Single(n) => [ShowNumeral(n)]
              case Span(l, h) => [ShowNumeral(l), ShowNumeral(h)]
            }
  {
    hide ToLower, ShowNumeral, Split, Knows;
    match x
    case Star =>
      SplitPrefix("*", "", '-');
    case Question =>
      SplitPrefix("?", "", '-');
    case Single(n) =>
      NumeralIsPlain(n, b);
      SplitPrefix(ShowNumeral(n), "", '-');
    case Span(low, high) =>
      NumeralIsPlain(low, b);
      NumeralIsPlain(high, b);
      assert ShowExtent(x) == ShowNumeral(low) + ['-'] + ShowNumeral(high);
      SplitPrefix(ShowNumeral(low), ShowNumeral(high), '-');
      SplitPrefix(ShowNumeral(high), "", '-');
  }

  /** Reading a written range gives its meaning back, whenever the meaning is within the bounds. */
  lemma RangeOfShow(t: RangeText, b: Bounds)
    requires WellWritten(t, b) && b.max < WIDTH - 1
    requires NamesAreWords(b)
    ensures RangeOf(Show(t), b) == Ok(Meaning(t, b))
  {
    hide ParseIntOrName, MustParseInt, Split, ShowNumeral, ToLower, NamesAreWords, Knows, ValueOf;
    var x := ShowExtent(t.extent);
    SplitExtent(t.extent, b);
    match t.extent {
      case Star =>
      case Question =>
      case Single(n) => NumeralIsPlain(n, b); NumeralIsRead(n, b);
      case Span(low, high) => NumeralIsPlain(low, b); NumeralIsRead(low, b); NumeralIsRead(high, b);
    }
    match t.step
    case None =>
      SplitPrefix(x, "", '/');
      assert Show(t) == x;
    case Some(k) =>
      DecimalIsPlain(k);
      SplitPrefix(x, Decimal(k), '/');
      SplitPrefix(Decimal(k), "", '/');
      NumberIsNoName(k, b);
      assert Show(t) == x + ['/'] + Decimal(k);
  }

  function ShowAll(ts: seq<RangeText>): seq<string> {
    seq(|ts|, i requires 0 <= i < |ts| => Show(ts[i]))
  }

  /** The six fields of a crontab line have no name that is a number. */
  lemma CrontabNames()
    ensures forall b <- [SECONDS, MINUTES, HOURS, DOM, MONTHS, DOW] :: NamesAreWords(b) && b.max < WIDTH - 1
  {
  }

  lemma ShowIsPlain(t: RangeText, b: Bounds)
    requires NamesAreWords(b) && KnowsAll(t, b)
    ensures Show(t) != "" && ',' !in Show(t)
  {
    hide ShowExtent, ToLower;
    SplitExtent(t.extent, b);
    if t.step.Some? { DecimalIsPlain(t.step.value); }
  }

  lemma {:induction false} NonEmptyParts(parts: seq<string>)
    requires forall p <- parts :: p != ""
    ensures NonEmpty(parts) == parts
  {
    if parts != [] {
      assert forall p <- parts[1..] :: p in parts;
      NonEmptyParts(parts[1..]);
      assert parts[0] in parts && parts == [parts[0]] + parts[1..];
    }
  }

  predicate Means(t: RangeText, b: Bounds, i: nat)
    requires WellWritten(t, b)
  {
    Meaning(t, b).Denotes(i) || (i == CronSpec.STAR_BIT && Meaning(t, b).star)
  }

  lemma ShownMeans(ts: seq<RangeText>, b: Bounds, k: nat)
    requires NamesAreWords(b) && b.max < WIDTH - 1
    requires k < |ts| && WellWritten(ts[k], b)
    ensures var text := ShowAll(ts)[k];
            text != "" && ',' !in text && RangeOf(text, b).Ok? && forall i :: Sets(text, b, i) == Means(ts[k], b, i)
  {
    hide RangeOf, Show;
    ShowIsPlain(ts[k], b);
    RangeOfShow(ts[k], b);
  }

  /** A written list of ranges is accepted, and sets exactly the values its ranges mean. */
  lemma WrittenField(ts: seq<RangeText>, b: Bounds)
    requires ts != [] && NamesAreWords(b) && b.max < WIDTH - 1
    requires forall t <- ts :: WellWritten(t, b)
    ensures var (bits, err) := FieldWord(Pieces(Join(ShowAll(ts), ',')), b);
            err == None && forall i: nat :: i in bits <==> exists t <- ts :: Means(t, b, i)
  {
    hide RangeOf, Show, Meaning, FieldWord, Split, Sets, Means, ParseIntOrName;
    var texts := ShowAll(ts);
    forall k | 0 <= k < |ts|
      ensures texts[k] != "" && ',' !in texts[k] && RangeOf(texts[k], b).Ok?
      ensures ts[k] in ts && forall i :: Sets(texts[k], b, i) == Means(ts[k], b, i)
    {
      ShownMeans(ts, b, k);
    }
    SplitOfJoin(texts, ',');
    NonEmptyParts(texts);
    FieldAccepted(texts, b);
    forall i: nat
      ensures i in FieldWord(texts, b).0 <==> exists t <- ts :: Means(t, b, i)
    {
      FieldMeaning(texts, b, i);
      if t :| t in ts && Means(t, b, i) {
        var k :| 0 <= k < |ts| && ts[k] == t;
        assert Sets(texts[k], b, i);
      }
    }
  }

  // ---------- Optional fields ----------

  datatype ParseOption = Second | SecondOptional | Minute | Hour | Dom | Month | Dow | DowOptional | Descriptor

  datatype NormalizeError = MultipleOptionals | IncorrectNumber(min: int, max: int) | UnexpectedOptional

  const PLACES := [Second, Minute, Hour, Dom, Month, Dow]
  const DEFAULTS := ["0", "0", "0", "*", "*", "*"]

  /** The entries of `line` at the places that `options` asks for, in order. */
  function Selected(line: seq<string>, options: set<ParseOption>, n: nat): seq<string>
    requires n <= |line| == |PLACES|
  {
    if n == 0 then []
    else Selected(line, options, n - 1) + (if PLACES[n - 1] in options then [line[n - 1]] else [])
  }

  /** An optional field counts as asked for. */
  function Effective(options: set<ParseOption>): set<ParseOption> {
    options + (if SecondOptional in options then {Second} else {}) + (if DowOptional in options then {Dow} else {})
  }

  /** How many fields a full line has. */
  function FullCount(options: set<ParseOption>): nat {
    |Selected(DEFAULTS, Effective(options), |PLACES|)|
  }

  lemma SelectedStep(line: seq<string>, options: set<ParseOption>, n: nat)
    requires n < |line| == |PLACES|
    ensures Selected(line, options, 0) == []
    ensures Selected(line, options, n + 1) ==
            Selected(line, options, n) + (if PLACES[n] in options then [line[n]] else [])
  {
  }

  lemma {:induction false} SelectedPrefix(line: seq<string>, other: seq<string>, options: set<ParseOption>, n: nat)
    requires n <= |line| == |other| == |PLACES| && line[..n] == other[..n]
    ensures Selected(line, options, n) == Selected(other, options, n)
  {
    if n > 0 {
      assert line[..n - 1] == line[..n][..n - 1] && other[..n - 1] == other[..n][..n - 1];
      assert line[n - 1] == line[..n][n - 1] && other[n - 1] == other[..n][n - 1];
      SelectedPrefix(line, other, options, n - 1);
    }
  }

  /** The given fields, completed by the default of the optional one when it is missing. */
  function Completed(fields: seq<string>, options: set<ParseOption>): seq<string> {
    if |fields| == FullCount(options) then fields
    else if DowOptional in options then fields + ["*"]
    else ["0"] + fields
  }

  /**
   A line of too few or too many fields is refused. Otherwise all six fields come back: read at
   the places asked for they are the given ones, completed, and every other place has its default.
   */
  method NormalizeFields(fields: seq<string>, options: set<ParseOption>)
      returns (r: Result<seq<string>, NormalizeError>)
    ensures SecondOptional in options && DowOptional in options ==> r == Err(MultipleOptionals)
    ensures !(SecondOptional in options && DowOptional in options) ==>
              var max: int := FullCount(options);
              var min := if SecondOptional in options || DowOptional in options then max - 1 else max;
              if min <= |fields| <= max then
                && r.Ok? && |r.value| == |PLACES|
                && Selected(r.value, Effective(options), |PLACES|) == Completed(fields, options)
                && forall i | 0 <= i < |PLACES| :: PLACES[i] !in Effective(options) ==> r.value[i] == DEFAULTS[i]
              else r == Err(IncorrectNumber(min, max))
  {
    hide Selected;
    var optionals := 0;
    var opts := options;
    if SecondOptional in opts {
      opts := opts + {Second};
      optionals := optionals + 1;
    }
    if DowOptional in opts {
      opts := opts + {Dow};
      optionals := optionals + 1;
    }
    if optionals > 1 {
      return Err(MultipleOptionals);
    }
    assert opts == Effective(options);
    var max := 0;
    SelectedStep(DEFAULTS, opts, 0);
    for i := 0 to |PLACES|
      invariant max == |Selected(DEFAULTS, opts, i)|
      invariant i >= 1 && Second in opts ==> max >= 1
      invariant i >= 6 && Dow in opts ==> max >= 1
    {
      SelectedStep(DEFAULTS, opts, i);
      if PLACES[i] in opts { max := max + 1; }
    }
    var min := max - optionals;
    if |fields| < min || |fields| > max {
      return Err(IncorrectNumber(min, max));
    }
    var given := fields;
    if min < max && |given| == min {
      if DowOptional in opts {
        given := given + [DEFAULTS[5]];
      } else if SecondOptional in opts {
        given := [DEFAULTS[0]] + given;
      } else {
        return Err(UnexpectedOptional);
      }
    }
    assert given == Completed(fields, options);
    var n := 0;
    var expanded := DEFAULTS;
    for i := 0 to |PLACES|
      invariant n == |Selected(DEFAULTS, opts, i)| && n <= |given| == |Selected(DEFAULTS, opts, |PLACES|)|
      invariant |expanded| == |PLACES| && Selected(expanded, opts, i) == given[..n]
      invariant forall k | 0 <= k < |PLACES| :: k >= i || PLACES[k] !in opts ==> expanded[k] == DEFAULTS[k]
    {
      SelectedStep(DEFAULTS, opts, i);
      if PLACES[i] in opts {
        SelectedMonotone(DEFAULTS, opts, i + 1, |PLACES|);
        ghost var before := expanded;
        expanded := expanded[i := given[n]];
        SelectedPrefix(expanded, before, opts, i);
        n := n + 1;
      }
      SelectedStep(expanded, opts, i);
    }
    assert given[..n] == given;
    return Ok(expanded);
  }

  lemma {:induction false} SelectedMonotone(line: seq<string>, options: set<ParseOption>, m: nat, n: nat)
    requires m <= n <= |line| == |PLACES|
    ensures |Selected(line, options, m)| <= |Selected(line, options, n)|
  {
    if m < n {
      SelectedMonotone(line, options, m, n - 1);
    }
  }

  // ---------- The expanded line, place by place ----------

  /** Whether the options ask for the second, minute, hour, day of the month, month or weekday, in this order. */
  predicate Asked(options: set<ParseOption>, place: nat) {
    match place
    case 0 => Second in options || SecondOptional in options
    case 1 => Minute in options
    case 2 => Hour in options
    case 3 => Dom in options
    case 4 => Month in options
    case 5 => Dow in options || DowOptional in options
    case _ => false
  }

  function One(options: set<ParseOption>, place: nat): nat {
    if Asked(options, place) then 1 else 0
  }

  /** How many of the places before this one are asked for. */
  function Rank(options: set<ParseOption>, place: nat): nat {
    if place == 0 then 0 else Rank(options, place - 1) + One(options, place - 1)
  }

  lemma {:induction false} SelectedAt(line: seq<string>, options: set<ParseOption>, n: nat)
    requires n <= |line| == |PLACES|
    ensures var given := Selected(line, Effective(options), n);
            && |given| == Rank(options, n)
            && forall i: nat | i < n && Asked(options, i) ::
                 Rank(options, i) < |given| && given[Rank(options, i)] == line[i]
  {
    if n > 0 {
      SelectedAt(line, options, n - 1);
      SelectedStep(line, Effective(options), n - 1);
      assert PLACES[n - 1] in Effective(options) <==> Asked(options, n - 1);
    }
  }

  /** A place asked for has the next of the given fields; any other is 0 in the clock and a star in the calendar. */
  lemma ExpandedPlaces(line: seq<string>, given: seq<string>, options: set<ParseOption>, i: nat)
    requires |line| == |PLACES| && Selected(line, Effective(options), |PLACES|) == given && i < |PLACES|
    requires forall k | 0 <= k < |PLACES| :: PLACES[k] !in Effective(options) ==> line[k] == DEFAULTS[k]
    ensures FullCount(options) == Rank(options, 6) == |given|
    ensures Rank(options, i) < |given| || !Asked(options, i)
    ensures line[i] == if Asked(options, i) then given[Rank(options, i)] else if i < 3 then "0" else "*"
  {
    hide Selected, Rank;
    SelectedAt(line, options, 6);
    SelectedAt(DEFAULTS, options, 6);
    assert PLACES[i] in Effective(options) <==> Asked(options, i);
  }
}
