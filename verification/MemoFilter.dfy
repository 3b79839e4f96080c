/**
 The memo filters of `web/src/store/memoFilter.ts`: their form in a URL query, which percent-encodes
 values as ECMA-262 (section 19.2.6) does, and the list that the page keeps.
 A `string` is well-formed Unicode text.
 */
module MemoFilter {
  import opened Wrappers
  import opened Sequences
  import opened Text

  datatype Filter = Filter(factor: string, value: string)

  const FACTORS := [
    "tagSearch", "visibility", "contentSearch", "displayTime", "pinned",
    "property.hasLink", "property.hasTaskList", "property.hasCode"]

  // ---------- UTF-8 ----------

  type Octet = o: int | 0 <= o < 0x100

  /** The octets of a character. */
  function Utf8(c: char): seq<Octet> {
    Utf8Of(c as int)
  }

  function Utf8Of(n: int): seq<Octet>
    requires 0 <= n < 0x11_0000
  {
    if n < 0x80 then [n]
    else if n < 0x800 then [0xC0 + n / 0x40, 0x80 + n % 0x40]
    else if n < 0x10000 then [0xE0 + n / 0x1000, 0x80 + n / 0x40 % 0x40, 0x80 + n % 0x40]
    else [0xF0 + n / 0x40000, 0x80 + n / 0x1000 % 0x40, 0x80 + n / 0x40 % 0x40, 0x80 + n % 0x40]
  }

  /** How many octets a character has that begins with this one; 0 when none does. */
  function Utf8Length(octet: Octet): nat {
    if octet < 0x80 then 1
    else if 0xC0 <= octet < 0xE0 then 2
    else if 0xE0 <= octet < 0xF0 then 3
    else if 0xF0 <= octet < 0xF8 then 4
    else 0
  }

  predicate IsContinuation(octet: Octet) {
    0x80 <= octet < 0xC0
  }

  /** The value of an octet sequence of the right length, before it is checked. */
  function Utf8Value(octets: seq<Octet>): int {
    match |octets|
    case 1 => octets[0] as int
    case 2 => (octets[0] as int - 0xC0) * 0x40 + (octets[1] as int - 0x80)
    case 3 => (octets[0] as int - 0xE0) * 0x1000 + (octets[1] as int - 0x80) * 0x40 + (octets[2] as int - 0x80)
    case 4 =>
      (octets[0] as int - 0xF0) * 0x40000 + (octets[1] as int - 0x80) * 0x1000
      + (octets[2] as int - 0x80) * 0x40 + (octets[3] as int - 0x80)
    case _ => -1
  }

  /**
   The character an octet sequence is the UTF-8 of; overlong forms, surrogates and values past the last
   are invalid.
   */
  function Utf8Char(octets: seq<Octet>): Option<char> {
    var n := Utf8Value(octets);
    if octets == [] || |octets| != Utf8Length(octets[0]) || !(forall o <- octets[1..] :: IsContinuation(o)) then None
    else if !(0 <= n < 0xD800 || 0xE000 <= n < 0x11_0000) || |Utf8Of(n)| != |octets| then None
    else Some(n as char)
  }

  lemma Utf8Digits(n: int)
    requires 0 <= n < 0x11_0000
    ensures n == n / 0x40 * 0x40 + n % 0x40
    ensures n / 0x40 == n / 0x1000 * 0x40 + n / 0x40 % 0x40
    ensures n / 0x1000 == n / 0x40000 * 0x40 + n / 0x1000 % 0x40
  {
  }

  /** The value of the octets of a code point is the code point, and the first octet tells how many there are. */
  lemma Utf8ValueOf(n: int)
    requires 0 <= n < 0x11_0000
    ensures Utf8Value(Utf8Of(n)) == n && Utf8Of(n) != [] && |Utf8Of(n)| == Utf8Length(Utf8Of(n)[0])
    ensures forall o <- Utf8Of(n)[1..] :: IsContinuation(o)
  {
    Utf8Digits(n);
  }

  /** The ranges of the octets are those of well-formed UTF-8 (table 3-7 of the Unicode Standard). */
  lemma Utf8Ranges(c: char)
    ensures var n, octets := c as int, Utf8(c);
            if n < 0x80 then octets == [n]
            else if n < 0x800 then |octets| == 2 && 0xC2 <= octets[0] <= 0xDF
            else if n < 0x10000 then
              && |octets| == 3 && 0xE0 <= octets[0] <= 0xEF
              && (octets[0] == 0xE0 ==> octets[1] >= 0xA0) && (octets[0] == 0xED ==> octets[1] <= 0x9F)
            else
              && |octets| == 4 && 0xF0 <= octets[0] <= 0xF4
              && (octets[0] == 0xF0 ==> octets[1] >= 0x90) && (octets[0] == 0xF4 ==> octets[1] <= 0x8F)
    ensures forall i | 0 < i < |Utf8(c)| :: 0x80 <= Utf8(c)[i] <= 0xBF
  {
    Utf8Digits(c as int);
  }

  lemma Utf8RoundTrip(c: char)
    ensures Utf8Char(Utf8(c)) == Some(c) && Utf8(c) != [] && |Utf8(c)| == Utf8Length(Utf8(c)[0])
  {
    hide Utf8Of, Utf8Value, Utf8Length, IsContinuation;
    Utf8ValueOf(c as int);
  }

  /** Nothing else is accepted: octets that denote a character are its UTF-8. */
  lemma OnlyUtf8(octets: seq<Octet>, c: char)
    requires Utf8Char(octets) == Some(c)
    ensures octets == Utf8(c)
  {
    hide Utf8Of;
    var n := Utf8Value(octets);
    forall i | 0 < i < |octets| ensures IsContinuation(octets[i]) {
      assert octets[i] == octets[1..][i - 1];
    }
    match |octets|
    case 1 => OneOctet(n);
    case 2 => TwoOctets(octets[0] as int, octets[1] as int);
    case 3 => ThreeOctets(octets[0] as int, octets[1] as int, octets[2] as int);
    case 4 => FourOctets(octets[0] as int, octets[1] as int, octets[2] as int, octets[3] as int);
    case _ =>
  }

  lemma OneOctet(n: int)
    requires 0 <= n < 0x80
    ensures Utf8Of(n) == [n]
  {
  }

  lemma TwoOctets(a: int, b: int)
    requires 0xC0 <= a < 0xE0 && 0x80 <= b < 0xC0
    ensures var n := (a - 0xC0) * 0x40 + (b - 0x80);
            0 <= n < 0x11_0000 && (|Utf8Of(n)| == 2 ==> Utf8Of(n) == [a, b])
  {
  }

  lemma ThreeOctets(a: int, b: int, c: int)
    requires 0xE0 <= a < 0xF0 && 0x80 <= b < 0xC0 && 0x80 <= c < 0xC0
    ensures var n := (a - 0xE0) * 0x1000 + (b - 0x80) * 0x40 + (c - 0x80);
            0 <= n < 0x11_0000 && (|Utf8Of(n)| == 3 ==> Utf8Of(n) == [a, b, c])
  {
    var n := (a - 0xE0) * 0x1000 + (b - 0x80) * 0x40 + (c - 0x80);
    assert n / 0x40 == (a - 0xE0) * 0x40 + (b - 0x80) && n / 0x1000 == a - 0xE0;
  }

  lemma FourOctets(a: int, b: int, c: int, d: int)
    requires 0xF0 <= a < 0xF8 && 0x80 <= b < 0xC0 && 0x80 <= c < 0xC0 && 0x80 <= d < 0xC0
    ensures var n := (a - 0xF0) * 0x40000 + (b - 0x80) * 0x1000 + (c - 0x80) * 0x40 + (d - 0x80);
            0 <= n && (n < 0x11_0000 && |Utf8Of(n)| == 4 ==> Utf8Of(n) == [a, b, c, d])
  {
    var n := (a - 0xF0) * 0x40000 + (b - 0x80) * 0x1000 + (c - 0x80) * 0x40 + (d - 0x80);
    assert n / 0x40 == (a - 0xF0) * 0x1000 + (b - 0x80) * 0x40 + (c - 0x80);
    assert n / 0x1000 == (a - 0xF0) * 0x40 + (b - 0x80) && n / 0x40000 == a - 0xF0;
  }

  // ---------- Percent-encoding ----------

  predicate Unescaped(c: char) {
    'A' <= c <= 'Z' || 'a' <= c <= 'z' || '0' <= c <= '9' || c in "-_.!~*'()"
  }

  function HexDigit(d: int): char
    requires 0 <= d < 16
  {
    if d < 10 then (d + '0' as int) as char else (d - 10 + 'A' as int) as char
  }

  function HexValue(c: char): Option<int> {
    if '0' <= c <= '9' then Some(c as int - '0' as int)
    else if 'A' <= c <= 'F' then Some(c as int - 'A' as int + 10)
    else if 'a' <= c <= 'f' then Some(c as int - 'a' as int + 10)
    else None
  }

  function EncodeOctet(octet: Octet): string
  {
    ['%', HexDigit(octet / 16), HexDigit(octet % 16)]
  }

  function EncodeOctets(octets: seq<Octet>): string
  {
    if octets == [] then "" else EncodeOctet(octets[0]) + EncodeOctets(octets[1..])
  }

  function EncodeChar(c: char): string {
    if Unescaped(c) then [c] else EncodeOctets(Utf8(c))
  }

  function EncodeURIComponent(s: string): string {
    if s == "" then "" else EncodeChar(s[0]) + EncodeURIComponent(s[1..])
  }

  /** The octet of the escape at the front of `s`. */
  function DecodeOctet(s: string): Option<Octet> {
    if |s| < 3 || s[0] != '%' then None
    else
      match (HexValue(s[1]), HexValue(s[2]))
      case (Some(hi), Some(lo)) => Some(16 * hi + lo)
      case _ => None
  }

  /** The octets of the first `count` escapes. */
  function DecodeOctets(s: string, count: nat): (r: Option<seq<Octet>>)
    ensures r.Some? ==> 3 * count <= |s| && |r.value| == count
  {
    if count == 0 then Some([])
    else
      match DecodeOctet(s)
      case None => None
      case Some(o) =>
        match DecodeOctets(s[3..], count - 1)
        case None => None
        case Some(os) => Some([o] + os)
  }

  /** None is a URIError. */
  function DecodeURIComponent(s: string): Option<string> {
    if s == "" then Some("")
    else if s[0] != '%' then
      match DecodeURIComponent(s[1..])
      case None => None
      case Some(t) => Some([s[0]] + t)
    else
      match DecodeOctet(s)
      case None => None
      case Some(first) =>
        var n := Utf8Length(first);
        if n == 0 then None
        else
          match DecodeOctets(s, n)
          case None => None
          case Some(octets) =>
            match (Utf8Char(octets), DecodeURIComponent(s[3 * n..]))
            case (Some(c), Some(t)) => Some([c] + t)
            case _ => None
  }

  lemma HexRoundTrip(d: int)
    requires 0 <= d < 16
    ensures HexValue(HexDigit(d)) == Some(d)
  {
  }

  lemma OctetRoundTrip(octet: Octet, rest: string)
    ensures DecodeOctet(EncodeOctet(octet) + rest) == Some(octet)
    ensures (EncodeOctet(octet) + rest)[3..] == rest
  {
    hide HexDigit, HexValue;
    HexRoundTrip(octet / 16);
    HexRoundTrip(octet % 16);
  }

  lemma {:induction false} OctetsRoundTrip(octets: seq<Octet>, rest: string)
    ensures DecodeOctets(EncodeOctets(octets) + rest, |octets|) == Some(octets)
    ensures |EncodeOctets(octets)| == 3 * |octets|
  {
    hide EncodeOctet, DecodeOctet;
    if octets != [] {
      var tail := EncodeOctets(octets[1..]) + rest;
      OctetsRoundTrip(octets[1..], rest);
      OctetRoundTrip(octets[0], tail);
      EncodedOctetLength(octets[0]);
      assert EncodeOctets(octets) + rest == EncodeOctet(octets[0]) + tail;
      assert octets == [octets[0]] + octets[1..];
    }
  }

  lemma EncodedOctetLength(octet: Octet)
    ensures |EncodeOctet(octet)| == 3
  {
  }

  /** Decoding what encoding a character writes gives the character, whatever follows. */
  lemma CharRoundTrip(c: char, rest: string)
    ensures DecodeURIComponent(EncodeChar(c) + rest) ==
            match DecodeURIComponent(rest) case None => None case Some(t) => Some([c] + t)
  {
    hide Utf8, Utf8Char, Utf8Length, EncodeOctet, DecodeOctet;
    var s := EncodeChar(c) + rest;
    if Unescaped(c) {
      assert s[1..] == rest;
    } else {
      var octets := Utf8(c);
      Utf8RoundTrip(c);
      OctetsRoundTrip(octets, rest);
      var tail := EncodeOctets(octets[1..]) + rest;
      assert s == EncodeOctet(octets[0]) + tail;
      OctetRoundTrip(octets[0], tail);
      assert s[0] == '%' by {
        EncodedOctetLength(octets[0]);
        PercentFirst(octets[0]);
      }
      assert s[3 * |octets|..] == rest;
    }
  }

  lemma PercentFirst(octet: Octet)
    ensures EncodeOctet(octet)[..1] == "%"
  {
  }

  /** Percent-decoding inverts percent-encoding. */
  lemma {:induction false} ComponentRoundTrip(s: string)
    ensures DecodeURIComponent(EncodeURIComponent(s)) == Some(s)
  {
    hide EncodeChar;
    if s != "" {
      ComponentRoundTrip(s[1..]);
      CharRoundTrip(s[0], EncodeURIComponent(s[1..]));
      hide DecodeURIComponent;
      assert s == [s[0]] + s[1..];
    }
  }

  lemma {:induction false} EncodedOctetsAreSafe(octets: seq<Octet>)
    ensures ',' !in EncodeOctets(octets) && ':' !in EncodeOctets(octets)
  {
    if octets != [] {
      EncodedOctetsAreSafe(octets[1..]);
    }
  }

  /** The separators of a filter query never survive encoding. */
  lemma {:induction false} EncodedIsSafe(s: string)
    ensures ',' !in EncodeURIComponent(s) && ':' !in EncodeURIComponent(s)
  {
    if s != "" {
      EncodedOctetsAreSafe(Utf8(s[0]));
      EncodedIsSafe(s[1..]);
    }
  }

  /** A letter, a digit or one of nine marks: what encoding leaves as it is. */
  predicate IsPlain(c: char) {
    || '0' <= c <= '9' || 'A' <= c <= 'Z' || 'a' <= c <= 'z'
    || c == '-' || c == '_' || c == '.' || c == '!' || c == '~' || c == '*' || c == '\'' || c == '(' || c == ')'
  }

  lemma {:induction false} PlainIsKept(s: string)
    requires forall c <- s :: IsPlain(c)
    ensures EncodeURIComponent(s) == s
  {
    if s != "" {
      assert forall c <- s[1..] :: c in s;
      PlainIsKept(s[1..]);
      assert s[0] in s && s == [s[0]] + s[1..];
    }
  }

  lemma {:induction false} OctetsInHex(octets: seq<Octet>)
    ensures forall c <- EncodeOctets(octets) :: c == '%' || '0' <= c <= '9' || 'A' <= c <= 'F'
  {
    if octets != [] {
      OctetsInHex(octets[1..]);
    }
  }

  /** Any other character is escaped, with capital digits. */
  lemma {:induction false} OthersAreEscaped(s: string)
    ensures forall c <- EncodeURIComponent(s) :: c == '%' || IsPlain(c)
    ensures |s| == 1 && !IsPlain(s[0]) ==>
              forall c <- EncodeURIComponent(s) :: c == '%' || '0' <= c <= '9' || 'A' <= c <= 'F'
  {
    if s != "" {
      OctetsInHex(Utf8(s[0]));
      OthersAreEscaped(s[1..]);
    }
  }

  // ---------- Filter queries ----------

  function StringifyFilter(f: Filter): string {
    f.factor + ":" + EncodeURIComponent(f.value)
  }

  function StringifyAll(fs: seq<Filter>): seq<string> {
    seq(|fs|, i requires 0 <= i < |fs| => StringifyFilter(fs[i]))
  }

  function StringifyFilters(fs: seq<Filter>): string {
    Join(StringifyAll(fs), ',')
  }

  /** Without a colon the value is undefined, which decodes as its name; what follows a second colon is dropped. */
  function ParseFilter(s: string): Option<Filter> {
    var parts := Split(s, ':');
    match DecodeURIComponent(if |parts| > 1 then parts[1] else "undefined")
    case None => None
    case Some(value) => Some(Filter(parts[0], value))
  }

  function ParseAll(parts: seq<string>): Option<seq<Filter>> {
    if parts == [] then Some([])
    else
      match (ParseFilter(parts[0]), ParseAll(parts[1..]))
      case (Some(f), Some(fs)) => Some([f] + fs)
      case _ => None
  }

  /** No query, an empty query or one that does not decode gives no filters. */
  function ParseFilterQuery(query: Option<string>): seq<Filter> {
    if query.None? || query.value == "" then []
    else
      match ParseAll(Split(query.value, ','))
      case None => []
      case Some(fs) => fs
  }

  /** A factor that the query format can carry. */
  predicate PlainFactor(factor: string) {
    ',' !in factor && ':' !in factor
  }

  /** So are all factors there are. */
  lemma FactorsArePlain(factor: string)
    requires factor in FACTORS
    ensures PlainFactor(factor)
  {
    var i :| 0 <= i < 8 && FACTORS[i] == factor;
    assert i == 0 || i == 1 || i == 2 || i == 3 || i == 4 || i == 5 || i == 6 || i == 7;
  }

  lemma FilterRoundTrip(f: Filter)
    requires PlainFactor(f.factor)
    ensures ParseFilter(StringifyFilter(f)) == Some(f) && ',' !in StringifyFilter(f)
  {
    var encoded := EncodeURIComponent(f.value);
    EncodedIsSafe(f.value);
    ComponentRoundTrip(f.value);
    SplitPrefix(f.factor, encoded, ':');
    SplitPrefix(encoded, "", ':');
    assert f.factor + [':'] + encoded == StringifyFilter(f);
  }

  lemma {:induction false} AllRoundTrip(fs: seq<Filter>)
    requires forall f <- fs :: PlainFactor(f.factor)
    ensures ParseAll(StringifyAll(fs)) == Some(fs) && Free(StringifyAll(fs), ',')
  {
    hide ParseFilter, StringifyFilter, PlainFactor;
    if fs != [] {
      FilterRoundTrip(fs[0]);
      AllRoundTrip(fs[1..]);
      assert StringifyAll(fs)[1..] == StringifyAll(fs[1..]);
      assert fs == [fs[0]] + fs[1..];
    }
  }

  /** The text of a list: factors and encoded values with a colon between them, and a comma between filters. */
  lemma QueryText(f: Filter, g: Filter)
    ensures StringifyFilters([]) == ""
    ensures StringifyFilters([f]) == f.factor + ":" + EncodeURIComponent(f.value)
    ensures StringifyFilters([f, g]) == StringifyFilters([f]) + "," + StringifyFilters([g])
  {
    hide EncodeURIComponent;
    assert StringifyAll([f]) == [StringifyFilter(f)] && StringifyAll([g]) == [StringifyFilter(g)];
    assert StringifyAll([f, g]) == [StringifyFilter(f), StringifyFilter(g)];
    assert StringifyAll([f, g])[1..] == [StringifyFilter(g)];
  }

  /** Parsing a stringified list gives it back; the list and its values may be empty. */
  lemma QueryRoundTrip(fs: seq<Filter>)
    requires forall f <- fs :: PlainFactor(f.factor)
    ensures ParseFilterQuery(Some(StringifyFilters(fs))) == fs
  {
    hide ParseFilter, PlainFactor, ParseAll;
    AllRoundTrip(fs);
    if fs != [] {
      SplitOfJoin(StringifyAll(fs), ',');
      assert ':' in StringifyAll(fs)[0];
      assert StringifyFilters(fs) != "" && Split(StringifyFilters(fs), ',') == StringifyAll(fs);
    } else {
      assert StringifyAll(fs) == [] && StringifyFilters(fs) == "";
    }
  }

  /** A filter without a colon has the value undefined, by name; a value that does not decode drops the whole list. */
  lemma OddQueries(factor: string)
    requires PlainFactor(factor) && factor != ""
    ensures ParseFilterQuery(Some(factor)) == [Filter(factor, "undefined")]
    ensures ParseFilterQuery(Some(factor + ":%")) == []
    ensures ParseFilterQuery(Some("")) == [] == ParseFilterQuery(None)
  {
    hide DecodeURIComponent, EncodeURIComponent, Split;
    SplitPrefix(factor, "", ',');
    SplitPrefix(factor, "", ':');
    SplitPrefix(factor, "%", ':');
    SplitPrefix("%", "", ':');
    SplitPrefix(factor + ":%", "", ',');
    assert factor + [':'] + "%" == factor + ":%";
    assert Split(factor + ":%", ':') == [factor, "%"] && Split(factor + ":%", ',') == [factor + ":%"];
    PlainIsKept("undefined");
    ComponentRoundTrip("undefined");
    LoneEscape();
    assert ParseFilter(factor + ":%") == None;
    assert ParseFilter(factor) == Some(Filter(factor, "undefined"));
    assert ParseAll([factor]) == Some([Filter(factor, "undefined")] + []);
  }

  lemma LoneEscape()
    ensures DecodeURIComponent("%") == None
  {
  }

  // ---------- The list of filters ----------

  function FilterKey(f: Filter): string {
    f.factor + ":" + f.value
  }

  /** The key tells filters apart whose factors have no colon. */
  lemma FilterKeyInjective(f: Filter, g: Filter)
    requires ':' !in f.factor && ':' !in g.factor && FilterKey(f) == FilterKey(g)
    ensures f == g
  {
    SplitPrefix(f.factor, f.value, ':');
    SplitPrefix(g.factor, g.value, ':');
    assert f.factor + [':'] + f.value == FilterKey(f);
    assert g.factor + [':'] + g.value == FilterKey(g);
    assert f.factor == Split(FilterKey(f), ':')[0] == g.factor;
    assert FilterKey(f)[|f.factor| + 1..] == f.value && FilterKey(g)[|g.factor| + 1..] == g.value;
  }

  /** Every filter that parsing a query gives has a factor without a colon. */
  lemma {:induction false} ParsedFactors(parts: seq<string>)
    ensures ParseAll(parts).Some? ==> Known(ParseAll(parts).value)
  {
    if parts != [] {
      ParsedFactors(parts[1..]);
      JoinOfSplit(parts[0], ':');
    }
  }

  predicate Known(fs: seq<Filter>) {
    forall f <- fs :: ':' !in f.factor
  }

  predicate NoDuplicates(fs: seq<Filter>) {
    forall i, j | 0 <= i < j < |fs| :: fs[i] != fs[j]
  }

  /** `uniqBy` with the filter key: the first filter with each key, in order. */
  function UniqByKey(fs: seq<Filter>): seq<Filter> {
    if fs == [] then []
    else
      var before, f := UniqByKey(fs[..|fs| - 1]), fs[|fs| - 1];
      if exists g <- before :: FilterKey(g) == FilterKey(f) then before else before + [f]
  }

  function Select(fs: seq<Filter>, keep: Filter -> bool): seq<Filter> {
    if fs == [] then []
    else
      var before, f := Select(fs[..|fs| - 1], keep), fs[|fs| - 1];
      if keep(f) then before + [f] else before
  }

  lemma {:induction false} UniqIsUnique(fs: seq<Filter>)
    requires Known(fs)
    ensures NoDuplicates(UniqByKey(fs)) && forall f :: f in UniqByKey(fs) <==> f in fs
  {
    hide FilterKey;
    if fs != [] {
      var init, f := fs[..|fs| - 1], fs[|fs| - 1];
      UniqIsUnique(init);
      assert fs == init + [f];
      assert forall x :: x in fs <==> x in init || x == f;
      if g :| g in UniqByKey(init) && FilterKey(g) == FilterKey(f) {
        FilterKeyInjective(g, f);
      }
    }
  }

  lemma {:induction false} UniqKeepsUnique(fs: seq<Filter>)
    requires Known(fs) && NoDuplicates(fs)
    ensures UniqByKey(fs) == fs
  {
    hide FilterKey;
    if fs != [] {
      var init, f := fs[..|fs| - 1], fs[|fs| - 1];
      UniqKeepsUnique(init);
      assert fs == init + [f];
      if g :| g in init && FilterKey(g) == FilterKey(f) {
        FilterKeyInjective(g, f);
      }
    }
  }

  lemma SelectSnoc(fs: seq<Filter>, f: Filter, keep: Filter -> bool)
    ensures Select(fs + [f], keep) == if keep(f) then Select(fs, keep) + [f] else Select(fs, keep)
  {
    assert (fs + [f])[..|fs|] == fs;
  }

  lemma {:induction false} SelectSelects(fs: seq<Filter>, keep: Filter -> bool)
    ensures forall f :: f in Select(fs, keep) <==> f in fs && keep(f)
    ensures NoDuplicates(fs) ==> NoDuplicates(Select(fs, keep))
  {
    if fs != [] {
      var init, f := fs[..|fs| - 1], fs[|fs| - 1];
      SelectSelects(init, keep);
      SelectSnoc(init, f, keep);
      hide Select;
      assert fs == init + [f];
      if NoDuplicates(fs) {
        assert f !in init;
      }
    }
  }

  /** The filters that are kept stay in their order. */
  lemma {:induction false} SelectInOrder(fs: seq<Filter>, keep: Filter -> bool)
    ensures Select(fs, keep) == Filtered(fs, keep)
  {
    if fs != [] {
      SelectInOrder(fs[..|fs| - 1], keep);
      FilteredSnoc(fs, keep);
    }
  }

  /** A filter that is there already is dropped, and any other is kept behind those before it. */
  lemma UniqSnoc(fs: seq<Filter>, f: Filter)
    requires Known(fs + [f])
    ensures UniqByKey([]) == []
    ensures UniqByKey(fs + [f]) == UniqByKey(fs) + if f in fs then [] else [f]
  {
    hide FilterKey;
    assert forall g <- fs :: g in fs + [f];
    UniqIsUnique(fs);
    assert (fs + [f])[..|fs|] == fs;
    KeyOfMember(UniqByKey(fs), f);
  }

  class MemoFilterState {
    var filters: seq<Filter>

    /** Reads the `filter` parameter of the page's address. */
    constructor (query: Option<string>)
      ensures filters == ParseFilterQuery(query) && Known(filters)
    {
      filters := ParseFilterQuery(query);
      if query.Some? {
        ParsedFactors(Split(query.value, ','));
      }
    }

    method GetFiltersByFactor(factor: string) returns (r: seq<Filter>)
      ensures forall f :: f in r <==> f in filters && f.factor == factor
      ensures r == Select(filters, (f: Filter) => f.factor == factor)
    {
      SelectSelects(filters, (f: Filter) => f.factor == factor);
      r := Select(filters, (f: Filter) => f.factor == factor);
    }

    /** Whatever the list was, afterwards it has no duplicates; one that had none only grows at its end. */
    method AddFilter(filter: Filter)
      requires Known(filters) && PlainFactor(filter.factor)
      modifies this
      ensures Known(filters) && NoDuplicates(filters)
      ensures forall f :: f in filters <==> f in old(filters) || f == filter
      ensures NoDuplicates(old(filters)) ==> filters == old(filters) + if filter in old(filters) then [] else [filter]
    {
      hide FilterKey;
      UniqIsUnique(filters + [filter]);
      assert (filters + [filter])[..|filters|] == filters;
      if NoDuplicates(filters) {
        UniqKeepsUnique(filters);
        KeyOfMember(filters, filter);
      }
      filters := UniqByKey(filters + [filter]);
    }

    method RemoveFilter(filterFn: Filter -> bool)
      requires Known(filters)
      modifies this
      ensures Known(filters)
      ensures forall f :: f in filters <==> f in old(filters) && !filterFn(f)
      ensures NoDuplicates(old(filters)) ==> NoDuplicates(filters)
      ensures filters == Select(old(filters), f => !filterFn(f))
    {
      SelectSelects(filters, f => !filterFn(f));
      filters := Select(filters, f => !filterFn(f));
    }

    /** A click on a tag of the tag tree turns the search for it on or off, and leaves the other filters. */
    method HandleTagClick(tag: string)
      requires Known(filters)
      modifies this
      ensures Known(filters)
      ensures Filter("tagSearch", tag) in filters <==> Filter("tagSearch", tag) !in old(filters)
      ensures forall f :: f != Filter("tagSearch", tag) ==> (f in filters <==> f in old(filters))
    {
      var tagFilters := GetFiltersByFactor("tagSearch");
      if exists f <- tagFilters :: f.value == tag {
        RemoveFilter((f: Filter) => f.factor == "tagSearch" && f.value == tag);
      } else {
        AddFilter(Filter("tagSearch", tag));
      }
    }
  }

  lemma KeyOfMember(fs: seq<Filter>, f: Filter)
    requires Known(fs + [f])
    ensures (exists g <- fs :: FilterKey(g) == FilterKey(f)) <==> f in fs
  {
    hide FilterKey;
    if g :| g in fs && FilterKey(g) == FilterKey(f) {
      assert g in fs + [f] && f in fs + [f];
      FilterKeyInjective(g, f);
    }
  }

  /** A click on a tag that is not searched for, and another one, restore the list. */
  lemma ClickTwice(fs: seq<Filter>, tag: string, keep: Filter -> bool)
    requires Known(fs) && NoDuplicates(fs) && Filter("tagSearch", tag) !in fs
    requires forall g: Filter :: keep(g) == !(g.factor == "tagSearch" && g.value == tag)
    ensures Select(UniqByKey(fs + [Filter("tagSearch", tag)]), keep) == fs
  {
    hide Select, UniqByKey;
    var f := Filter("tagSearch", tag);
    assert keep(f) == false;
    forall g <- fs ensures keep(g) {
      assert g == Filter(g.factor, g.value);
    }
    SelectSnoc(fs, f, keep);
    SelectAll(fs, keep);
    AppendNew(fs, f);
    UniqKeepsUnique(fs + [f]);
  }

  /** A click on a tag that is searched for, and another one, move its filter to the end of the list. */
  lemma ClickTwiceOnSearched(fs: seq<Filter>, tag: string, keep: Filter -> bool)
    requires Known(fs) && NoDuplicates(fs) && Filter("tagSearch", tag) in fs
    requires forall g: Filter :: keep(g) == !(g.factor == "tagSearch" && g.value == tag)
    ensures var f, again := Filter("tagSearch", tag), UniqByKey(Select(fs, keep) + [Filter("tagSearch", tag)]);
            again == Select(fs, keep) + [f] && forall g :: g in again <==> g in fs
  {
    hide Select, UniqByKey;
    var f := Filter("tagSearch", tag);
    SelectSelects(fs, keep);
    assert !keep(f);
    AppendNew(Select(fs, keep), f);
    UniqKeepsUnique(Select(fs, keep) + [f]);
    forall g | g in fs && !keep(g) ensures g == f {
      assert g == Filter(g.factor, g.value);
    }
  }

  lemma AppendNew(fs: seq<Filter>, f: Filter)
    requires Known(fs) && NoDuplicates(fs) && f !in fs && ':' !in f.factor
    ensures Known(fs + [f]) && NoDuplicates(fs + [f])
  {
  }

  lemma {:induction false} SelectAll(fs: seq<Filter>, keep: Filter -> bool)
    requires forall f <- fs :: keep(f)
    ensures Select(fs, keep) == fs
  {
    if fs != [] {
      SelectAll(fs[..|fs| - 1], keep);
    }
  }
}
