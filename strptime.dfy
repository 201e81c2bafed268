/**
 * Python's `datetime.strptime(text, fmt)` for the five format strings the
 * resolver uses.  CPython's `_strptime` compiles the format into a regular
 * expression (each directive a group of ordered alternatives, each run of
 * whitespace `\s+`, the whole compiled case-insensitively), calls
 * `re.match` on the text, refuses a match that stops before the end of the
 * text ("unconverted data remains"), converts the captured groups and
 * builds a `datetime`, whose constructor range-checks the fields.
 */
module Strptime {
  import opened Wrappers
  import opened Text

  /** A naive `datetime` (no timezone).  `strptime` with these formats never
      sets seconds or microseconds; microseconds are left out. */
  datatype DateTime = DateTime(year: int, month: int, day: int, hour: int, minute: int, second: int)

  /** `datetime.MINYEAR` and `datetime.MAXYEAR`. */
  const MinYear := 1
  const MaxYear := 9999

  predicate IsLeap(y: int) {
    y % 4 == 0 && (y % 100 != 0 || y % 400 == 0)
  }

  function DaysInMonth(y: int, m: int): (n: int)
    requires 1 <= m <= 12
    ensures 28 <= n <= 31
    ensures n == 29 <==> m == 2 && IsLeap(y)
  {
    if m == 2 then (if IsLeap(y) then 29 else 28)
    else if m == 4 || m == 6 || m == 9 || m == 11 then 30
    else 31
  }

  /** The checks of the `date` constructor. */
  predicate ValidDate(y: int, m: int, d: int) {
    MinYear <= y <= MaxYear && 1 <= m <= 12 && 1 <= d <= DaysInMonth(y, m)
  }

  /** The checks of the `datetime` constructor. */
  predicate Valid(t: DateTime) {
    ValidDate(t.year, t.month, t.day) && 0 <= t.hour <= 23 && 0 <= t.minute <= 59 && 0 <= t.second <= 59
  }

  // ---------------------------------------------------------------------
  // The compiled pattern

  /** One character position of a regex alternative.  Letters are kept in
      lower case and compared case-insensitively (the `IGNORECASE` flag). */
  datatype Atom = AnyDigit | DigitIn(lo: char, hi: char) | Char(c: char)

  /** The `strptime` directives the resolver's formats use. */
  datatype Directive =
    | WeekdayName  // %A
    | MonthName    // %B
    | Day          // %d
    | Month        // %m
    | Year         // %Y
    | Hour24       // %H
    | Hour12       // %I
    | Minute       // %M
    | AmPm         // %p

  /** One element of a compiled format: `\s+`, a literal character, or a directive's group. */
  datatype Item = Space | Lit(c: char) | Field(d: Directive)

  predicate IsDigit(c: char) {
    '0' <= c <= '9'
  }

  /** ASCII lower-casing. */
  function Lower(c: char): (r: char)
    ensures IsDigit(c) ==> r == c
  {
    if 'A' <= c <= 'Z' then (c as int + 32) as char else c
  }

  function LowerText(s: string): (r: string)
    ensures |r| == |s|
  {
    if s == [] then [] else [Lower(s[0])] + LowerText(s[1..])
  }

  function MatchAtom(a: Atom, c: char): bool {
    match a
    case AnyDigit => IsDigit(c)
    case DigitIn(lo, hi) => lo <= c <= hi
    case Char(x) => Lower(c) == x
  }

  /** The atoms `atoms` match the text at `pos`, one character each. */
  predicate AtomsMatch(atoms: seq<Atom>, s: string, pos: nat)
    requires pos <= |s|
  {
    pos + |atoms| <= |s| && forall k :: 0 <= k < |atoms| ==> MatchAtom(atoms[k], s[pos + k])
  }

  /** One alternative of a group: a run of character classes, or a name,
      which the `IGNORECASE` flag matches in any case. */
  datatype Alt = Atoms(atoms: seq<Atom>) | Name(w: string)

  /** The number of characters an alternative matches. */
  function Width(a: Alt): nat {
    match a
    case Atoms(atoms) => |atoms|
    case Name(w) => |w|
  }

  /** The alternative `a` matches the text at `pos`. */
  predicate AltMatches(a: Alt, s: string, pos: nat)
    requires pos <= |s|
    ensures AltMatches(a, s, pos) ==> pos + Width(a) <= |s|
  {
    match a
    case Atoms(atoms) => AtomsMatch(atoms, s, pos)
    case Name(w) => pos + |w| <= |s| && forall k :: 0 <= k < |w| ==> Lower(s[pos + k]) == w[k]
  }

  /** `calendar.day_name` and `calendar.month_name` in the C locale, lower-cased, in calendar order. */
  const WeekdayNames: seq<string> :=
    ["monday", "tuesday", "wednesday", "thursday", "friday", "saturday", "sunday"]
  const MonthNames: seq<string> :=
    ["january", "february", "march", "april", "may", "june", "july",
     "august", "september", "october", "november", "december"]

  /** The names as `_seqToRE` orders them in the group: longest first, ties
      in calendar order (a stable sort by length). */
  const WeekdaysByLength: seq<string> :=
    ["wednesday", "thursday", "saturday", "tuesday", "monday", "friday", "sunday"]
  const MonthsByLength: seq<string> :=
    ["september", "february", "november", "december", "january", "october",
     "august", "march", "april", "june", "july", "may"]

  /** A group of names, one alternative each. */
  function Names(ws: seq<string>): seq<Alt> {
    seq(|ws|, i requires 0 <= i < |ws| => Name(ws[i]))
  }

  /** Every alternative consumes at least one character. */
  predicate Consuming(alts: seq<Alt>) {
    forall a :: 0 <= a < |alts| ==> Width(alts[a]) >= 1
  }

  /** The regex alternatives of each directive, in the order `re` tries them. */
  function Alternatives(d: Directive): (alts: seq<Alt>)
    ensures Consuming(alts)
  {
    match d
    case WeekdayName => Names(WeekdaysByLength)
    case MonthName => Names(MonthsByLength)
    // 3[01]|[12]\d|0[1-9]|[1-9]| [1-9]
    case Day => [Atoms([Char('3'), DigitIn('0', '1')]), Atoms([DigitIn('1', '2'), AnyDigit]),
                 Atoms([Char('0'), DigitIn('1', '9')]), Atoms([DigitIn('1', '9')]), Atoms([Char(' '), DigitIn('1', '9')])]
    // 1[0-2]|0[1-9]|[1-9]
    case Month => [Atoms([Char('1'), DigitIn('0', '2')]), Atoms([Char('0'), DigitIn('1', '9')]), Atoms([DigitIn('1', '9')])]
    // \d\d\d\d
    case Year => [Atoms([AnyDigit, AnyDigit, AnyDigit, AnyDigit])]
    // 2[0-3]|[0-1]\d|\d
    case Hour24 => [Atoms([Char('2'), DigitIn('0', '3')]), Atoms([DigitIn('0', '1'), AnyDigit]), Atoms([AnyDigit])]
    // 1[0-2]|0[1-9]|[1-9]
    case Hour12 => [Atoms([Char('1'), DigitIn('0', '2')]), Atoms([Char('0'), DigitIn('1', '9')]), Atoms([DigitIn('1', '9')])]
    // [0-5]\d|\d
    case Minute => [Atoms([DigitIn('0', '5'), AnyDigit]), Atoms([AnyDigit])]
    // am|pm
    case AmPm => [Name("am"), Name("pm")]
  }

  /** The patterns `_TimeRE.pattern` compiles from the resolver's format
      strings: each run of whitespace is `\s+`, each `%x` its directive's
      group, any other character itself. */
  const WeekdayMonthDay: seq<Item> :=   // "%A, %B %d"
    [Field(WeekdayName), Lit(','), Space, Field(MonthName), Space, Field(Day)]
  const MonthDayYear: seq<Item> :=      // "%B %d, %Y"
    [Field(MonthName), Space, Field(Day), Lit(','), Space, Field(Year)]
  const IsoDate: seq<Item> :=           // "%Y-%m-%d"
    [Field(Year), Lit('-'), Field(Month), Lit('-'), Field(Day)]
  const Clock12: seq<Item> :=           // "%I:%M %p"
    [Field(Hour12), Lit(':'), Field(Minute), Space, Field(AmPm)]
  const Clock24: seq<Item> :=           // "%H:%M"
    [Field(Hour24), Lit(':'), Field(Minute)]

  // ---------------------------------------------------------------------
  // re.match: a backtracking matcher

  datatype Capture = Capture(d: Directive, text: string)

  /** The groups captured, in pattern order, and where the match ended. */
  datatype Match = Match(captures: seq<Capture>, end: nat)

  /** The number of whitespace characters starting at `pos`. */
  function SpaceRun(s: string, pos: nat): (n: nat)
    requires pos <= |s|
    ensures pos + n <= |s|
    decreases |s| - pos
  {
    if pos < |s| && IsSpace(s[pos]) then 1 + SpaceRun(s, pos + 1) else 0
  }

  /** `re.match` of the pattern `fmt` from its item `i` on, at `pos`: the
      first way, in the engine's order of preference, to match the rest of
      the pattern; it need not reach the end of `s`.  Every item consumes
      at least one character, so the matcher recurses on the text left. */
  function MatchFrom(fmt: seq<Item>, i: nat, s: string, pos: nat): (r: Option<Match>)
    requires i <= |fmt| && pos <= |s|
    ensures r.Some? ==> pos <= r.value.end <= |s|
    decreases |s| - pos, 1, 0
  {
    if i == |fmt| then Some(Match([], pos))
    else match fmt[i]
      case Lit(c) =>
        if pos < |s| && Lower(s[pos]) == Lower(c) then MatchFrom(fmt, i + 1, s, pos + 1) else None
      case Space => TrySpaces(fmt, i + 1, s, pos, SpaceRun(s, pos))
      case Field(d) => Group(d, fmt, i + 1, s, pos)
  }

  /** Greedy `\s+` before item `i`: take `k` whitespace characters, then
      fewer on backtracking, never none. */
  function TrySpaces(fmt: seq<Item>, i: nat, s: string, pos: nat, k: nat): (r: Option<Match>)
    requires i <= |fmt| && pos + k <= |s|
    ensures r.Some? ==> pos <= r.value.end <= |s|
    decreases |s| - pos, 0, k
  {
    if k == 0 then None
    else match MatchFrom(fmt, i, s, pos + k)
      case Some(m) => Some(m)
      case None => TrySpaces(fmt, i, s, pos, k - 1)
  }

  /** The group of directive `d` before item `i`. */
  function Group(d: Directive, fmt: seq<Item>, i: nat, s: string, pos: nat): (r: Option<Match>)
    requires i <= |fmt| && pos <= |s|
    ensures r.Some? ==> pos <= r.value.end <= |s|
    decreases |s| - pos, 0, |Alternatives(d)| + 1
  {
    TryAlts(d, Alternatives(d), 0, fmt, i, s, pos)
  }

  /** The group of directive `d`, whose alternatives are `alts`, before
      item `i`: the alternatives from the `j`-th on, in order, each followed
      by the rest of the pattern. */
  function TryAlts(d: Directive, alts: seq<Alt>, j: nat, fmt: seq<Item>, i: nat, s: string, pos: nat): (r: Option<Match>)
    requires Consuming(alts) && j <= |alts| && i <= |fmt| && pos <= |s|
    ensures r.Some? ==> pos <= r.value.end <= |s|
    decreases |s| - pos, 0, |alts| - j
  {
    if j == |alts| then None
    else if AltMatches(alts[j], s, pos) then
      var next := pos + Width(alts[j]);
      match MatchFrom(fmt, i, s, next)
      case Some(m) => Some(Match([Capture(d, s[pos..next])] + m.captures, m.end))
      case None => TryAlts(d, alts, j + 1, fmt, i, s, pos)
    else TryAlts(d, alts, j + 1, fmt, i, s, pos)
  }

  // ---------------------------------------------------------------------
  // Converting the groups

  /** The text captured for directive `d`, if the pattern has that group. */
  function Lookup(caps: seq<Capture>, d: Directive): Option<string> {
    LookupFrom(caps, d, 0)
  }

  /** The first capture for `d` at or after place `i`. */
  function LookupFrom(caps: seq<Capture>, d: Directive, i: nat): Option<string>
    requires i <= |caps|
    decreases |caps| - i
  {
    if i == |caps| then None
    else if caps[i].d == d then Some(caps[i].text)
    else LookupFrom(caps, d, i + 1)
  }

  /** The decimal value of the digits `s`, read after the value `acc` of the digits before them. */
  function DigitsValue(s: string, acc: nat): nat {
    if s == [] then acc
    else DigitsValue(s[1..], acc * 10 + (if IsDigit(s[0]) then s[0] as int - '0' as int else 0))
  }

  /** `int(text)` of a captured number; the day group may start with one space. */
  function Number(s: string): nat {
    if s != [] && s[0] == ' ' then DigitsValue(s[1..], 0) else DigitsValue(s, 0)
  }

  /** `names.index(name)`, counted from 1. */
  function Position(names: seq<string>, name: string): (r: Option<int>)
    ensures r.Some? ==> 1 <= r.value <= |names|
  {
    PositionFrom(names, name, 0)
  }

  /** The place, counted from 1, of the first `name` at or after index `i`. */
  function PositionFrom(names: seq<string>, name: string, i: nat): (r: Option<int>)
    requires i <= |names|
    ensures r.Some? ==> i < r.value <= |names|
    decreases |names| - i
  {
    if i == |names| then None
    else if names[i] == name then Some(i + 1)
    else PositionFrom(names, name, i + 1)
  }

  /** The `%I` rule: with `am` (or no marker) 12 means 0; with `pm` 12 stays and 1..11 gain 12.
      A twelve-hour reading with a marker is an hour of the day, in the
      marker's half of it and on the same twelve-hour dial. */
  function ClockHour(hour12: int, marker: string): (r: int)
    ensures 1 <= hour12 <= 12 && (marker == "am" || marker == "pm") ==>
              && 0 <= r <= 23 && r % 12 == hour12 % 12
              && (r < 12 <==> marker == "am")
  {
    if marker == "" || marker == "am" then (if hour12 == 12 then 0 else hour12)
    else if marker == "pm" then (if hour12 != 12 then hour12 + 12 else hour12)
    else hour12
  }

  datatype StrptimeError =
    | DoesNotMatch            // "time data ... does not match format ..."
    | UnconvertedDataRemains  // the match stopped before the end of the text
    | UnknownName             // a captured name missing from the locale's list
    | OutOfRange              // the date or datetime constructor refused the fields

  datatype Result<T> = Ok(value: T) | Err(error: StrptimeError)

  /** `_strptime`'s conversion of the groups, then the `datetime` constructor.
      Missing fields default to 1900-01-01 00:00.  A weekday name is looked up
      and then ignored.  Without a year, February 29 is first checked against
      1904 and then built in 1900, so it is refused. */
  function Build(caps: seq<Capture>): (r: Result<DateTime>)
    ensures r.Ok? ==> Valid(r.value) && r.value.second == 0
  {
    var weekday :=
      match Lookup(caps, WeekdayName)
      case None => Some(0)
      case Some(w) => Position(WeekdayNames, LowerText(w));
    var month :=
      match Lookup(caps, Month)
      case Some(t) => Some(Number(t))
      case None =>
        match Lookup(caps, MonthName)
        case None => Some(1)
        case Some(t) => Position(MonthNames, LowerText(t));
    if weekday.None? || month.None? then Err(UnknownName)
    else
      var year := match Lookup(caps, Year) case Some(t) => Number(t) case None => 1900;
      var day := match Lookup(caps, Day) case Some(t) => Number(t) case None => 1;
      var marker := match Lookup(caps, AmPm) case Some(t) => LowerText(t) case None => "";
      var hour :=
        match Lookup(caps, Hour24)
        case Some(t) => Number(t)
        case None =>
          match Lookup(caps, Hour12)
          case Some(t) => ClockHour(Number(t), marker)
          case None => 0;
      var minute := match Lookup(caps, Minute) case Some(t) => Number(t) case None => 0;
      var t := DateTime(year, month.value, day, hour, minute, 0);
      if Valid(t) then Ok(t) else Err(OutOfRange)
  }

  /** `datetime.strptime(s, fmt)` for the compiled format `fmt`; every
      `ValueError` it raises is an `Err`. */
  function Parse(fmt: seq<Item>, s: string): (r: Result<DateTime>)
    ensures r.Ok? ==> Valid(r.value) && r.value.second == 0
  {
    match MatchFrom(fmt, 0, s, 0)
    case None => Err(DoesNotMatch)
    case Some(m) => if m.end != |s| then Err(UnconvertedDataRemains) else Build(m.captures)
  }
}
