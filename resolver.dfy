/**
 * `parse_datetime`: resolves the `Event Date` text and one event time text,
 * as the language model wrote them, to a single naive timestamp, or to
 * nothing.  The date formats and then the time formats are tried in a fixed
 * order; a date without a year gets the current year; every failure,
 * including one raised inside, gives `None`.
 */
module DateTimeResolver {
  import opened Wrappers
  import opened Text
  import opened Strptime
  import opened StrptimeFacts

  /** `date_formats`, in the order they are tried. */
  const DateFormats: seq<seq<Item>> := [WeekdayMonthDay, MonthDayYear, IsoDate]

  /** `time_formats`, in the order they are tried. */
  const TimeFormats: seq<seq<Item>> := [Clock12, Clock24]

  /** What a `for fmt in formats: try: strptime(...); break` loop leaves when
      it starts at format `i`: the value of the first format that accepts `s`. */
  function FirstParse(formats: seq<seq<Item>>, s: string, i: nat): (r: Option<DateTime>)
    requires i <= |formats|
    ensures r.Some? ==> Valid(r.value) && r.value.second == 0
    decreases |formats| - i
  {
    if i == |formats| then None
    else match Parse(formats[i], s)
      case Ok(t) => Some(t)
      case Err(_) => FirstParse(formats, s, i + 1)
  }

  /** `not s` for a `str` or `None`. */
  predicate Blank(s: Option<string>) {
    s.None? || s.value == []
  }

  /** `t.replace(year=year)`: the same fields in another year, or the
      `ValueError` (here `None`) of a date that year does not have. */
  function ReplaceYear(t: DateTime, year: int): (r: Option<DateTime>)
    requires Valid(t)
    ensures r.Some? <==> ValidDate(year, t.month, t.day)
    ensures r.Some? ==> Valid(r.value) && r.value == t.(year := year)
  {
    if ValidDate(year, t.month, t.day) then Some(t.(year := year)) else None
  }

  /** `datetime.combine(d.date(), t.time())`. */
  function Combine(d: DateTime, t: DateTime): (r: DateTime)
    requires Valid(d) && Valid(t)
    ensures Valid(r)
  {
    DateTime(d.year, d.month, d.day, t.hour, t.minute, t.second)
  }

  /** What `parse_datetime(date_str, time_str)` returns when `datetime.now()`
      falls in `currentYear`.  A parsed year of 1900 is the one `strptime`
      fills in when the format has none, and is replaced by the current
      year; `replace` refusing the date is caught by the outer `except`. */
  function ResolveDateTime(dateText: Option<string>, timeText: Option<string>, currentYear: int): (r: Option<DateTime>)
    ensures Blank(dateText) || Blank(timeText) ==> r.None?
    ensures r.Some? ==> Valid(r.value) && r.value.second == 0
    ensures r.Some? && currentYear != 1900 ==> r.value.year != 1900
  {
    if Blank(dateText) || Blank(timeText) then None
    else match FirstParse(DateFormats, dateText.value, 0)
      case None => None
      case Some(parsed) =>
        var date := if parsed.year == 1900 then ReplaceYear(parsed, currentYear) else Some(parsed);
        match date
        case None => None
        case Some(day) =>
          match FirstParse(TimeFormats, timeText.value, 0)
          case None => None
          case Some(clock) => Some(Combine(day, clock))
  }

  /** `parse_datetime` itself: the two `for`/`break` loops over the format
      lists, with an early `None` after each. */
  method ParseDateTime(dateText: Option<string>, timeText: Option<string>, currentYear: int) returns (r: Option<DateTime>)
    ensures r == ResolveDateTime(dateText, timeText, currentYear)
  {
    if Blank(dateText) || Blank(timeText) {
      return None;
    }
    var dateStr, timeStr := dateText.value, timeText.value;

    var parsedDate: Option<DateTime> := None;
    for i := 0 to |DateFormats|
      invariant parsedDate.None?
      invariant FirstParse(DateFormats, dateStr, i) == FirstParse(DateFormats, dateStr, 0)
    {
      var attempt := Parse(DateFormats[i], dateStr);
      if attempt.Ok? {
        parsedDate := Some(attempt.value);
        break;
      }
    }
    assert parsedDate == FirstParse(DateFormats, dateStr, 0);
    if parsedDate.None? {
      return None;
    }

    var date := parsedDate.value;
    if date.year == 1900 {
      var replaced := ReplaceYear(date, currentYear);
      if replaced.None? {
        return None;
      }
      date := replaced.value;
    }

    var parsedTime: Option<DateTime> := None;
    for i := 0 to |TimeFormats|
      invariant parsedTime.None?
      invariant FirstParse(TimeFormats, timeStr, i) == FirstParse(TimeFormats, timeStr, 0)
    {
      var attempt := Parse(TimeFormats[i], timeStr);
      if attempt.Ok? {
        parsedTime := Some(attempt.value);
        break;
      }
    }
    assert parsedTime == FirstParse(TimeFormats, timeStr, 0);
    if parsedTime.None? {
      return None;
    }
    return Some(Combine(date, parsedTime.value));
  }

  // ---------------------------------------------------------------------
  // The order of the formats

  /** The loop picks the first format, counting from `i`, that accepts the
      text: it gives `t` exactly when some format gives `t` and every
      earlier one raises. */
  lemma {:induction false} FirstParseIsFirst(formats: seq<seq<Item>>, s: string, i: nat, t: DateTime)
    requires i <= |formats|
    ensures FirstParse(formats, s, i) == Some(t)
            <==> exists k :: i <= k < |formats| && Parse(formats[k], s) == Ok(t)
                             && forall j :: i <= j < k ==> Parse(formats[j], s).Err?
    decreases |formats| - i
  {
    if i < |formats| {
      FirstParseIsFirst(formats, s, i + 1, t);
      if Parse(formats[i], s).Err? && FirstParse(formats, s, i + 1) == Some(t) {
        var k :| i + 1 <= k < |formats| && Parse(formats[k], s) == Ok(t)
                 && forall j :: i + 1 <= j < k ==> Parse(formats[j], s).Err?;
        assert forall j :: i <= j < k ==> Parse(formats[j], s).Err?;
      }
    }
  }

  /** The loop gives nothing exactly when every format raises. */
  lemma {:induction false} FirstParseNone(formats: seq<seq<Item>>, s: string, i: nat)
    requires i <= |formats|
    ensures FirstParse(formats, s, i).None? <==> forall k :: i <= k < |formats| ==> Parse(formats[k], s).Err?
    decreases |formats| - i
  {
    if i < |formats| {
      FirstParseNone(formats, s, i + 1);
    }
  }

  // ---------------------------------------------------------------------
  // Time texts

  /** A text with no whitespace in it. */
  predicate Unspaced(s: string) {
    forall q :: 0 <= q < |s| ==> !IsSpace(s[q])
  }

  lemma {:induction false} NumeralUnspaced(t: string, n: nat)
    requires Numeral(t, n)
    ensures Unspaced(t) && t != [] && IsDigit(t[0])
  {
    forall q | 0 <= q < |t| ensures !IsSpace(t[q]) {
      DigitNotSpace(t[q]);
    }
  }

  /** `H:MM` or `HH:MM` followed by `tail`, on the twenty-four-hour clock. */
  function ClockText(th: string, mi: nat, tail: string): string
    requires mi <= 99
  {
    th + ":" + Pad2(mi) + tail
  }

  lemma {:induction false} ClockTextUnspaced(h: nat, mi: nat, th: string, tail: string)
    requires mi <= 59 && Numeral(th, h) && Unspaced(tail)
    ensures Unspaced(ClockText(th, mi, tail))
  {
    var s := ClockText(th, mi, tail);
    NumeralUnspaced(th, h);
    NumeralUnspaced(Pad2(mi), mi);
    forall q | 0 <= q < |s| ensures !IsSpace(s[q]) {
      if q < |th| {
        assert s[q] == th[q];
      } else if q == |th| {
        assert s[q] == ':';
      } else if q < |th| + 3 {
        assert s[q] == Pad2(mi)[q - |th| - 1];
      } else {
        assert s[q] == tail[q - |th| - 3];
      }
    }
  }

  /** A twenty-four-hour clock time is read by `%H:%M` once `%I:%M %p` has
      refused it for lacking the space before the marker. */
  lemma {:induction false} Clock24Time(h: nat, mi: nat, th: string)
    requires h <= 23 && mi <= 59 && Numeral(th, h)
    ensures FirstParse(TimeFormats, ClockText(th, mi, []), 0) == Some(DateTime(1900, 1, 1, h, mi, 0))
  {
    var s := ClockText(th, mi, []);
    ClockTextUnspaced(h, mi, th, []);
    Clock12NeedsSpace(s);
    assert s == th + ":" + Pad2(mi) + [];
    Clock24Parse(h, mi, th, []);
    assert FirstParse(TimeFormats, s, 2) == None;
  }

  /** A clock time with seconds, such as `12:30:00`, is refused by both time formats. */
  lemma {:induction false} SecondsRefused(h: nat, mi: nat, sec: nat, th: string)
    requires h <= 23 && mi <= 59 && sec <= 59 && Numeral(th, h)
    ensures FirstParse(TimeFormats, ClockText(th, mi, ":" + Pad2(sec)), 0).None?
  {
    var tail := ":" + Pad2(sec);
    var s := ClockText(th, mi, tail);
    NumeralUnspaced(Pad2(sec), sec);
    assert Unspaced(tail) by {
      forall q | 0 <= q < |tail| ensures !IsSpace(tail[q]) {
        if q > 0 {
          assert tail[q] == Pad2(sec)[q - 1];
        }
      }
    }
    ClockTextUnspaced(h, mi, th, tail);
    Clock12NeedsSpace(s);
    assert s == th + ":" + Pad2(mi) + tail;
    Clock24Parse(h, mi, th, tail);
    assert FirstParse(TimeFormats, s, 2) == None;
  }

  /** A twelve-hour clock time with its marker is read by `%I:%M %p`, the first time format. */
  lemma {:induction false} Clock12Time(h: nat, mi: nat, th: string, marker: string)
    requires h <= 23 && mi <= 59 && Numeral(th, Hour12Of(h)) && Spells(marker, MarkerOf(h))
    ensures FirstParse(TimeFormats, th + ":" + Pad2(mi) + " " + marker, 0) == Some(DateTime(1900, 1, 1, h, mi, 0))
  {
    Clock12RoundTrip(h, mi, th, marker);
  }

  // ---------------------------------------------------------------------
  // Date texts

  /** The ISO text of a date is refused by both name formats and read by `%Y-%m-%d`. */
  lemma {:induction false} IsoDateFirst(y: nat, m: nat, d: nat)
    requires ValidDate(y, m, d)
    ensures FirstParse(DateFormats, IsoText(y, m, d), 0) == Some(DateTime(y, m, d, 0, 0, 0))
  {
    var s := IsoText(y, m, d);
    assert s[0] == Pad2(y / 100)[0];
    NameNeedsLetter(WeekdayName, WeekdayMonthDay, s);
    NameNeedsLetter(MonthName, MonthDayYear, s);
    IsoDateRoundTrip(y, m, d);
    assert FirstParse(DateFormats, s, 2) == Some(DateTime(y, m, d, 0, 0, 0));
    assert FirstParse(DateFormats, s, 1) == Some(DateTime(y, m, d, 0, 0, 0));
  }

  /** An ISO date with a twenty-four-hour clock time resolves to that date
      and time; the year 1900 is taken for "no year" and replaced. */
  lemma {:induction false} IsoDateResolved(y: nat, m: nat, d: nat, h: nat, mi: nat, th: string, currentYear: int)
    requires ValidDate(y, m, d) && h <= 23 && mi <= 59 && Numeral(th, h)
    ensures ResolveDateTime(Some(IsoText(y, m, d)), Some(ClockText(th, mi, [])), currentYear)
            == if y != 1900 then Some(DateTime(y, m, d, h, mi, 0))
               else if ValidDate(currentYear, m, d) then Some(DateTime(currentYear, m, d, h, mi, 0))
               else None
  {
    IsoDateFirst(y, m, d);
    Clock24Time(h, mi, th);
  }

  /** A date written `Weekday, Month D` (a weekday, a month and a day, no
      year) resolves in the current year, whichever weekday is named; a day
      that 1900 lacks (February 29) or the current year lacks is refused. */
  lemma {:induction false} WeekdayDateResolved(w: nat, m: nat, d: nat, wt: string, mt: string, dt: string,
                                               h: nat, mi: nat, th: string, marker: string, currentYear: int)
    requires w < 7 && Spells(wt, WeekdayNames[w])
    requires 1 <= m <= 12 && Spells(mt, MonthNames[m - 1])
    requires 1 <= d <= 31 && Numeral(dt, d)
    requires h <= 23 && mi <= 59 && Numeral(th, Hour12Of(h)) && Spells(marker, MarkerOf(h))
    ensures ResolveDateTime(Some(wt + ", " + mt + " " + dt), Some(th + ":" + Pad2(mi) + " " + marker), currentYear)
            == if ValidDate(1900, m, d) && ValidDate(currentYear, m, d)
               then Some(DateTime(currentYear, m, d, h, mi, 0))
               else None
  {
    WeekdayDateFirst(w, m, d, wt, mt, dt);
    Clock12Time(h, mi, th, marker);
  }

  /** `%A, %B %d` reads a weekday, a month and a day as that day in 1900, or
      refuses a day 1900 lacks, and then neither later format matches. */
  lemma {:induction false} WeekdayDateFirst(w: nat, m: nat, d: nat, wt: string, mt: string, dt: string)
    requires w < 7 && Spells(wt, WeekdayNames[w])
    requires 1 <= m <= 12 && Spells(mt, MonthNames[m - 1])
    requires 1 <= d <= 31 && Numeral(dt, d)
    ensures FirstParse(DateFormats, wt + ", " + mt + " " + dt, 0)
            == if ValidDate(1900, m, d) then Some(DateTime(1900, m, d, 0, 0, 0)) else None
  {
    var s := wt + ", " + mt + " " + dt;
    assert s + [] == s;
    HeadApart(wt, ", ", mt, " ", dt, []);
    WeekdayMonthDayParse(w, m, d, wt, mt, dt, []);
    WeekdayFirstRefused(w, wt, ", " + mt + " " + dt);
    assert FirstParse(DateFormats, s, 1) == None by {
      assert FirstParse(DateFormats, s, 2) == None;
    }
  }

  /** Regrouping a text of six pieces around its first one. */
  lemma {:induction false} HeadApart(x1: string, x2: string, x3: string, x4: string, x5: string, x6: string)
    ensures x1 + x2 + x3 + x4 + x5 + x6 == x1 + (x2 + x3 + x4 + x5 + x6)
    ensures x1 + x2 + x3 + x4 + x5 == x1 + (x2 + x3 + x4 + x5)
  {
  }

  /** A date written `Weekday, Month D, YYYY` matches none of the date
      formats: `%A, %B %d` stops before `, YYYY`, and the other two need a
      month name or a digit first. */
  lemma {:induction false} WeekdayWithYearRefused(w: nat, m: nat, d: nat, y: nat, wt: string, mt: string, dt: string)
    requires w < 7 && Spells(wt, WeekdayNames[w])
    requires 1 <= m <= 12 && Spells(mt, MonthNames[m - 1])
    requires 1 <= d <= 31 && Numeral(dt, d) && y <= 9999
    ensures FirstParse(DateFormats, wt + ", " + mt + " " + dt + ", " + Pad4(y), 0).None?
  {
    var tail := ", " + Pad4(y);
    var s := wt + ", " + mt + " " + dt + tail;
    assert wt + ", " + mt + " " + dt + ", " + Pad4(y) == s;
    HeadApart(wt, ", ", mt, " ", dt, tail);
    WeekdayMonthDayParse(w, m, d, wt, mt, dt, tail);
    WeekdayFirstRefused(w, wt, ", " + mt + " " + dt + tail);
    assert FirstParse(DateFormats, s, 1) == None by {
      assert FirstParse(DateFormats, s, 2) == None;
    }
  }

  /** A date written `Month D, YYYY` resolves to that date, with 1900
      replaced by the current year like a missing year; a date that does
      not exist is refused. */
  lemma {:induction false} MonthDayYearResolved(m: nat, d: nat, y: nat, mt: string, dt: string,
                                                h: nat, mi: nat, th: string, currentYear: int)
    requires 1 <= m <= 12 && Spells(mt, MonthNames[m - 1])
    requires 1 <= d <= 31 && Numeral(dt, d) && y <= 9999
    requires h <= 23 && mi <= 59 && Numeral(th, h)
    ensures ResolveDateTime(Some(mt + " " + dt + ", " + Pad4(y)), Some(ClockText(th, mi, [])), currentYear)
            == if !ValidDate(y, m, d) then None
               else if y != 1900 then Some(DateTime(y, m, d, h, mi, 0))
               else if ValidDate(currentYear, m, d) then Some(DateTime(currentYear, m, d, h, mi, 0))
               else None
  {
    MonthDayYearFirst(m, d, y, mt, dt);
    Clock24Time(h, mi, th);
  }

  /** `%A, %B %d` refuses a month name first, `%B %d, %Y` reads the date or
      refuses one that does not exist, and `%Y-%m-%d` then refuses it too. */
  lemma {:induction false} MonthDayYearFirst(m: nat, d: nat, y: nat, mt: string, dt: string)
    requires 1 <= m <= 12 && Spells(mt, MonthNames[m - 1])
    requires 1 <= d <= 31 && Numeral(dt, d) && y <= 9999
    ensures FirstParse(DateFormats, mt + " " + dt + ", " + Pad4(y), 0)
            == if ValidDate(y, m, d) then Some(DateTime(y, m, d, 0, 0, 0)) else None
  {
    var s := mt + " " + dt + ", " + Pad4(y);
    assert s == mt + (" " + dt + ", " + Pad4(y));
    MonthFirstRefused(m, mt, " " + dt + ", " + Pad4(y));
    assert s + [] == s;
    MonthDayYearParse(y, m, d, mt, dt, []);
    NameFacts();
    assert Lower(s[0]) == MonthNames[m - 1][0];
    IsoDateNeedsDigit(s);
    assert FirstParse(DateFormats, s, 2) == None;
  }

  // ---------------------------------------------------------------------
  // The texts of `test_date_time_conversion`

  /** `parse_datetime("2024-12-31", "09:00")` is 2024-12-31 09:00:00. */
  lemma {:induction false} IsoExample(currentYear: int)
    ensures ResolveDateTime(Some("2024-12-31"), Some("09:00"), currentYear) == Some(DateTime(2024, 12, 31, 9, 0, 0))
  {
    assert IsoText(2024, 12, 31) == "2024-12-31";
    assert ClockText("09", 0, []) == "09:00";
    IsoDateResolved(2024, 12, 31, 9, 0, "09", currentYear);
  }

  /** `parse_datetime(date, "12:30:00")` is `None` for every date: neither
      time format reads seconds. */
  lemma {:induction false} SecondsExample(dateText: Option<string>, currentYear: int)
    ensures ResolveDateTime(dateText, Some("12:30:00"), currentYear) == None
  {
    assert ClockText("12", 30, ":" + Pad2(0)) == "12:30:00";
    SecondsRefused(12, 30, 0, "12");
  }

  /** `parse_datetime("Thursday, April 25, 2024", time)` is `None` for every time. */
  lemma {:induction false} WeekdayWithYearExample(dateText: string, timeText: Option<string>, currentYear: int)
    requires dateText == "Thursday, April 25, 2024"
    ensures ResolveDateTime(Some(dateText), timeText, currentYear) == None
  {
    assert Spells("Thursday", WeekdayNames[3]);
    assert Spells("April", MonthNames[3]);
    assert "Thursday" + ", " + "April" + " " + "25" + ", " + Pad4(2024) == "Thursday, April 25, 2024";
    WeekdayWithYearRefused(3, 4, 25, 2024, "Thursday", "April", "25");
  }

  /** `February 29` without a year is refused even in a leap year, because
      the day is checked against 1900 before the year is replaced. */
  lemma {:induction false} LeapDayExample(dateText: string, timeText: Option<string>)
    requires dateText == "Thursday, February 29"
    ensures ResolveDateTime(Some(dateText), timeText, 2024) == None
  {
    assert Spells("Thursday", WeekdayNames[3]);
    assert Spells("February", MonthNames[1]);
    assert "Thursday" + ", " + "February" + " " + "29" == "Thursday, February 29";
    WeekdayDateFirst(3, 2, 29, "Thursday", "February", "29");
  }

  /** `parse_datetime("Thursday, April 25", "9:00 AM")` in 2024 is 2024-04-25 09:00. */
  lemma {:induction false} YearInferenceExample(dateText: string, timeText: string)
    requires dateText == "Thursday, April 25" && timeText == "9:00 AM"
    ensures ResolveDateTime(Some(dateText), Some(timeText), 2024) == Some(DateTime(2024, 4, 25, 9, 0, 0))
  {
    assert Spells("Thursday", WeekdayNames[3]);
    assert Spells("April", MonthNames[3]);
    assert Spells("AM", MarkerOf(9));
    assert "Thursday" + ", " + "April" + " " + "25" == "Thursday, April 25";
    assert "9" + ":" + Pad2(0) + " " + "AM" == "9:00 AM";
    WeekdayDateResolved(3, 4, 25, "Thursday", "April", "25", 9, 0, "9", "AM", 2024);
  }

  /** `parse_datetime(date, "9ish")` is `None` for every date: `%I:%M %p`
      needs a space before the marker, and `%H:%M` reads the hour `9` and
      then finds `i` where it needs `:`. */
  lemma {:induction false} UnrecognisedTimeExample(dateText: Option<string>, timeText: string, currentYear: int)
    requires timeText == "9ish"
    ensures ResolveDateTime(dateText, Some(timeText), currentYear) == None
  {
    var s := timeText;
    assert Unspaced(s) by {
      assert s[0] == '9' && s[1] == 'i' && s[2] == 's' && s[3] == 'h';
    }
    Clock12NeedsSpace(s);
    var alts := Alternatives(Hour24);
    MatchLit(Clock24, 1, ':', s, 1);
    assert Fails(alts[0], Clock24, 1, s, 0) && Fails(alts[1], Clock24, 1, s, 0);
    assert Fails(alts[2], Clock24, 1, s, 0);
    TryAltsFail(Hour24, alts, Clock24, 1, s, 0);
    MatchField(Clock24, 0, Hour24, s, 0);
    assert Parse(TimeFormats[1], s) == Err(DoesNotMatch);
    assert FirstParse(TimeFormats, s, 2) == None;
    assert FirstParse(TimeFormats, s, 0) == None;
  }
}
