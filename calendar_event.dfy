/**
 * The part of `create_calendar_event` that does not talk to the calendar
 * service: resolving the start and end against the same `Event Date`, the
 * one-hour default end, and the field defaults of the event record.
 */
module CalendarEvent {
  import opened Wrappers
  import opened Text
  import opened Strptime
  import opened StrptimeFacts
  import opened DateTimeResolver
  import EventInfo

  const DateKey: string := "Event Date"
  const StartKey: string := "Event Start Time"
  const EndKey: string := "Event End Time"
  const TitleKey: string := "Event Title"
  const LocationKey: string := "Event Location"
  const DescriptionKey: string := "Event Description"

  /** The summary of an event whose data has no title. */
  const Untitled: string := "Untitled Event"

  /** The event body sent to the calendar, without the fixed time zone and
      with the timestamps left as values rather than ISO text. */
  datatype Event = Event(summary: string, location: string, description: string, start: DateTime, end: DateTime)

  /** `data.get(key)`. */
  function Get(data: map<string, string>, key: string): Option<string> {
    if key in data then Some(data[key]) else None
  }

  /** `data.get(key, default)`. */
  function GetOr(data: map<string, string>, key: string, default: string): string {
    if key in data then data[key] else default
  }

  // ---------------------------------------------------------------------
  // Counting time, as `datetime` arithmetic does

  /** Days in the years before `y` (`_days_before_year`). */
  function DaysBeforeYear(y: int): int {
    var p := y - 1;
    p * 365 + p / 4 - p / 100 + p / 400
  }

  /** Days in the months of year `y` before month `m` (`_days_before_month`). */
  function DaysBeforeMonth(y: int, m: int): int
    requires 1 <= m <= 12
  {
    [0, 31, 59, 90, 120, 151, 181, 212, 243, 273, 304, 334][m - 1] + if m > 2 && IsLeap(y) then 1 else 0
  }

  /** `date(y, m, d).toordinal()`: 1 for January 1 of year 1. */
  function DayNumber(y: int, m: int, d: int): int
    requires 1 <= m <= 12
  {
    DaysBeforeYear(y) + DaysBeforeMonth(y, m) + d
  }

  /** The seconds from midnight before January 1 of year 1 to `t`. */
  function Seconds(t: DateTime): int
    requires 1 <= t.month <= 12
  {
    ((DayNumber(t.year, t.month, t.day) * 24 + t.hour) * 60 + t.minute) * 60 + t.second
  }

  /** A year is 365 days, 366 in a leap year. */
  lemma {:induction false} YearLength(y: int)
    requires y >= 1
    ensures DaysBeforeYear(y + 1) == DaysBeforeYear(y) + if IsLeap(y) then 366 else 365
  {
    Multiples4(y);
    Multiples100(y);
    Multiples400(y);
  }

  /** Among 1..y there is one more multiple of 4 (of 100, of 400) than among
      1..y-1 exactly when `y` is one. */
  lemma {:induction false} Multiples4(y: int)
    ensures y / 4 == (y - 1) / 4 + if y % 4 == 0 then 1 else 0
  {
  }

  lemma {:induction false} Multiples100(y: int)
    ensures y / 100 == (y - 1) / 100 + if y % 100 == 0 then 1 else 0
  {
  }

  lemma {:induction false} Multiples400(y: int)
    ensures y / 400 == (y - 1) / 400 + if y % 400 == 0 then 1 else 0
  {
  }

  /** The calendar day after `y-m-d`; its year is `MaxYear + 1` after the last day. */
  function NextDay(y: int, m: int, d: int): (r: (int, int, int))
    requires ValidDate(y, m, d)
    ensures r.0 <= MaxYear ==> ValidDate(r.0, r.1, r.2)
    ensures r.0 > MaxYear <==> y == MaxYear && m == 12 && d == 31
    ensures 1 <= r.1 <= 12 && DayNumber(r.0, r.1, r.2) == DayNumber(y, m, d) + 1
  {
    if d < DaysInMonth(y, m) then (y, m, d + 1)
    else if m < 12 then (y, m + 1, 1)
    else YearLength(y); (y + 1, 1, 1)
  }

  // ---------------------------------------------------------------------
  // The one-hour default end

  /** `t.replace(hour=hour)`: the same timestamp at another hour, or the
      `ValueError` (here `None`) of an hour outside 0..23. */
  function ReplaceHour(t: DateTime, hour: int): (r: Option<DateTime>)
    requires Valid(t)
    ensures r.Some? <==> 0 <= hour <= 23
    ensures r.Some? ==> Valid(r.value) && r.value == t.(hour := hour)
  {
    if 0 <= hour <= 23 then Some(t.(hour := hour)) else None
  }

  /** The default end as written, `start.replace(hour=start.hour + 1)`: one
      hour later on the same day, and nothing from 23:00 on. */
  function NextHourAsWritten(start: DateTime): (r: Option<DateTime>)
    requires Valid(start)
    ensures r.Some? <==> start.hour < 23
    ensures r.Some? ==> Valid(r.value) && Seconds(r.value) == Seconds(start) + 3600
    ensures r.Some? ==> r.value.year == start.year && r.value.month == start.month && r.value.day == start.day
  {
    ReplaceHour(start, start.hour + 1)
  }

  /** The last hour `datetime` can represent, after which adding an hour overflows. */
  predicate InLastHour(t: DateTime) {
    t.year == MaxYear && t.month == 12 && t.day == 31 && t.hour == 23
  }

  /** The default end as intended, `start + timedelta(hours=1)`: exactly one
      hour later, crossing midnight, month and year ends; only the last
      representable hour overflows (here `None`). */
  function AddOneHour(t: DateTime): (r: Option<DateTime>)
    requires Valid(t)
    ensures r.None? <==> InLastHour(t)
    ensures r.Some? ==> Valid(r.value) && Seconds(r.value) == Seconds(t) + 3600
  {
    if t.hour < 23 then Some(t.(hour := t.hour + 1))
    else
      var next := NextDay(t.year, t.month, t.day);
      if next.0 > MaxYear then None
      else Some(DateTime(next.0, next.1, next.2, 0, t.minute, t.second))
  }

  /** Where the two defaults differ: only from 23:00 on. */
  lemma {:induction false} DefaultsAgreeBeforeEleven(t: DateTime)
    requires Valid(t)
    ensures NextHourAsWritten(t) == AddOneHour(t) <==> t.hour < 23 || InLastHour(t)
  {
    if t.hour == 23 && !InLastHour(t) {
      assert AddOneHour(t).Some?;
    }
  }

  // ---------------------------------------------------------------------
  // Assembling the event

  /** `parse_datetime(data.get('Event Date'), data.get('Event Start Time'))`:
      nothing without a non-empty date and start time; a start that resolves
      is a valid timestamp on the whole minute. */
  function StartOf(data: map<string, string>, currentYear: int): (r: Option<DateTime>)
    ensures DateKey !in data || data[DateKey] == [] || StartKey !in data || data[StartKey] == [] ==> r.None?
    ensures r.Some? ==> Valid(r.value) && r.value.second == 0
  {
    ResolveDateTime(Get(data, DateKey), Get(data, StartKey), currentYear)
  }

  /** `parse_datetime(data.get('Event Date'), data.get('Event End Time'))`:
      the end is read against the same date as the start. */
  function EndOf(data: map<string, string>, currentYear: int): (r: Option<DateTime>)
    ensures DateKey !in data || data[DateKey] == [] || EndKey !in data || data[EndKey] == [] ==> r.None?
    ensures r.Some? ==> Valid(r.value) && r.value.second == 0
  {
    ResolveDateTime(Get(data, DateKey), Get(data, EndKey), currentYear)
  }

  /** The event record for the given start and end, with the text fields
      taken from `data` or defaulted. For data whose values are all kept
      ones, as `parse_event_info` stores them, the summary is never empty
      nor the placeholder, and the location (the description) is empty
      exactly when the data has none. */
  function Record(data: map<string, string>, start: DateTime, end: DateTime): (r: Event)
    ensures r.start == start && r.end == end
    ensures (forall k :: k in data ==> EventInfo.Kept(data[k])) ==>
              && EventInfo.Kept(r.summary)
              && (r.location == [] <==> LocationKey !in data)
              && (r.description == [] <==> DescriptionKey !in data)
  {
    assert EventInfo.Kept(Untitled);
    Event(GetOr(data, TitleKey, Untitled), GetOr(data, LocationKey, []), GetOr(data, DescriptionKey, []), start, end)
  }

  /** The event `create_calendar_event(data)` sends, as written, when
      `datetime.now()` falls in `currentYear`; `None` where it raises (a
      start that does not resolve, or a default end past 23:00) and its
      handler returns `None`. An event is made exactly when the start
      resolves and either the end resolves or the start is before 23:00,
      and it starts at the resolved start. */
  function AssembleEvent(data: map<string, string>, currentYear: int): (r: Option<Event>)
    ensures r.Some? <==> StartOf(data, currentYear).Some?
                         && (EndOf(data, currentYear).Some? || StartOf(data, currentYear).value.hour < 23)
    ensures r.Some? ==> r.value.start == StartOf(data, currentYear).value && Valid(r.value.end)
  {
    var start := StartOf(data, currentYear);
    var end := EndOf(data, currentYear);
    if start.None? then None
    else if end.Some? then Some(Record(data, start.value, end.value))
    else match NextHourAsWritten(start.value)
      case None => None
      case Some(e) => Some(Record(data, start.value, e))
  }

  /** The same with the intended one-hour default, `start + timedelta(hours=1)`:
      an event is made exactly when the start resolves and either the end
      resolves or the start is not in the last representable hour; a
      defaulted end is 3600 seconds after the start. */
  function AssembleEventCorrected(data: map<string, string>, currentYear: int): (r: Option<Event>)
    ensures r.Some? <==> StartOf(data, currentYear).Some?
                         && (EndOf(data, currentYear).Some? || !InLastHour(StartOf(data, currentYear).value))
    ensures r.Some? ==> r.value.start == StartOf(data, currentYear).value && Valid(r.value.end)
    ensures r.Some? && EndOf(data, currentYear).None? ==> Seconds(r.value.end) == Seconds(r.value.start) + 3600
  {
    var start := StartOf(data, currentYear);
    var end := EndOf(data, currentYear);
    if start.None? then None
    else if end.Some? then Some(Record(data, start.value, end.value))
    else match AddOneHour(start.value)
      case None => None
      case Some(e) => Some(Record(data, start.value, e))
  }

  /** An end that resolves is kept as it is, even one before the start;
      otherwise the end is one hour after the start on the same day. */
  lemma {:induction false} AssembleEventTimes(data: map<string, string>, currentYear: int)
    requires AssembleEvent(data, currentYear).Some?
    ensures EndOf(data, currentYear).Some? ==> AssembleEvent(data, currentYear).value.end == EndOf(data, currentYear).value
    ensures EndOf(data, currentYear).None? ==>
              var e := AssembleEvent(data, currentYear).value;
              Seconds(e.end) == Seconds(e.start) + 3600 && e.end.day == e.start.day
  {
  }

  /** Text fields come from the data or take their defaults: the title
      `Untitled Event`, the location and description empty. */
  lemma {:induction false} AssembleEventText(data: map<string, string>, currentYear: int)
    requires AssembleEvent(data, currentYear).Some?
    ensures var e := AssembleEvent(data, currentYear).value;
            && (TitleKey in data ==> e.summary == data[TitleKey])
            && (TitleKey !in data ==> e.summary == Untitled)
            && (LocationKey in data ==> e.location == data[LocationKey])
            && (LocationKey !in data ==> e.location == [])
            && (DescriptionKey in data ==> e.description == data[DescriptionKey])
            && (DescriptionKey !in data ==> e.description == [])
  {
  }

  /** For data read by `parse_event_info`, the summary is never empty nor the
      placeholder, and the location is empty exactly when the data has none. */
  lemma {:induction false} ParsedEventText(text: string, currentYear: int)
    requires AssembleEvent(EventInfo.Collect(Split(text, '\n')), currentYear).Some?
    ensures var data := EventInfo.Collect(Split(text, '\n'));
            var e := AssembleEvent(data, currentYear).value;
            && EventInfo.Kept(e.summary)
            && (e.location == [] <==> LocationKey !in data)
            && (e.description == [] <==> DescriptionKey !in data)
  {
    var data := EventInfo.Collect(Split(text, '\n'));
    AssembleEventText(data, currentYear);
    assert EventInfo.Kept(Untitled);
  }

  /** The two versions give the same result except for a start from 23:00
      on without an end. */
  lemma {:induction false} AssembleEventAgrees(data: map<string, string>, currentYear: int)
    ensures AssembleEvent(data, currentYear) == AssembleEventCorrected(data, currentYear)
            <==> !(StartOf(data, currentYear).Some? && EndOf(data, currentYear).None?
                   && StartOf(data, currentYear).value.hour == 23 && !InLastHour(StartOf(data, currentYear).value))
  {
    var start := StartOf(data, currentYear);
    if start.Some? && EndOf(data, currentYear).None? {
      DefaultsAgreeBeforeEleven(start.value);
    }
  }

  /** An event on 2024-04-25 at 23:00 with no end time: as written no event
      is made; with the intended default it ends at midnight the next day. */
  lemma {:induction false} ElevenPmExample(data: map<string, string>, currentYear: int)
    requires data == map[DateKey := "2024-04-25", StartKey := "23:00"]
    ensures AssembleEvent(data, currentYear) == None
    ensures AssembleEventCorrected(data, currentYear)
            == Some(Event(Untitled, [], [], DateTime(2024, 4, 25, 23, 0, 0), DateTime(2024, 4, 26, 0, 0, 0)))
  {
    assert IsoText(2024, 4, 25) == "2024-04-25";
    assert ClockText("23", 0, []) == "23:00";
    IsoDateResolved(2024, 4, 25, 23, 0, "23", currentYear);
    assert EndKey !in data && TitleKey !in data && LocationKey !in data && DescriptionKey !in data;
  }

  /** An end before the start is accepted: 19:00 to 18:00 makes an event. */
  lemma {:induction false} EndBeforeStartExample(data: map<string, string>, currentYear: int)
    requires data == map[DateKey := "2024-04-25", StartKey := "19:00", EndKey := "18:00"]
    ensures AssembleEvent(data, currentYear)
            == Some(Event(Untitled, [], [], DateTime(2024, 4, 25, 19, 0, 0), DateTime(2024, 4, 25, 18, 0, 0)))
  {
    assert IsoText(2024, 4, 25) == "2024-04-25";
    assert ClockText("19", 0, []) == "19:00";
    assert ClockText("18", 0, []) == "18:00";
    IsoDateResolved(2024, 4, 25, 19, 0, "19", currentYear);
    IsoDateResolved(2024, 4, 25, 18, 0, "18", currentYear);
    assert TitleKey !in data && LocationKey !in data && DescriptionKey !in data;
  }
}
