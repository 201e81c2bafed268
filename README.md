# add-to-cal: event text to calendar event, in Dafny

This project models the part of `save_to_calendar.py` that turns the text a
language model extracted from a web page into the body of a Google Calendar
event, and proves properties of that model.

- **`parse_event_info`** (`event_info.dfy`, module `EventInfo`) reads the
  `Label: value` lines into a dictionary. The method `ParseEventInfo` keeps
  the source's loop, which fills the dictionary in place. It is proved equal
  to the function `Collect`. The lemmas about `Collect` say:
  - which labels are stored;
  - that the last line carrying a label decides its value;
  - that empty values and `Not specified` never get in;
  - that reading back a rendered block gives the same dictionary.
- **`datetime.strptime`** (`strptime.dfy` and `strptime_facts.dfy`, modules
  `Strptime` and `StrptimeFacts`) is modelled as CPython's `_strptime` does it,
  for the five formats the program uses. A format is compiled to a
  case-insensitive regular expression. Each directive becomes a group of
  ordered alternatives, and month and weekday names are tried longest first.
  The match has to consume the whole text. The captured fields are then
  converted, with missing ones defaulting to 1900-01-01 00:00, and the
  `datetime` constructor range-checks the result. The lemmas state, for each
  format:
  - the texts it reads, and the date or time it reads them as;
  - the texts it refuses.
- **`parse_datetime`** (`resolver.dfy`, module `DateTimeResolver`). The method
  `ParseDateTime` keeps the two `for`/`break` loops over the date and time
  formats. It is proved equal to the function `ResolveDateTime`. The lemmas
  cover:
  - which format wins;
  - when the year 1900 is replaced by the current year;
  - which texts resolve, and to what timestamp.
- **The event assembly of `create_calendar_event`** (`calendar_event.dfy`,
  module `CalendarEvent`). Both times are resolved against the same
  `Event Date`. A missing start gives no event. A missing end defaults to one
  hour after the start. The text fields default to `Untitled Event` or to
  empty. The model includes the source's one-hour default and a corrected one
  (see "Findings"). The corrected one is proved against a count of seconds
  built from Python's proleptic Gregorian day numbering.

`datetime.now()` is replaced by a `currentYear` parameter. Every exception
the source catches becomes `None` (for `Option` results) or `Err` (for
`strptime` results).

Where a comment or a test states an intent the code does not meet, the model
follows the code:

- The comment at `save_to_calendar.py:122` asks for an hour-long event.
  For a start from 23:00 on, the code raises instead, and no event is made.
- The test at `tests/test_load_page.py:97-104` expects `12:30:00` to be read.
  Neither time format reads seconds, so the model gives `None`.
  `DateTimeResolver.SecondsExample` states this.

## Model

| member | source | states |
|---|---|---|
| Text.FirstIndex | save_to_calendar.py:22 | `':' in line` holds exactly when there is a first colon, and no colon comes before the position found |
| Text.Strip | save_to_calendar.py:24-25 | `strip()` gives text with no whitespace at either end, no longer than its input |
| Text.StripIsTrimmedSlice | save_to_calendar.py:24-25 | what `strip()` removes is whitespace, and only at the two ends |
| Text.StripStripped | save_to_calendar.py:24-25 | stripping text with no surrounding whitespace changes nothing |
| Text.SplitFirst | save_to_calendar.py:23 | `split(':', 1)` gives the text before the first colon and the text after it, which joined by the colon give the line back; nothing exactly when the line has no colon |
| Text.Split | save_to_calendar.py:18 | `split('\n')` gives at least one piece, none containing a line break, and joining the pieces with line breaks gives the text back |
| Text.SplitJoin | save_to_calendar.py:18 | splitting what was joined gives the pieces back when no piece contains the separator |
| EventInfo.ParseEventInfo | save_to_calendar.py:16-29 | the loop over the lines leaves exactly the dictionary `Collect` of the lines of the text |
| EventInfo.Entry | save_to_calendar.py:22-27 | a line contributes a pair only when it contains a colon; the label and the value are stripped, and the value is neither empty nor `Not specified` |
| EventInfo.Collect | save_to_calendar.py:19-29 | no stored value is empty or the `Not specified` placeholder |
| EventInfo.CollectProvenance | save_to_calendar.py:21-27 | every stored label is the stripped text before the first colon of some line, and its value comes from the last line carrying that label |
| EventInfo.CollectLastWins | save_to_calendar.py:27 | a line whose label no later line carries decides that label's value |
| EventInfo.CollectDomain | save_to_calendar.py:21-27 | a label is stored if and only if some line carries it with a kept value |
| EventInfo.SingleLine | save_to_calendar.py:18-27 | a text without line breaks gives the entry of its one line, or nothing |
| EventInfo.ColonInValue | save_to_calendar.py:23 | only the first colon splits: `Event Start Time: 7:00 PM` stores the value `7:00 PM` |
| EventInfo.EmptyInput | save_to_calendar.py:18-29 | empty text gives an empty dictionary |
| EventInfo.LineWithoutColon | save_to_calendar.py:22 | a line without a colon changes nothing |
| EventInfo.NotSpecifiedDropped | save_to_calendar.py:26 | `Label: Not specified` stores nothing, whatever the label |
| EventInfo.RenderRoundTrip | save_to_calendar.py:16-29 | reading a block of well-formed `Label: value` lines gives back the dictionary they describe, later lines overriding earlier ones |
| Strptime.Alternatives | save_to_calendar.py:47 | each directive's group is the regular-expression alternation `strptime` compiles for it, tried in order, and every alternative consumes at least one character |
| Strptime.MatchFrom | save_to_calendar.py:47 | `re.match` of a compiled format, backtracking over alternatives and whitespace runs in the engine's order; a match ends inside the text and not before where it started |
| Strptime.ClockHour | save_to_calendar.py:69 | with an `am` or `pm` marker, a twelve-hour reading 1 to 12 is an hour of the day 0 to 23, in the marker's half of the day and at the same place on the twelve-hour dial |
| Strptime.DaysInMonth | save_to_calendar.py:47 | a month has 28 to 31 days, and 29 exactly for February of a leap year |
| Strptime.Build | save_to_calendar.py:47 | a conversion that succeeds gives a valid `datetime` with zero seconds |
| Strptime.Parse | save_to_calendar.py:47 | a text `strptime` accepts gives a valid `datetime` with zero seconds |
| StrptimeFacts.IsoDateRoundTrip | save_to_calendar.py:41 | `%Y-%m-%d` reads the zero-padded text of every valid date as that date at midnight |
| StrptimeFacts.IsoDateNeedsDigit | save_to_calendar.py:41 | `%Y-%m-%d` refuses a text that starts with a letter |
| StrptimeFacts.WeekdayMonthDayParse | save_to_calendar.py:39 | `%A, %B %d` reads a weekday name, a month name and a day in the year 1900, refuses a day 1900 lacks, and refuses trailing text such as a year |
| StrptimeFacts.MonthDayYearParse | save_to_calendar.py:40 | `%B %d, %Y` reads a month name, a day and a four-digit year as that date, refuses a day that year lacks, and refuses trailing text |
| StrptimeFacts.WeekdayFirstRefused | save_to_calendar.py:40-41 | a text that starts with a weekday name matches neither `%B %d, %Y` nor `%Y-%m-%d` |
| StrptimeFacts.MonthFirstRefused | save_to_calendar.py:39 | a text that starts with a month name does not match `%A, %B %d` |
| StrptimeFacts.NameNeedsLetter | save_to_calendar.py:39-40 | a format that starts with a weekday or month name refuses a text that starts with a digit |
| StrptimeFacts.NamedDateBuild | save_to_calendar.py:39-40 | the captured weekday is checked and then ignored; the month name, the day and the year, or 1900 without one, make the date when it exists |
| StrptimeFacts.WeekdaysLongestFirst | save_to_calendar.py:39 | the weekday alternatives are the weekday names sorted longest first, in stable order |
| StrptimeFacts.MonthsLongestFirst | save_to_calendar.py:39-40 | the month alternatives are the month names sorted longest first, in stable order |
| StrptimeFacts.Clock24Parse | save_to_calendar.py:63 | `%H:%M` reads `H:MM` as that hour and minute, and refuses any trailing text |
| StrptimeFacts.Clock12RoundTrip | save_to_calendar.py:62 | `%I:%M %p` reads the twelve-hour text of every time of day, with either case of the marker, as that time |
| StrptimeFacts.ClockHourInverse | save_to_calendar.py:62 | the `%I`/`%p` rule maps 12 AM to 0 and 12 PM to 12, adds 12 to the other PM hours, and undoes the twelve-hour clock |
| StrptimeFacts.Clock12NeedsSpace | save_to_calendar.py:62 | `%I:%M %p` refuses every text without whitespace |
| DateTimeResolver.FirstParse | save_to_calendar.py:44-50 | what a format loop leaves is a valid time with zero seconds |
| DateTimeResolver.FirstParseIsFirst | save_to_calendar.py:45-50 | the loop gives `t` exactly when some format reads the text as `t` and every earlier format refuses it |
| DateTimeResolver.FirstParseNone | save_to_calendar.py:52-53 | the loop gives nothing exactly when every format refuses the text |
| DateTimeResolver.ReplaceYear | save_to_calendar.py:58 | replacing the year succeeds exactly when the month and day exist in that year, and changes only the year |
| DateTimeResolver.Combine | save_to_calendar.py:77 | the date of one valid timestamp with the time of another is valid |
| DateTimeResolver.ResolveDateTime | save_to_calendar.py:31-81 | a blank date or time gives nothing; a result is a valid timestamp with zero seconds whose year is not 1900 unless the current year is |
| DateTimeResolver.ParseDateTime | save_to_calendar.py:31-81 | the two format loops, the year replacement and `combine` give exactly `ResolveDateTime` |
| DateTimeResolver.Clock24Time | save_to_calendar.py:61-72 | an `H:MM` text is refused by `%I:%M %p` and read by `%H:%M` |
| DateTimeResolver.Clock12Time | save_to_calendar.py:62 | a twelve-hour text is read by the first time format |
| DateTimeResolver.SecondsRefused | save_to_calendar.py:61-75 | a time with seconds (`H:MM:SS`) is refused by both time formats |
| DateTimeResolver.IsoDateFirst | save_to_calendar.py:38-50 | an ISO date is refused by both name formats and read by `%Y-%m-%d` |
| DateTimeResolver.IsoDateResolved | save_to_calendar.py:31-81 | an ISO date with an `H:MM` time resolves to that timestamp; the year 1900 is replaced by the current year, when that year has the day |
| DateTimeResolver.WeekdayDateFirst | save_to_calendar.py:38-50 | `Weekday, Month D` is read by the first date format in 1900, and refused when 1900 lacks the day |
| DateTimeResolver.WeekdayDateResolved | save_to_calendar.py:55-77 | `Weekday, Month D` resolves in the current year whichever weekday is named, and a day that 1900 or the current year lacks gives nothing |
| DateTimeResolver.WeekdayWithYearRefused | save_to_calendar.py:38-53 | `Weekday, Month D, YYYY` is refused by every date format |
| DateTimeResolver.MonthDayYearFirst | save_to_calendar.py:40-50 | `Month D, YYYY` is refused by the first format and read by the second |
| DateTimeResolver.MonthDayYearResolved | save_to_calendar.py:55-77 | `Month D, YYYY` resolves to that date, and a written year 1900 is replaced like a missing one |
| DateTimeResolver.IsoExample | tests/test_load_page.py:87-95 | `2024-12-31` at `09:00` resolves to 2024-12-31 09:00:00 |
| DateTimeResolver.SecondsExample | tests/test_load_page.py:97-104 | `12:30:00` gives nothing for any date, against what the test expects |
| DateTimeResolver.UnrecognisedTimeExample | save_to_calendar.py:61-75 | `9ish` gives nothing for any date: `%I:%M %p` lacks its space and `%H:%M` finds no colon after the hour |
| DateTimeResolver.WeekdayWithYearExample | save_to_calendar.py:38-53 | `Thursday, April 25, 2024` gives nothing for any time |
| DateTimeResolver.LeapDayExample | save_to_calendar.py:55-58 | `Thursday, February 29` gives nothing even when the current year is the leap year 2024 |
| DateTimeResolver.YearInferenceExample | save_to_calendar.py:55-58 | `Thursday, April 25` at `9:00 AM` in 2024 resolves to 2024-04-25 09:00 |
| CalendarEvent.YearLength | save_to_calendar.py:123 | a year has 366 days if it is a leap year and 365 otherwise, in `datetime`'s day numbering |
| CalendarEvent.NextDay | save_to_calendar.py:123 | the next calendar day has the next day number, and is a valid date unless it falls after 9999-12-31 |
| CalendarEvent.ReplaceHour | save_to_calendar.py:123 | replacing the hour succeeds exactly for hours 0 to 23 and changes only the hour |
| CalendarEvent.NextHourAsWritten | save_to_calendar.py:121-123 | the default end as written is exactly 3600 seconds after the start, on the same day, and exists exactly when the start is before 23:00 |
| CalendarEvent.AddOneHour | save_to_calendar.py:121-123 | the intended default end is exactly 3600 seconds after the start, and fails only in the last representable hour |
| CalendarEvent.DefaultsAgreeBeforeEleven | save_to_calendar.py:121-123 | the two defaults agree exactly when the start is before 23:00 or in the last representable hour |
| CalendarEvent.StartOf | save_to_calendar.py:113-114 | no start without a non-empty date and start time; a resolved start is a valid timestamp on the whole minute |
| CalendarEvent.EndOf | save_to_calendar.py:115-116 | the end is read against the same date; no end without a non-empty date and end time, and a resolved end is a valid timestamp on the whole minute |
| CalendarEvent.Record | save_to_calendar.py:125-137 | the record keeps the given start and end; for data whose every value is kept, as `parse_event_info` stores it, the summary is never empty nor `Not specified`, and the location and description are empty exactly when the data lacks them |
| CalendarEvent.AssembleEvent | save_to_calendar.py:107-145 | without the calendar service call, an event is made exactly when the start resolves and either the end resolves or the start is before 23:00; it starts at the resolved start and its end is a valid timestamp |
| CalendarEvent.AssembleEventTimes | save_to_calendar.py:113-137 | an end that resolves is kept, with no check that it follows the start; otherwise the end is 3600 seconds later on the same day |
| CalendarEvent.AssembleEventText | save_to_calendar.py:125-128 | summary, location and description come from the data, or default to `Untitled Event`, empty and empty |
| CalendarEvent.ParsedEventText | save_to_calendar.py:26-27 | for data read by `parse_event_info`, the summary is never empty nor the placeholder, and the location and description are empty exactly when the data lacks them |
| CalendarEvent.AssembleEventCorrected | save_to_calendar.py:113-123 | with the intended default, an event is made exactly when the start resolves and either the end resolves or the start is not in the last representable hour; it starts at the resolved start, and a defaulted end is 3600 seconds after it |
| CalendarEvent.AssembleEventAgrees | save_to_calendar.py:121-123 | the two versions differ exactly for a resolved start from 23:00 on, before the last representable hour, with no resolved end |
| CalendarEvent.ElevenPmExample | save_to_calendar.py:121-123 | a start at 2024-04-25 23:00 with no end gives no event as written; with the intended default, the event ends at 2024-04-26 00:00 |
| CalendarEvent.EndBeforeStartExample | save_to_calendar.py:113-137 | an event from 19:00 to 18:00 on the same day is accepted as it is |

## Left out

- `get_google_calendar_service`, `service.events().insert` and the event the service returns: network, files and OAuth. The model stops at the event body the code sends.
- The `'America/New_York'` time zone and `isoformat()`: the time zone is a constant and the serialisation is library formatting. The model keeps the timestamps as values.
- The `print` calls in both exception handlers, `main`, `load_page.py` and `extract_event.py`: output, command-line handling, web fetching and the language model call.
- DateTimeResolver.ResolveDateTime: `datetime.now()` becomes the `currentYear` parameter. The code reads the clock once for the start and once for the end. The model uses one year for both, so it does not capture a start and an end that straddle New Year's midnight.
- Microseconds: none of the five formats sets them, so `DateTime` has no microsecond field.
- Strptime.Parse: letters are case-folded and digits are recognised for ASCII only. Python's regular expressions also match Unicode digits and fold Unicode case. Only the English C-locale month and weekday names are modelled.
- Strptime.Parse: the five compiled patterns are written out by hand as item sequences. `_strptime`'s compiler of format strings and its cache are not part of this model.
- Strptime.Build: for a weekday name it only checks that the name is known. The day-of-year and weekday arithmetic `_strptime` does afterwards cannot change these results, and is not modelled.

## Findings

| source | as written | input that shows it | evidently intended | confidence | as-written member | corrected member |
|---|---|---|---|---|---|---|
| save_to_calendar.py:121-123 | the default end `start.replace(hour=start.hour + 1)` raises for a start from 23:00 on, and the handler at lines 143-145 then returns no event | `Event Date: 2024-04-25`, `Event Start Time: 23:00`, no end time | an hour-long event ending at 00:00 the next day, as `start + timedelta(hours=1)` gives | high; not executed | CalendarEvent.NextHourAsWritten | CalendarEvent.AddOneHour |

`CalendarEvent.ElevenPmExample` shows both versions on this input.
`CalendarEvent.AssembleEventCorrected` is the assembly with the intended
default, and `CalendarEvent.AssembleEventAgrees` states exactly where the two
versions differ.
