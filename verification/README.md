# Schedulify backend core in Dafny

Schedulify turns a screenshot of a class timetable into calendar events. This
project models the deterministic middle of its backend and proves properties
of that model. It covers:

- the loose JSON rows an extraction model returns;
- how those rows become canonical `EventRow`s (day codes `MO`..`SU`, times
  `HH:MM`);
- how the term window is inferred and checked;
- how each event expands into weekly recurrence entries (`build_ics`);
- the Google Calendar request body;
- the text clean-up of the Ollama adapter.

Modules follow the source files:

| module | file | models |
|---|---|---|
| `Wrappers` | wrappers.dfy | `Option` and `Result` |
| `Text` | text.dfy | Python string operations: `strip`, `lower`/`upper`, `find`/`rfind`, `split`/`join`, `replace`, zero-padded decimals |
| `Dates` | dates.dfy | `datetime.date` as proleptic Gregorian ordinals 1..3652059, i.e. `date.min`..`date.max`. `weekday()` is `(d - 1) % 7`. `timedelta` arithmetic raises `OverflowError` outside that range |
| `JsonValues` | json.dfy | decoded JSON values, Python truthiness, `dict.get`, `or`, `str()` |
| `Weekdays` | weekdays.dfy | `WEEKDAY_ALIASES`, `DAY_CODES` and the two index maps |
| `Deduplication` | dedup.dfy | the order-preserving de-duplication loops |
| `TimeFormat` | time_format.dfy | `normalize_time_string`. Its regular expression is both a declarative predicate and a backtracking search, proved to agree |
| `Schema` | schema.dfy | `EventRow` validators and `ClassBlock.to_event` |
| `Days` | days.dfy | `COMPACT_DAY_SEQUENCES`, `_expand_compact` and `normalize_days` |
| `Parser` | parser.dfy | `from_gemini_json` |
| `BuildCalendar` | build_calendar.dfy | `infer_range` and the time-zone fallback |
| `Api` | api.dfy | `_apply_global_dates`, `_resolve_date_range` and the `needs_dates`/inferred-window summary of `extract_gemini` |
| `Ics` | ics.dfy | first occurrences, `_parse_hhmm`, and the per-row and per-weekday expansion of `build_ics` |
| `Google` | google.dfy | `build_google_event` and the RRULE text (section 3.3.10 of RFC 5545) |
| `Ollama` | ollama.dfy | `_extract_json_block` and the defaults applied after decoding |

Python exceptions become `Err` values that name the exception.

Three inputs are parameters rather than effects:

- the `DEFAULT_TIMEZONE` environment variable;
- the current date in a named zone, a function that answers `None` for an unknown zone;
- the result of `json.loads`.

Where the documented behaviour and the code disagree, the model follows the code:

- The docstring of `_expand_compact` (backend/app/parser.py:15) gives "TuTh" as a string it splits into weekday indices, that is Tuesday and Thursday. As written, the code gives only Thursday (see Findings).

An end-only window is computed as the code does, `end - 5 weeks + 1 day` in two
steps. The intermediate date can fall below `date.min`, so the model raises
`OverflowError` for the first 35 ordinals, as Python does.

## Model

| member | source | states |
|---|---|---|
| Weekdays.CodeIndex | backend/app/schema.py:17-18 | a code has an index exactly when it is one of the seven day codes, and that index maps back to the code |
| Weekdays.IndexCode | backend/app/schema.py:19 | an index has a code exactly when it is in 0..6, and the code is a day code |
| Weekdays.CodeIndexRoundTrip | backend/app/schema.py:17-19 | `DAY_CODE_TO_INDEX` and `INDEX_TO_DAY_CODE` are inverse to each other |
| Weekdays.DayCodesDistinct | backend/app/schema.py:17 | the seven day codes are pairwise different |
| Dates.AddDays | backend/app/ics.py:13 | adding a `timedelta` succeeds exactly when the result is between `date.min` and `date.max`, and then lies that many days later |
| Dates.WeekdayPeriodic | backend/app/ics.py:12 | the weekday of a date repeats every seven days |
| Deduplication.Dedup | backend/app/schema.py:102-109 | the result has no repeats and holds exactly the elements of the input |
| Deduplication.DedupOrder | backend/app/schema.py:102-109 | kept elements appear in the order of their first occurrence in the input |
| Deduplication.DedupOfDistinct | backend/app/parser.py:50-57 | a list without repeats is returned unchanged |
| Deduplication.DedupIdempotent | backend/app/parser.py:50-57 | de-duplicating twice is the same as once |
| Deduplication.DedupScan | backend/app/schema.py:103-109 | the `seen`-set loop computes the de-duplicated list |
| Text.Strip | backend/app/schema.py:24 | the result has no outer whitespace and is the input with only whitespace removed from each end |
| Text.StripOfTrimmed | backend/app/schema.py:24 | text without outer whitespace is unchanged by `strip` |
| Text.Find | backend/app/llm_ollama.py:39 | `find` gives -1 exactly when the character is absent, else the position of its first occurrence |
| Text.RFind | backend/app/llm_ollama.py:40 | `rfind` gives -1 exactly when the character is absent, else the position of its last occurrence |
| Text.SplitJoin | backend/app/ics.py:16 | splitting the join of a non-empty list of pieces gives the pieces back when no piece holds the separator |
| Text.JoinSplit | backend/app/ics.py:16 | joining a split with the same separator gives the text back |
| Text.Pad2OfDecimal | backend/app/schema.py:37 | `:02d` formatting of a two-digit number gives back its digits |
| Text.RemoveChar | backend/app/google.py:16 | `replace(c, "")` leaves no `c`, never lengthens the text, and is the identity on text without `c` |
| TimeFormat.PrepareTime | backend/app/schema.py:24 | after `strip().lower().replace(".", ":")` there is no outer whitespace, no `.` and no upper-case letter |
| TimeFormat.PrepareTimeIdempotent | backend/app/schema.py:24 | preparing prepared text changes nothing |
| TimeFormat.MatchTime | backend/app/schema.py:25 | any match found splits the text into hour digits, optional colon, minutes, spaces and am/pm as the pattern allows |
| TimeFormat.ReadingUnique | backend/app/schema.py:25 | the pattern splits a text in at most one way |
| TimeFormat.MatchTimeComplete | backend/app/schema.py:25 | whenever the text fits the pattern, the match finds exactly that split |
| TimeFormat.FormatHHMM | backend/app/schema.py:37 | `f"{hour:02d}:{minute:02d}"` is five characters `HH:MM` that read back as the hour and minute |
| TimeFormat.FormatOfHHMM | backend/app/schema.py:37 | formatting the hour and minute read from an `HH:MM` text gives that text |
| TimeFormat.NormalizeTime | backend/app/schema.py:22-37 | every accepted time comes out as `HH:MM` with hour 0..23 and minute 0..59 |
| TimeFormat.NormalizeTimeSpec | backend/app/schema.py:24-36 | a pattern error is raised exactly when the prepared text does not fit the pattern; otherwise the result is the meridiem conversion and range check of its one split |
| TimeFormat.MeridiemRules | backend/app/schema.py:28-36 | 12am becomes hour 0, 12pm stays 12, other pm hours gain 12, and hours past the range are rejected |
| TimeFormat.ExpectedMeridiem | backend/app/schema.py:31-36 | the same conversion rules, stated for any split of the pattern |
| TimeFormat.HHMMIsFixedPoint | backend/app/schema.py:25-37 | a canonical `HH:MM` normalises to itself |
| TimeFormat.NormalizeTimeIdempotent | backend/app/schema.py:25-37 | normalising a normalised time changes nothing |
| TimeFormat.NormalizeTimeOfPrepared | backend/app/schema.py:24 | preparing the text first does not change the outcome |
| TimeFormat.ExampleNineAm | backend/app/schema.py:22-37 | "9am" becomes "09:00" |
| TimeFormat.DotActsAsColon | backend/app/schema.py:24 | "9.30PM" normalises like "9:30pm", to "21:30" |
| TimeFormat.ExampleThreeDigits | backend/app/schema.py:25 | "123" reads as hour 1 and minutes 23 |
| TimeFormat.ExampleMidnight | backend/app/schema.py:33-34 | "12am" becomes "00:00" |
| TimeFormat.ExampleTwentyFour | backend/app/schema.py:35-36 | "24:00" is rejected as out of range |
| Schema.TokenCode | backend/app/schema.py:91-101 | a kept token always yields a day code, and a blank token yields nothing |
| Schema.Codes | backend/app/schema.py:90-101 | the collected codes are exactly the codes of the tokens that have one |
| Schema.NormalizeCodes | backend/app/schema.py:87-109 | the validated day list holds only day codes, without repeats, and exactly those of the input tokens |
| Schema.NormalizeCodesOrder | backend/app/schema.py:102-109 | validated codes keep the order of their first occurrence |
| Schema.CodeTokenFixed | backend/app/schema.py:95-97 | a day code is kept as itself |
| Schema.CodesOfCodes | backend/app/schema.py:95-97 | a list of day codes collects to itself |
| Schema.NormalizeCodesOfValid | backend/app/schema.py:87-109 | a valid day list validates to itself |
| Schema.NormalizeCodesIdempotent | backend/app/schema.py:87-109 | validating the days twice is the same as once |
| Schema.CheckTime | backend/app/schema.py:111-116 | a missing time is "time is required"; otherwise the time must normalise, and the result is the normalised `HH:MM` |
| Schema.ValidateEventRow | backend/app/schema.py:66-116 | a row validates exactly when both times normalise. The result holds the normalised days and times and the other fields unchanged. `None` days become `[]`. Errors name the failing time fields in order |
| Schema.CheckTimeOfHHMM | backend/app/schema.py:111-116 | a canonical time passes validation unchanged |
| Schema.ValidateEventRowRoundTrip | backend/app/schema.py:66-116 | validating a valid row gives the same row back |
| Schema.DaysOfValidRow | backend/app/schema.py:80-109 | the days of a valid row survive validation unchanged |
| Schema.OneDayIsSingleton | backend/app/schema.py:83-84 | a single string day validates like the one-element list |
| Schema.CheckTimeValue | backend/app/schema.py:49-52 | a `ClassBlock` time must be a string that normalises, and becomes that `HH:MM` |
| Schema.CheckOptional | backend/app/schema.py:45-47 | an optional text field accepts `None` or a string, and nothing else |
| Schema.MakeClassBlock | backend/app/schema.py:40-52 | a block is built exactly when both times are valid strings and the optional fields are strings or `None`. The block then holds the given title and days, the `HH:MM` each time normalises to, and each optional field's text or `None` |
| Schema.IndexCodes | backend/app/schema.py:57 | indices in 0..6 map position by position to their day codes, and others are dropped |
| Schema.ToEvent | backend/app/schema.py:54-63 | `to_event` gives a valid row with the block's texts, its days as codes, and no dates or term label |
| Schema.ToEventTotal | backend/app/schema.py:54-63 | a block with canonical times and distinct in-range days always converts, keeping times and day order |
| Schema.IndexCodesValid | backend/app/schema.py:57 | distinct in-range indices give a valid day-code list |
| Days.FirstDigraph | backend/app/parser.py:21-29 | the chosen two-letter form is the first in the table that starts the rest of the text |
| Days.FirstDigraphIs | backend/app/parser.py:21-29 | the first matching table entry is the one chosen |
| Days.AliasDays | backend/app/parser.py:24-26 | an alias lookup emits one weekday when the key is an alias and nothing otherwise |
| Days.ExpandCompact | backend/app/parser.py:14-37 | a compact run never yields more weekdays than it has characters. On runs without "tu" or "mo" what it yields is fixed by Days.ExpandCompactAgreesAwayFromTuMo, and on a run starting with "tu" or "mo" by Days.TuAndMoEmitNothing; every other run is covered only step by step, through Days.ReadDigraph and Days.ReadSingle |
| Days.ExpandCompactAgreesAwayFromTuMo | backend/app/parser.py:8-36 | on any text without "tu" or "mo", the table as written reads exactly the weekdays the intended table reads |
| Days.FindDigraph | backend/app/parser.py:21-29 | the inner `for` loop finds the first matching two-letter form |
| Days.ExpandScan | backend/app/parser.py:14-37 | the `while` loop computes the compact expansion |
| Days.ThIsThursday | backend/app/parser.py:21-29 | "th" is read as Thursday, never as "t" then "h" |
| Days.TuAndMoEmitNothing | backend/app/parser.py:8-11 | as written, "tu" and "mo" consume two characters and emit no weekday |
| Days.UnmatchedCharSkipped | backend/app/parser.py:32-36 | a character that is no alias is skipped without error |
| Days.TuThLosesTuesday | backend/app/parser.py:6-12 | as written, "tuth" expands to Thursday only, while the intended table gives Tuesday and Thursday |
| Days.ExpandCompactIntended | backend/app/parser.py:6-12 | the corrected expansion never yields more weekdays than characters |
| Days.IntendedRoundTrip | backend/app/parser.py:14-37 | with the corrected table, the compact text of any weekday list expands back to that list |
| Days.TokenDaysWith | backend/app/parser.py:41-48 | a blank token yields no weekday. A token that is a whole alias after stripping and lower-casing yields exactly that alias's weekday. Any other token is read letter by letter |
| Days.WholeAliasFirst | backend/app/parser.py:41-57 | a token that is a whole alias normalises to its one weekday, before any compact reading |
| Days.TueIsWholeAlias | backend/app/parser.py:14-48 | "Tue" normalises to Tuesday as a whole word, although its letters read compactly give no weekday |
| Days.AllTokenDays | backend/app/parser.py:40-48 | the collected weekdays are exactly those of the tokens |
| Days.NormalizeDays | backend/app/parser.py:39-57 | `normalize_days` gives at most seven distinct weekdays, exactly those of its tokens |
| Days.NormalizeDaysIntended | backend/app/parser.py:39-57 | the corrected normalisation gives distinct weekdays, exactly those of its tokens |
| Days.NormalizeDaysOrder | backend/app/parser.py:50-57 | weekdays keep the order of their first appearance |
| Parser.DayPieces | backend/app/parser.py:95-96 | splitting on runs of commas, whitespace and slashes leaves only non-empty pieces without separators |
| Parser.DayPiecesOfJoin | backend/app/parser.py:95-96 | pieces joined by any separator split back into the same pieces |
| Parser.ListPieces | backend/app/parser.py:93-96 | every token taken from a day list is non-empty and free of separators |
| Parser.DaysField | backend/app/parser.py:86-88 | `day` is read only when `days` is absent or null |
| Parser.DayTokens | backend/app/parser.py:90-98 | a string is one token, a list is split into pieces, and anything else gives no tokens |
| Parser.TermLabelOf | backend/app/parser.py:116 | the term label is absent exactly when the value is falsy, and is the text otherwise |
| Parser.ParseItem | backend/app/parser.py:80-118 | non-object rows and rows without days are skipped. A row with days is kept exactly when its title, or "Class" for a falsy title, is a string and its times and optional texts validate. A kept row is valid and has its weekdays as codes in order and no dates. It has the stripped title (default "Class"), the normalised start and end times (defaults 09:00 and 10:00), the location, instructor and notes texts or `None`, and the row's term label |
| Parser.BuildRow | backend/app/parser.py:105-117 | a row is built exactly when the title (or "Class") is a string and every `ClassBlock` field check passes. A truthy non-string title is an error. A failed field check is a validation error. A built row is valid, has its days as codes in order, and holds the stripped title, the normalised times, the optional texts and the term label taken from the row or its defaults |
| Parser.Convert | backend/app/parser.py:105-115 | conversion succeeds exactly when the `ClassBlock` validates. The row keeps the days in order, the title, the normalised times and the optional texts, and has no dates or term label |
| Parser.ExtractRows | backend/app/parser.py:71-78 | a list is taken as-is. For an object it is the first truthy of `classes`, `events`, `items`, else `[]`, and that must be a list. Any other input is a type error |
| Parser.Collect | backend/app/parser.py:80-118 | the batch succeeds exactly when every row does and fails with the first row error. Otherwise it is exactly the kept rows' events, in row order |
| Parser.CollectSkipsNone | backend/app/parser.py:81-83 | a skipped row changes nothing in the batch |
| Parser.ParseRows | backend/app/parser.py:80-118 | the loop fails with the first failing row's error. Otherwise it returns exactly the kept rows' events, in row order, each valid with days |
| Parser.ParseRowsKeepsEveryRow | backend/app/parser.py:80-118 | when every row is an object with days and valid fields, each row gives one event, in row order, with that row's days and fields |
| Parser.CollectedRowsValid | backend/app/parser.py:100-118 | every collected event is valid and has days |
| Parser.FromGeminiJson | backend/app/parser.py:59-120 | container errors propagate. Otherwise the result is the row loop over the extracted list, and every returned event is valid with days |
| Parser.JunkRowIgnored | backend/app/parser.py:81-83 | inserting a non-object row anywhere changes nothing |
| Parser.DefaultStartCanonical | backend/app/parser.py:108 | the default start "09:00" is already canonical |
| Parser.DefaultEndCanonical | backend/app/parser.py:109 | the default end "10:00" is already canonical |
| Parser.ParseItemDefaults | backend/app/parser.py:105-117 | a row with days and nothing else becomes "Class", 09:00 to 10:00, with no location, instructor, notes or term label |
| Parser.BuildRowDefaults | backend/app/parser.py:105-117 | the same defaults, for any distinct weekday list |
| Parser.DefaultTitleStripped | backend/app/parser.py:106 | a falsy title becomes "Class", which stripping keeps |
| Parser.DefaultFieldsBlock | backend/app/parser.py:105-113 | defaulted fields build the block "Class", 09:00 to 10:00, with no optional texts |
| Parser.DefaultEvent | backend/app/parser.py:115-117 | the defaulted block converts to the defaulted event |
| Parser.PlainBlockEvent | backend/app/schema.py:54-63 | a block with canonical times and no optional texts converts, keeping its title and times and leaving the optional texts empty |
| Parser.DefaultBlock | backend/app/parser.py:105-113 | the literal defaults form a valid block |
| Parser.BadRowAbortsBatch | backend/app/parser.py:105-113 | one failing row makes the whole batch fail |
| Parser.WrappedListSameRows | backend/app/parser.py:71-74 | a list under `events` or `classes` gives the same events as the bare list |
| Parser.WrappedRows | backend/app/parser.py:73-74 | a non-empty list under `events` or `classes` is the list of rows |
| BuildCalendar.ResolveTimezone | backend/app/build_calendar.py:12 | the zone is the argument if non-empty, else the environment value if non-empty, else "UTC", and never empty |
| BuildCalendar.ResolveTimezoneStable | backend/app/main.py:35-36 | resolving an already resolved zone keeps it, whatever the environment |
| BuildCalendar.InferRange | backend/app/build_calendar.py:11-23 | both dates pass through unchecked. One date extends to a 35-day inclusive window, failing exactly on overflow. No date starts at today in the resolved zone, failing for an unknown zone |
| BuildCalendar.InvertedRangeKept | backend/app/build_calendar.py:13-14 | an inverted pair of dates is returned as given |
| BuildCalendar.InferRangeRoundTrip | backend/app/build_calendar.py:15-19 | extending a start forwards, then that end backwards, gives the same window exactly when the start is not `date.min` |
| Api.ApplyGlobalDates | backend/app/main.py:39-52 | length and order are kept, only missing dates are filled, and every other field and existing date is unchanged |
| Api.ApplyGlobalDatesIdempotent | backend/app/main.py:44-52 | applying the global dates twice is the same as once |
| Api.ApplyGlobalDatesComplete | backend/app/main.py:47-50 | after a given global start or end, every event has that date |
| Api.StartDates | backend/app/main.py:60 | the listed starts are exactly the events' present start dates |
| Api.EndDates | backend/app/main.py:61 | the listed ends are exactly the events' present end dates |
| Api.Earliest | backend/app/main.py:63 | `min` is an element no greater than any other; empty gives none |
| Api.Latest | backend/app/main.py:64 | `max` is an element no smaller than any other; empty gives none |
| Api.ResolvedStart | backend/app/main.py:63 | the explicit start wins; otherwise the earliest per-event start, absent exactly when no event has one |
| Api.ResolvedEnd | backend/app/main.py:64 | the explicit end wins; otherwise the latest per-event end, absent exactly when no event has one |
| Api.ResolveDateRange | backend/app/main.py:55-76 | fails exactly when a bound is unresolved, or the start is after the end; otherwise returns the ordered resolved bounds |
| Api.ExplicitRangeWins | backend/app/main.py:63-76 | ordered explicit dates are returned whatever the events hold |
| Api.ExtractSummary | backend/app/main.py:101-124 | the events carry the global dates. `needs_dates` is true exactly when a bound is unresolved, and the note is set exactly then. The window comes from `infer_range` when a date is given, else from the min and max of the event dates |
| Api.NeedsDatesIffMissing | backend/app/main.py:106-108 | `needs_dates` holds exactly when the date-range check would report missing dates |
| Api.ExplicitDatesSummary | backend/app/main.py:104-124 | with both dates given, no dates are needed, no note is set, and the window is those dates |
| Ics.DaysUntil | backend/app/ics.py:12 | the wait is under seven days, lands on the weekday, and passes no earlier date with that weekday |
| Ics.FirstOccurrence | backend/app/ics.py:10-13 | the result is the earliest date on or after the start with the weekday, at most six days later. Overflow happens exactly when no such date exists |
| Ics.FirstOccurrenceWithin | backend/app/ics.py:53-55 | the first occurrence is within the window exactly when the weekday occurs in it at all |
| Ics.WeekLongWindowMeets | backend/app/ics.py:53-55 | every weekday occurs in a window of seven or more days |
| Ics.ParseInt | backend/app/ics.py:17 | `int` accepts exactly non-empty digit text |
| Ics.ParseHHMM | backend/app/ics.py:15-17 | a time is read only from text with a colon |
| Ics.ParseHHMMOfHHMM | backend/app/ics.py:15-17 | a canonical `HH:MM` reads back as its hour and minute |
| Ics.ParseHHMMRoundTrip | backend/app/ics.py:15-17 | `_parse_hhmm` inverts the `HH:MM` formatting of the time normaliser |
| Ics.ParseHHMMNeedsColon | backend/app/ics.py:16 | text without a colon cannot be unpacked into hour and minute |
| Ics.DescriptionLines | backend/app/ics.py:64-70 | the lines are Instructor, notes, Term, in that order, each present exactly when its field is non-empty |
| Ics.Description | backend/app/ics.py:71-72 | the description is omitted exactly when instructor, notes and term label are all empty |
| Ics.Summary | backend/app/ics.py:61 | the summary is the title, or "Class" when the title is empty |
| Ics.Location | backend/app/ics.py:62-63 | a location is added exactly when it is non-empty, and is then the row's location |
| Ics.MeetingDays | backend/app/ics.py:48-55 | the weekdays of the known codes that occur in the window, in code order, each one meeting there |
| Ics.EntryInWindow | backend/app/ics.py:53-55 | a series of a weekday that meets in the window starts inside it, on that weekday |
| Ics.CodeEntries | backend/app/ics.py:48-79 | one entry per known code whose weekday occurs in the window, in code order. Each entry is anchored at the first occurrence of its code's weekday on or after the start, repeats until the end date, and has the row's texts and the given times. Overflow is the only error, and it cannot happen when the start is at least a week before `date.max` |
| Ics.RowEntries | backend/app/ics.py:33-55 | a dayless row gives nothing. A missing or inverted effective range raises, then an unreadable start or end time. Otherwise there is one entry per code meeting in the effective window, in code order, anchored at that weekday's first occurrence, with the parsed times, repeating until the effective end |
| Ics.RowEntriesTotal | backend/app/ics.py:37-55 | a valid row with an ordered effective range whose start is at least six days before `date.max` always expands, and every entry carries the row's hours and minutes |
| Ics.MeetingDaysAll | backend/app/ics.py:48-55 | in a window of a week or more, every valid code meets, so the meeting weekdays are the codes' weekdays one for one |
| Ics.WeekLongRowOneEntryPerCode | backend/app/ics.py:48-79 | a valid row over a week-long window gives exactly one entry per day code, in code order, each anchored at the first occurrence of that code's weekday |
| Ics.Concat | backend/app/ics.py:33-79 | the calendar succeeds exactly when every row does and fails with the first row error. Otherwise it holds exactly the rows' entries, one row after the other |
| Ics.BuildIcs | backend/app/ics.py:19-81 | `build_ics` fails with the first failing row's error. Otherwise it holds exactly every row's entries, in row order |
| Ics.DaylessRowIgnored | backend/app/ics.py:33-35 | a row without days changes nothing, whatever its dates |
| Ics.OneDayRowsOneEntryEach | backend/app/ics.py:33-79 | rows of one day each over week-long windows give exactly one entry per row, in row order, and that entry is the row's own |
| Google.DayPieces | backend/app/google.py:13 | a string is joined character by character, a list of strings item by item, and anything else cannot be joined |
| Google.ByDay | backend/app/google.py:13 | absent days give an empty BYDAY; joinable days give their comma join; others raise `TypeError` |
| Google.ByDayRoundTrip | backend/app/google.py:13 | BYDAY splits back into the day codes in input order |
| Google.DateTimeShape | backend/app/google.py:14-15 | an ISO date and an `HH:MM` time give the 19-character local date-time from which both read back |
| Google.UntilStampOfIsoDate | backend/app/google.py:16 | UNTIL is the date's digits `YYYYMMDD` followed by "T235959Z" |
| Google.ParseRRule | backend/app/google.py:24 | a rule that reads back is exactly the weekly template filled with those values |
| Google.ParseRRuleRoundTrip | backend/app/google.py:24 | the rule text reads back as its BYDAY and UNTIL values |
| Google.BuildGoogleEvent | backend/app/google.py:8-26 | the body is built exactly when days are joinable, all four keys are present and `end_date` is a string. Otherwise the first failing step's exception is raised. Start and end both use `start_date`. The summary defaults only when `title` is absent. Location and description are the input values when truthy and `None` otherwise. There is one weekly rule |
| Google.GoogleRuleRoundTrip | backend/app/google.py:13-24 | the rule of a built body reads back as the day codes and the UNTIL stamp of the end date |
| Ollama.ExtractJsonBlock | backend/app/llm_ollama.py:37-43 | the result is "{}" when no `{` precedes a `}`. Otherwise it is the slice from the first `{` to the last `}`. It always starts with `{`, ends with `}`, and has length at least 2 |
| Ollama.ExtractJsonBlockIdempotent | backend/app/llm_ollama.py:37-43 | extracting from an extracted block changes nothing |
| Ollama.EmptyReplyGivesEmptyObject | backend/app/llm_ollama.py:41-42 | an empty reply gives "{}" |
| Ollama.PostProcess | backend/app/llm_ollama.py:53-59 | `events` is always a list and `timezone` always present. A usable object keeps all its keys. Otherwise the result is `{"events": [], "timezone": tz}` |
| Ollama.PostProcessIdempotent | backend/app/llm_ollama.py:55-59 | post-processing its own output changes nothing |

## Left out

- HTTP endpoints, file upload, CORS, `.env` loading and streaming responses of `main.py`: only the pure helpers and the `needs_dates` summary are modelled.
- `llm_gemini.py`, `ocr.py`, the frontend and the live smoke tests are not part of this model. They are network calls, OCR and UI.
- The request to Ollama, the prompt text and `json.loads`: the decoded object is a parameter of `Ollama.PostProcess`. Since an extracted block always starts with `{`, a successful decode is an object.
- pytz localisation and the conversion of UNTIL to UTC in `build_ics`. An `Ics.Entry` records the anchor date, local clock times and the local end date, which stands for 23:59:59 on that day.
- `pytz.timezone(tz_name)` raising for an unknown zone at the start of `build_ics`, and the iCalendar properties and serialisation (`to_ical`): the model produces the entries only.
- Ics.CodeEntries: does not model `datetime`'s range check on hour and minute. Times reaching `build_ics` come from validated rows, where `Ics.RowEntriesTotal` shows they are always in range.
- TimeFormat.NormalizeTime: reads only ASCII digits. The `\d` of the time pattern also matches other Unicode decimal digits, and `int` converts them, so Python normalises "９am" while the model rejects it.
- TimeFormat.MatchTime: matches only ASCII digits where the pattern's `\d` also matches other Unicode decimal digits.
- Ics.ParseInt: accepts only ASCII digit text. Python's `int` also accepts a sign, surrounding whitespace, underscores and non-ASCII digits.
- Text.Lower: maps only `A`..`Z`. Python's `lower`/`upper` also map non-ASCII letters.
- JsonValues.PyStr: renders only scalars. Nested lists and objects become "", and floats are not modelled.
- Parser.TermLabelOf: a truthy non-string term label is kept as the text `str()` gives it. `model_copy(update=...)` does not validate, so Python keeps the raw value (`7`, `["Fall"]`) in the row. The model keeps only the text, which is what `build_ics` renders, because its term label is a string.
- Google.DayPieces: a `days` object is treated as not joinable. Python would join its keys in insertion order, which the map model does not keep.
- Google.DateTime: uses `str()` for `format()`. They agree for strings, integers, booleans and `None`.
- Dates are ordinals. Parsing date strings into `date` values (done by the validation library) is not modelled.
- The current date and the `DEFAULT_TIMEZONE` variable are parameters of `BuildCalendar.InferRange` and `Api.ExtractSummary`.

## Findings

| source | as written | input that shows it | evidently intended | confidence | as-written member | corrected member |
|---|---|---|---|---|---|---|
| backend/app/parser.py:8-11 | the compact-run table maps "tu" and "mo" to aliases "tu" and "mo", which the alias table lacks, so these pairs consume two characters and emit nothing | `normalize_days(["TuTh"])` gives Thursday only; `normalize_days(["MoWe"])` gives Wednesday only | "tu" emits Tuesday and "mo" emits Monday, so "TuTh" gives Tuesday and Thursday | not executed | Days.TuThLosesTuesday | Days.IntendedRoundTrip |

`Days.ExpandCompact` and `Days.NormalizeDays` model the table as written, and
`Days.TuAndMoEmitNothing` states the loss for any following text.
`Days.ExpandCompactIntended` and `Days.NormalizeDaysIntended` use the table
with the aliases "tue" and "mon". `Days.IntendedRoundTrip` proves that every
weekday list written compactly expands back to itself with that table. The
extraction adapter (`Parser`) keeps the behaviour as written, since that is
what the backend returns.
