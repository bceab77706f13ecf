/**
 * The recurrence expansion of `build_ics` in `backend/app/ics.py`.
 *
 * For every event with days, and every day code of it, the first class
 * meeting on or after the effective start date becomes one weekly series
 * that repeats until the effective end date. The series is modelled as an
 * `Entry` record; its weekly rule follows section 3.3.10 of RFC 5545
 * (FREQ=WEEKLY with an UNTIL bound). Time-zone localisation and the
 * iCalendar text itself are not part of this model.
 */
module Ics {
  import opened Wrappers
  import opened Text
  import opened Dates
  import opened Weekdays
  import opened TimeFormat
  import opened Schema

  // ---------------------------------------------------------------------------
  // First occurrence

  /** Some date of `[from, to]` falls on `weekday`. */
  predicate MeetsIn(weekday: Weekday, from: int, to: int) {
    exists d :: from <= d <= to && WeekdayOf(d) == weekday
  }

  /**
   * `(weekday - start.weekday()) % 7`: the days to wait for `weekday`.
   * Python's `%` with a positive modulus is never negative, like Dafny's.
   */
  function DaysUntil(start: Date, weekday: Weekday): (n: nat)
    ensures n < 7 && WeekdayOf(start + n) == weekday
    ensures !MeetsIn(weekday, start, start + n - 1)
  {
    var n := (weekday - WeekdayOf(start)) % 7;
    forall d | start <= d <= start + n - 1 ensures WeekdayOf(d) != weekday {
      WeekdayStep(start, d - start);
    }
    WeekdayStep(start, n);
    n
  }

  /** Within a week, the weekday advances one step per day. */
  lemma WeekdayStep(start: int, i: int)
    requires 0 <= i < 7
    ensures WeekdayOf(start + i) == (WeekdayOf(start) + i) % 7
  {
  }

  /**
   * `_first_occurrence_on_or_after`: the earliest date on or after `start`
   * that falls on `weekday`. Past the last representable date Python raises
   * `OverflowError`, which happens exactly when no such date exists.
   */
  function FirstOccurrence(start: Date, weekday: Weekday): (r: Result<Date, DateError>)
    ensures r.Ok? ==> start <= r.value <= start + 6 && WeekdayOf(r.value) == weekday
    ensures r.Ok? ==> !MeetsIn(weekday, start, r.value - 1)
    ensures r.Err? <==> !MeetsIn(weekday, start, MaxOrdinal)
    ensures start + 6 <= MaxOrdinal ==> r.Ok?
  {
    var n := DaysUntil(start, weekday);
    var r := AddDays(start, n);
    NoMeetingBeforeOverflow(start, weekday, n, r.Err?);
    r
  }

  /** When the wait runs past the last date, the weekday never occurs. */
  lemma NoMeetingBeforeOverflow(start: Date, weekday: Weekday, n: nat, overflow: bool)
    requires !MeetsIn(weekday, start, start + n - 1)
    requires overflow ==> start + n > MaxOrdinal
    ensures overflow ==> !MeetsIn(weekday, start, MaxOrdinal)
  {
    if overflow {
      forall d | start <= d <= MaxOrdinal ensures WeekdayOf(d) != weekday {
        assert d <= start + n - 1;
      }
    }
  }

  /**
   * The first occurrence is within `[from, to]` exactly when the weekday
   * occurs there at all.
   */
  lemma FirstOccurrenceWithin(from: Date, to: Date, weekday: Weekday)
    ensures (FirstOccurrence(from, weekday).Ok? && FirstOccurrence(from, weekday).value <= to)
        <==> MeetsIn(weekday, from, to)
  {
    var r := FirstOccurrence(from, weekday);
    if MeetsIn(weekday, from, to) {
      var d :| from <= d <= to && WeekdayOf(d) == weekday;
      assert MeetsIn(weekday, from, MaxOrdinal);
      assert !(from <= d <= r.value - 1 && WeekdayOf(d) == weekday);
    }
    if r.Ok? && r.value <= to {
      assert from <= r.value <= to && WeekdayOf(r.value) == weekday;
    }
  }

  /** Every weekday occurs in a window of at least seven days. */
  lemma WeekLongWindowMeets(from: int, to: int, weekday: Weekday)
    requires to - from >= 6
    ensures MeetsIn(weekday, from, to)
  {
    var n := (weekday - WeekdayOf(from)) % 7;
    WeekdayStep(from, n);
    assert from <= from + n <= to && WeekdayOf(from + n) == weekday;
  }

  // ---------------------------------------------------------------------------
  // Times

  /** `int(s)` for text of ASCII digits; other text raises `ValueError`. */
  function ParseInt(s: string): (r: Option<nat>)
    ensures r.Some? <==> s != [] && AllDigits(s)
  {
    if s != [] && AllDigits(s) then Some(DecimalValue(s)) else None
  }

  /**
   * `_parse_hhmm`: `h, m = s.split(":")` needs exactly two pieces, and each
   * must read as a number.
   */
  function ParseHHMM(s: string): (r: Option<(nat, nat)>)
    ensures r.Some? ==> ':' in s
  {
    var parts := Split(s, ':');
    if |parts| != 2 then None
    else
      match (ParseInt(parts[0]), ParseInt(parts[1]))
      case (Some(h), Some(m)) =>
        Some((h, m))
      case _ => None
  }

  /** A canonical time reads back as the hour and minute it shows. */
  lemma ParseHHMMOfHHMM(s: string)
    requires IsHHMM(s)
    ensures ParseHHMM(s) == Some((HourOf(s), MinuteOf(s)))
  {
    assert s == s[..2] + [':'] + s[3..];
    assert ':' !in s[..2];
    assert ':' !in s[3..] by {
      forall i | 0 <= i < |s[3..]| ensures s[3..][i] != ':' {
        assert IsDigit(s[3..][i]);
      }
    }
    SplitJoin([s[..2], s[3..]], ':');
    assert Join([s[..2], s[3..]], ':') == s[..2] + [':'] + s[3..];
  }

  /** `_parse_hhmm` inverts the `HH:MM` formatting of `normalize_time_string`. */
  lemma ParseHHMMRoundTrip(hour: nat, minute: nat)
    requires hour <= 23 && minute <= 59
    ensures ParseHHMM(FormatHHMM(hour, minute)) == Some((hour, minute))
  {
    ParseHHMMOfHHMM(FormatHHMM(hour, minute));
  }

  /** Text without a colon is not a time. */
  lemma ParseHHMMNeedsColon(s: string)
    requires ':' !in s
    ensures ParseHHMM(s).None?
  {
  }

  // ---------------------------------------------------------------------------
  // Entries

  /** One weekly series: what `build_ics` adds to the calendar as an event. */
  datatype Entry = Entry(
    summary: string,
    location: Option<string>,
    description: Option<string>,
    anchor: Date,            // the date of DTSTART: the first class meeting
    startClock: (nat, nat),  // hour and minute of DTSTART, local time
    endClock: (nat, nat),    // hour and minute of DTEND on the anchor date
    until: Date)             // UNTIL: this date at 23:59:59 local time

  /** Python's truthiness of an optional string. */
  predicate Present(s: Option<string>) {
    s.Some? && s.value != ""
  }

  /**
   * The description lines, in the order Instructor, notes, Term, each only
   * when its field is non-empty.
   */
  function DescriptionLines(row: EventRow): (lines: seq<string>)
    ensures |lines| == (if Present(row.instructor) then 1 else 0) + (if Present(row.notes) then 1 else 0)
                       + (if Present(row.termLabel) then 1 else 0)
    ensures Present(row.instructor) ==> lines[0] == "Instructor: " + row.instructor.value
    ensures Present(row.notes) ==> lines[if Present(row.instructor) then 1 else 0] == row.notes.value
    ensures Present(row.termLabel) ==> lines[|lines| - 1] == "Term: " + row.termLabel.value
  {
    (if Present(row.instructor) then ["Instructor: " + row.instructor.value] else [])
    + (if Present(row.notes) then [row.notes.value] else [])
    + (if Present(row.termLabel) then ["Term: " + row.termLabel.value] else [])
  }

  /** The description: the lines joined by newlines, left out when there are none. */
  function Description(row: EventRow): (d: Option<string>)
    ensures d.None? <==> !Present(row.instructor) && !Present(row.notes) && !Present(row.termLabel)
  {
    var lines := DescriptionLines(row);
    if lines == [] then None else Some(Join(lines, '\n'))
  }

  /** `row.title or "Class"`. */
  function Summary(row: EventRow): (s: string)
    ensures s != ""
    ensures row.title != "" ==> s == row.title
    ensures row.title == "" ==> s == "Class"
  {
    if row.title != "" then row.title else "Class"
  }

  /** A row's own date wins over the window's. */
  function EffectiveStart(row: EventRow, windowStart: Option<Date>): Option<Date> {
    OrDate(row.startDate, windowStart)
  }

  function EffectiveEnd(row: EventRow, windowEnd: Option<Date>): Option<Date> {
    OrDate(row.endDate, windowEnd)
  }

  /** The two `ValueError`s of a row, the unreadable time, and date overflow. */
  datatype IcsError =
    | MissingRange(title: string)   // "Missing date range for {title}"
    | InvertedRange(title: string)  // "start_date after end_date for {title}"
    | MalformedTime(text: string)   // `_parse_hhmm` could not read the time
    | DateOverflow                  // `OverflowError` in date arithmetic

  /**
   * The weekdays the codes name that occur in `[from, to]`, in the order of
   * the codes: the days that get a series.
   */
  function MeetingDays(codes: seq<string>, from: Date, to: Date): (ws: seq<Weekday>)
    ensures |ws| <= |codes|
    ensures forall k :: 0 <= k < |ws| ==> MeetsIn(ws[k], from, to) && DayCodes[ws[k]] in codes
  {
    if codes == [] then []
    else
      var c := CodeIndex(codes[0]);
      var rest := MeetingDays(codes[1..], from, to);
      assert forall k :: 0 <= k < |rest| ==> DayCodes[rest[k]] in codes;
      (if c.Some? && MeetsIn(c.value, from, to) then [c.value] else []) + rest
  }

  /** `row.location or None`: an empty location is left out. */
  function Location(row: EventRow): (l: Option<string>)
    ensures l.Some? <==> Present(row.location)
    ensures Present(row.location) ==> l == row.location
  {
    if Present(row.location) then row.location else None
  }

  /**
   * The series `build_ics` adds for `weekday`: anchored at the weekday's
   * first meeting on or after `from`, repeating up to `to`, with the row's
   * texts and the given times.
   */
  predicate EntryOf(e: Entry, row: EventRow, weekday: Weekday, from: Date, to: Date,
                    startClock: (nat, nat), endClock: (nat, nat))
  {
    && FirstOccurrence(from, weekday) == Ok(e.anchor)
    && e.until == to
    && e.startClock == startClock && e.endClock == endClock
    && e.summary == Summary(row)
    && e.location == Location(row)
    && e.description == Description(row)
  }

  /** A series of a weekday that meets in the window starts inside it, on that weekday. */
  lemma EntryInWindow(e: Entry, row: EventRow, weekday: Weekday, from: Date, to: Date,
                      startClock: (nat, nat), endClock: (nat, nat))
    requires MeetsIn(weekday, from, to)
    requires EntryOf(e, row, weekday, from, to, startClock, endClock)
    ensures from <= e.anchor <= to && WeekdayOf(e.anchor) == weekday
  {
    FirstOccurrenceWithin(from, to, weekday);
  }

  /**
   * The inner loop of `build_ics` over one row's codes: unknown codes and
   * weekdays whose first meeting falls after `to` are skipped; every other
   * code gives one entry anchored at its first meeting, in code order.
   */
  function CodeEntries(codes: seq<string>, from: Date, to: Date, row: EventRow,
                       startClock: (nat, nat), endClock: (nat, nat))
    : (r: Result<seq<Entry>, IcsError>)
    requires from <= to
    ensures r.Ok? ==> |r.value| == |MeetingDays(codes, from, to)|
    ensures r.Ok? ==> forall k :: 0 <= k < |r.value| ==>
      EntryOf(r.value[k], row, MeetingDays(codes, from, to)[k], from, to, startClock, endClock)
    ensures r.Err? ==> r.error == DateOverflow
    ensures from + 6 <= MaxOrdinal ==> r.Ok?
    decreases |codes|
  {
    if codes == [] then Ok([])
    else
      var rest := CodeEntries(codes[1..], from, to, row, startClock, endClock);
      match CodeIndex(codes[0])
      case None => rest
      case Some(w) =>
        var first := FirstOccurrence(from, w);
        if first.Err? then Err(DateOverflow)
        else
          FirstOccurrenceWithin(from, to, w);
          if first.value > to then rest
          else if rest.Err? then rest
          else
            var e := Entry(Summary(row), Location(row), Description(row), first.value,
                           startClock, endClock, to);
            EntriesCons(e, rest.value, row, w, codes, from, to, startClock, endClock);
            Ok([e] + rest.value)
  }

  /** A meeting code's entry in front of the later codes' entries. */
  lemma EntriesCons(e: Entry, es: seq<Entry>, row: EventRow, w: Weekday, codes: seq<string>,
                    from: Date, to: Date, startClock: (nat, nat), endClock: (nat, nat))
    requires codes != [] && CodeIndex(codes[0]) == Some(w) && MeetsIn(w, from, to)
    requires EntryOf(e, row, w, from, to, startClock, endClock)
    requires |es| == |MeetingDays(codes[1..], from, to)|
    requires forall k :: 0 <= k < |es| ==>
      EntryOf(es[k], row, MeetingDays(codes[1..], from, to)[k], from, to, startClock, endClock)
    ensures |[e] + es| == |MeetingDays(codes, from, to)|
    ensures forall k :: 0 <= k < |[e] + es| ==>
      EntryOf(([e] + es)[k], row, MeetingDays(codes, from, to)[k], from, to, startClock, endClock)
  {
    var ws, tail := MeetingDays(codes, from, to), MeetingDays(codes[1..], from, to);
    assert ws == [w] + tail;
    forall k | 0 < k < |[e] + es|
      ensures EntryOf(([e] + es)[k], row, ws[k], from, to, startClock, endClock)
    {
      assert ([e] + es)[k] == es[k - 1] && ws[k] == tail[k - 1];
    }
  }

  /**
   * The outer loop body of `build_ics` for one row: rows without days are
   * skipped; otherwise the effective dates must exist and be in order, the
   * times are read, and the codes are expanded.
   */
  function RowEntries(row: EventRow, windowStart: Option<Date>, windowEnd: Option<Date>)
    : (r: Result<seq<Entry>, IcsError>)
    ensures row.days == [] ==> r == Ok([])
    ensures row.days != [] && (EffectiveStart(row, windowStart).None? || EffectiveEnd(row, windowEnd).None?)
      ==> r == Err(MissingRange(row.title))
    ensures row.days != [] && EffectiveStart(row, windowStart).Some? && EffectiveEnd(row, windowEnd).Some?
      && EffectiveStart(row, windowStart).value > EffectiveEnd(row, windowEnd).value
      ==> r == Err(InvertedRange(row.title))
    ensures row.days != [] && EffectiveStart(row, windowStart).Some? && EffectiveEnd(row, windowEnd).Some?
      && EffectiveStart(row, windowStart).value <= EffectiveEnd(row, windowEnd).value
      && ParseHHMM(row.startTime).None?
      ==> r == Err(MalformedTime(row.startTime))
    ensures row.days != [] && EffectiveStart(row, windowStart).Some? && EffectiveEnd(row, windowEnd).Some?
      && EffectiveStart(row, windowStart).value <= EffectiveEnd(row, windowEnd).value
      && ParseHHMM(row.startTime).Some? && ParseHHMM(row.endTime).None?
      ==> r == Err(MalformedTime(row.endTime))
    ensures r.Ok? && row.days != [] ==>
      ParseHHMM(row.startTime).Some? && ParseHHMM(row.endTime).Some?
    ensures r.Ok? && row.days != [] ==>
      var from, to := EffectiveStart(row, windowStart).value, EffectiveEnd(row, windowEnd).value;
      && |r.value| == |MeetingDays(row.days, from, to)|
      && forall k :: 0 <= k < |r.value| ==>
           EntryOf(r.value[k], row, MeetingDays(row.days, from, to)[k], from, to,
                   ParseHHMM(row.startTime).value, ParseHHMM(row.endTime).value)
  {
    if row.days == [] then Ok([])
    else
      var from := EffectiveStart(row, windowStart);
      var to := EffectiveEnd(row, windowEnd);
      if from.None? || to.None? then Err(MissingRange(row.title))
      else if from.value > to.value then Err(InvertedRange(row.title))
      else
        match (ParseHHMM(row.startTime), ParseHHMM(row.endTime))
        case (None, _) => Err(MalformedTime(row.startTime))
        case (_, None) => Err(MalformedTime(row.endTime))
        case (Some(sc), Some(ec)) => CodeEntries(row.days, from.value, to.value, row, sc, ec)
  }

  /**
   * A validated row with days and dates in order, starting at least a week
   * before the last representable date, always expands, and every entry
   * keeps the row's times.
   */
  lemma RowEntriesTotal(row: EventRow, windowStart: Option<Date>, windowEnd: Option<Date>)
    requires ValidEventRow(row) && row.days != []
    requires EffectiveStart(row, windowStart).Some? && EffectiveEnd(row, windowEnd).Some?
    requires EffectiveStart(row, windowStart).value <= EffectiveEnd(row, windowEnd).value
    requires EffectiveStart(row, windowStart).value + 6 <= MaxOrdinal
    ensures RowEntries(row, windowStart, windowEnd).Ok?
    ensures ParseHHMM(row.startTime) == Some((HourOf(row.startTime), MinuteOf(row.startTime)))
    ensures ParseHHMM(row.endTime) == Some((HourOf(row.endTime), MinuteOf(row.endTime)))
    ensures var from, to := EffectiveStart(row, windowStart).value, EffectiveEnd(row, windowEnd).value;
      forall k :: 0 <= k < |RowEntries(row, windowStart, windowEnd).value| ==>
        EntryOf(RowEntries(row, windowStart, windowEnd).value[k], row, MeetingDays(row.days, from, to)[k], from, to,
                (HourOf(row.startTime), MinuteOf(row.startTime)), (HourOf(row.endTime), MinuteOf(row.endTime)))
  {
    ParseHHMMOfHHMM(row.startTime);
    ParseHHMMOfHHMM(row.endTime);
  }

  /** When every code names a weekday and the window spans a week, every code meets. */
  lemma {:induction false} MeetingDaysAll(codes: seq<string>, from: Date, to: Date)
    requires to - from >= 6
    requires forall k :: 0 <= k < |codes| ==> IsDayCode(codes[k])
    ensures |MeetingDays(codes, from, to)| == |codes|
    ensures forall k :: 0 <= k < |codes| ==> DayCodes[MeetingDays(codes, from, to)[k]] == codes[k]
    decreases |codes|
  {
    if codes != [] {
      assert IsDayCode(codes[0]);
      var w := CodeIndex(codes[0]).value;
      WeekLongWindowMeets(from, to, w);
      MeetingDaysAll(codes[1..], from, to);
      var ws := MeetingDays(codes, from, to);
      assert ws == [w] + MeetingDays(codes[1..], from, to);
      forall k | 0 < k < |codes| ensures DayCodes[ws[k]] == codes[k] {
        assert codes[k] == codes[1..][k - 1];
      }
    }
  }

  /**
   * With at least seven days between the dates, every day code of the row
   * gives exactly one entry, in the order of the codes, anchored at the
   * first meeting of that code's weekday.
   */
  lemma WeekLongRowOneEntryPerCode(row: EventRow, windowStart: Option<Date>, windowEnd: Option<Date>)
    requires ValidEventRow(row) && row.days != []
    requires EffectiveStart(row, windowStart).Some? && EffectiveEnd(row, windowEnd).Some?
    requires EffectiveEnd(row, windowEnd).value - EffectiveStart(row, windowStart).value >= 6
    ensures RowEntries(row, windowStart, windowEnd).Ok?
    ensures |RowEntries(row, windowStart, windowEnd).value| == |row.days|
    ensures forall k :: 0 <= k < |row.days| ==>
      var e := RowEntries(row, windowStart, windowEnd).value[k];
      && FirstOccurrence(EffectiveStart(row, windowStart).value, CodeIndex(row.days[k]).value) == Ok(e.anchor)
      && DayCodes[WeekdayOf(e.anchor)] == row.days[k]
  {
    RowEntriesTotal(row, windowStart, windowEnd);
    var from, to := EffectiveStart(row, windowStart).value, EffectiveEnd(row, windowEnd).value;
    MeetingDaysAll(row.days, from, to);
    var es := RowEntries(row, windowStart, windowEnd).value;
    var ws := MeetingDays(row.days, from, to);
    forall k | 0 <= k < |row.days|
      ensures FirstOccurrence(from, CodeIndex(row.days[k]).value) == Ok(es[k].anchor)
      ensures DayCodes[WeekdayOf(es[k].anchor)] == row.days[k]
    {
      CodeIndexRoundTrip(ws[k], row.days[k]);
      EntryInWindow(es[k], row, ws[k], from, to, es[k].startClock, es[k].endClock);
    }
  }

  // ---------------------------------------------------------------------------
  // The calendar

  type RowResult = Result<seq<Entry>, IcsError>

  /** The entries of the successful results, one result after the other. */
  function Entries(results: seq<RowResult>): (es: seq<Entry>)
    decreases |results|
  {
    if results == [] then []
    else (if results[0].Ok? then results[0].value else []) + Entries(results[1..])
  }

  /**
   * The entries of every row, in order; the first failing row aborts with
   * its error.
   */
  function Concat(results: seq<RowResult>): (r: RowResult)
    ensures r.Ok? <==> forall k :: 0 <= k < |results| ==> results[k].Ok?
    ensures r.Err? ==> exists k :: 0 <= k < |results| && results[k] == Err(r.error)
                                  && forall j :: 0 <= j < k ==> results[j].Ok?
    ensures r.Ok? ==> forall e :: e in r.value ==>
      exists k :: 0 <= k < |results| && results[k].Ok? && e in results[k].value
    ensures r.Ok? ==> r.value == Entries(results)
    decreases |results|
  {
    if results == [] then Ok([])
    else
      match results[0]
      case Err(e) => Err(e)
      case Ok(head) =>
        var tail := Concat(results[1..]);
        assert forall k :: 1 <= k < |results| ==> results[k] == results[1..][k - 1];
        if tail.Err? then
          var k :| 0 <= k < |results[1..]| && results[1..][k] == Err(tail.error)
                   && forall j :: 0 <= j < k ==> results[1..][j].Ok?;
          assert results[k + 1] == Err(tail.error);
          tail
        else
          assert forall e :: e in tail.value ==> exists k :: 0 <= k < |results| && results[k].Ok? && e in results[k].value
          by {
            forall e | e in tail.value ensures exists k :: 0 <= k < |results| && results[k].Ok? && e in results[k].value {
              var k :| 0 <= k < |results[1..]| && results[1..][k].Ok? && e in results[1..][k].value;
              assert results[k + 1] == results[1..][k];
            }
          }
          Ok(head + tail.value)
  }

  /** An empty row result changes nothing. */
  lemma {:induction false} ConcatSkipsEmpty(before: seq<RowResult>, after: seq<RowResult>)
    ensures Concat(before + [Ok([])] + after) == Concat(before + after)
    decreases |before|
  {
    if before == [] {
      assert before + [Ok([])] + after == [Ok([])] + after;
      assert ([Ok([])] + after)[1..] == after;
      assert before + after == after;
      assert Concat([Ok([])] + after) == Concat(after) by {
        var t := Concat(after);
        if t.Ok? {
          assert [] + t.value == t.value;
        }
      }
    } else {
      ConcatSkipsEmpty(before[1..], after);
      assert (before + [Ok([])] + after)[1..] == before[1..] + [Ok([])] + after;
      assert (before + after)[1..] == before[1..] + after;
      assert (before + [Ok([])] + after)[0] == before[0] == (before + after)[0];
    }
  }

  /** The result of each row of `events`. */
  function RowResults(events: seq<EventRow>, windowStart: Option<Date>, windowEnd: Option<Date>)
    : (rs: seq<RowResult>)
    ensures |rs| == |events|
    ensures forall k :: 0 <= k < |events| ==> rs[k] == RowEntries(events[k], windowStart, windowEnd)
  {
    seq(|events|, k requires 0 <= k < |events| => RowEntries(events[k], windowStart, windowEnd))
  }

  /**
   * `build_ics`: every row's entries in order. It fails with the error of
   * the first failing row.
   */
  function BuildIcs(events: seq<EventRow>, windowStart: Option<Date>, windowEnd: Option<Date>)
    : (r: RowResult)
    ensures r.Ok? <==> forall k :: 0 <= k < |events| ==> RowEntries(events[k], windowStart, windowEnd).Ok?
    ensures r.Err? ==> exists k :: 0 <= k < |events| && RowEntries(events[k], windowStart, windowEnd) == Err(r.error)
                                  && forall j :: 0 <= j < k ==> RowEntries(events[j], windowStart, windowEnd).Ok?
    ensures r.Ok? ==> forall e :: e in r.value ==>
      exists k :: 0 <= k < |events| && e in RowEntries(events[k], windowStart, windowEnd).value
    ensures r.Ok? ==> r.value == Entries(RowResults(events, windowStart, windowEnd))
  {
    Concat(RowResults(events, windowStart, windowEnd))
  }

  /** The results of a concatenation are the concatenated results. */
  lemma RowResultsAppend(xs: seq<EventRow>, ys: seq<EventRow>, windowStart: Option<Date>, windowEnd: Option<Date>)
    ensures RowResults(xs + ys, windowStart, windowEnd)
         == RowResults(xs, windowStart, windowEnd) + RowResults(ys, windowStart, windowEnd)
  {
  }

  /** A row without days adds nothing and never fails, whatever its dates. */
  lemma DaylessRowIgnored(before: seq<EventRow>, row: EventRow, after: seq<EventRow>,
                          windowStart: Option<Date>, windowEnd: Option<Date>)
    requires row.days == []
    ensures BuildIcs(before + [row] + after, windowStart, windowEnd) == BuildIcs(before + after, windowStart, windowEnd)
  {
    var b, a := RowResults(before, windowStart, windowEnd), RowResults(after, windowStart, windowEnd);
    RowResultsAppend(before + [row], after, windowStart, windowEnd);
    RowResultsAppend(before, [row], windowStart, windowEnd);
    RowResultsAppend(before, after, windowStart, windowEnd);
    assert RowResults([row], windowStart, windowEnd) == [Ok([])];
    ConcatSkipsEmpty(b, a);
  }

  /** When every result holds one entry, there are as many entries as results. */
  lemma {:induction false} EntriesOfSingletons(results: seq<RowResult>)
    requires forall k :: 0 <= k < |results| ==> results[k].Ok? && |results[k].value| == 1
    ensures |Entries(results)| == |results|
    ensures forall k :: 0 <= k < |results| ==> Entries(results)[k] == results[k].value[0]
    decreases |results|
  {
    if results != [] {
      EntriesOfSingletons(results[1..]);
      var tail := Entries(results[1..]);
      assert Entries(results) == results[0].value + tail;
      forall k | 0 < k < |results| ensures Entries(results)[k] == results[k].value[0] {
        assert results[k] == results[1..][k - 1];
      }
    }
  }

  /**
   * Rows of one day each, with dates at least a week apart, give exactly
   * one entry per row, in row order, each anchored at its row's first
   * meeting.
   */
  lemma OneDayRowsOneEntryEach(events: seq<EventRow>, windowStart: Option<Date>, windowEnd: Option<Date>)
    requires forall k :: 0 <= k < |events| ==> ValidEventRow(events[k]) && |events[k].days| == 1
    requires forall k :: 0 <= k < |events| ==>
      && EffectiveStart(events[k], windowStart).Some? && EffectiveEnd(events[k], windowEnd).Some?
      && EffectiveEnd(events[k], windowEnd).value - EffectiveStart(events[k], windowStart).value >= 6
    ensures BuildIcs(events, windowStart, windowEnd).Ok?
    ensures |BuildIcs(events, windowStart, windowEnd).value| == |events|
    ensures forall k :: 0 <= k < |events| ==>
      RowEntries(events[k], windowStart, windowEnd) == Ok([BuildIcs(events, windowStart, windowEnd).value[k]])
  {
    var rs := RowResults(events, windowStart, windowEnd);
    forall k | 0 <= k < |rs| ensures rs[k].Ok? && |rs[k].value| == 1 {
      OneDayRowOneEntry(events[k], windowStart, windowEnd);
    }
    ConcatOfSingletons(rs);
    var r := BuildIcs(events, windowStart, windowEnd);
    assert r == Concat(rs);
    forall k | 0 <= k < |events|
      ensures RowEntries(events[k], windowStart, windowEnd) == Ok([r.value[k]])
    {
      assert rs[k] == RowEntries(events[k], windowStart, windowEnd);
      assert rs[k].value == [rs[k].value[0]];
    }
  }

  /** Results of one entry each concatenate to one entry per result. */
  lemma ConcatOfSingletons(results: seq<RowResult>)
    requires forall k :: 0 <= k < |results| ==> results[k].Ok? && |results[k].value| == 1
    ensures Concat(results).Ok?
    ensures |Concat(results).value| == |results|
    ensures forall k :: 0 <= k < |results| ==> Concat(results).value[k] == results[k].value[0]
  {
    EntriesOfSingletons(results);
  }

  lemma OneDayRowOneEntry(row: EventRow, windowStart: Option<Date>, windowEnd: Option<Date>)
    requires ValidEventRow(row) && |row.days| == 1
    requires EffectiveStart(row, windowStart).Some? && EffectiveEnd(row, windowEnd).Some?
    requires EffectiveEnd(row, windowEnd).value - EffectiveStart(row, windowStart).value >= 6
    ensures RowEntries(row, windowStart, windowEnd).Ok? && |RowEntries(row, windowStart, windowEnd).value| == 1
  {
    WeekLongRowOneEntryPerCode(row, windowStart, windowEnd);
  }
}
