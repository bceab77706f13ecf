/**
 * The pure helpers of `backend/app/main.py`: filling global term dates into
 * events, resolving the export date range, and the date summary that the
 * extraction endpoint returns (`needs_dates`, the inferred window, the note).
 */
module Api {
  import opened Wrappers
  import opened Dates
  import opened Schema
  import opened BuildCalendar

  // ---------------------------------------------------------------------------
  // _apply_global_dates

  /** One event of `_apply_global_dates`: a given date fills a missing one. */
  function FillDates(ev: EventRow, start: Option<Date>, end: Option<Date>): EventRow {
    var e1 := if start.Some? && ev.startDate.None? then ev.(startDate := start) else ev;
    if end.Some? && ev.endDate.None? then e1.(endDate := end) else e1
  }

  /**
   * `_apply_global_dates`: the same events in the same order, where only a
   * missing date is replaced, and only by a given global date.
   */
  function ApplyGlobalDates(events: seq<EventRow>, start: Option<Date>, end: Option<Date>)
    : (r: seq<EventRow>)
    ensures |r| == |events|
    ensures forall k :: 0 <= k < |r| ==>
      && r[k].(startDate := events[k].startDate, endDate := events[k].endDate) == events[k]
      && (events[k].startDate.Some? ==> r[k].startDate == events[k].startDate)
      && (events[k].startDate.None? ==> r[k].startDate == start)
      && (events[k].endDate.Some? ==> r[k].endDate == events[k].endDate)
      && (events[k].endDate.None? ==> r[k].endDate == end)
  {
    seq(|events|, k requires 0 <= k < |events| => FillDates(events[k], start, end))
  }

  /** Applying the same global dates twice changes nothing more. */
  lemma ApplyGlobalDatesIdempotent(events: seq<EventRow>, start: Option<Date>, end: Option<Date>)
    ensures ApplyGlobalDates(ApplyGlobalDates(events, start, end), start, end)
         == ApplyGlobalDates(events, start, end)
  {
    var once := ApplyGlobalDates(events, start, end);
    var twice := ApplyGlobalDates(once, start, end);
    forall k | 0 <= k < |events| ensures twice[k] == once[k] {
      assert twice[k].(startDate := once[k].startDate, endDate := once[k].endDate) == once[k];
    }
  }

  /** A given global date leaves no event without that date. */
  lemma ApplyGlobalDatesComplete(events: seq<EventRow>, start: Option<Date>, end: Option<Date>)
    ensures start.Some? ==> forall k :: 0 <= k < |events| ==> ApplyGlobalDates(events, start, end)[k].startDate.Some?
    ensures end.Some? ==> forall k :: 0 <= k < |events| ==> ApplyGlobalDates(events, start, end)[k].endDate.Some?
  {
  }

  // ---------------------------------------------------------------------------
  // Per-event dates

  /** `[ev.start_date for ev in events if ev.start_date]`. */
  function StartDates(events: seq<EventRow>): (r: seq<Date>)
    ensures |r| <= |events|
    ensures forall d :: d in r <==> exists k :: 0 <= k < |events| && events[k].startDate == Some(d)
  {
    if |events| == 0 then []
    else
      var rest := StartDates(events[1..]);
      assert forall k :: 1 <= k < |events| ==> events[k] == events[1..][k - 1];
      match events[0].startDate
      case Some(d) => [d] + rest
      case None => rest
  }

  /** `[ev.end_date for ev in events if ev.end_date]`. */
  function EndDates(events: seq<EventRow>): (r: seq<Date>)
    ensures |r| <= |events|
    ensures forall d :: d in r <==> exists k :: 0 <= k < |events| && events[k].endDate == Some(d)
  {
    if |events| == 0 then []
    else
      var rest := EndDates(events[1..]);
      assert forall k :: 1 <= k < |events| ==> events[k] == events[1..][k - 1];
      match events[0].endDate
      case Some(d) => [d] + rest
      case None => rest
  }

  /** `min(xs) if xs else None`. */
  function Earliest(xs: seq<Date>): (r: Option<Date>)
    ensures r.None? <==> xs == []
    ensures r.Some? ==> r.value in xs && forall k :: 0 <= k < |xs| ==> r.value <= xs[k]
  {
    if |xs| == 0 then None
    else
      match Earliest(xs[1..])
      case None => Some(xs[0])
      case Some(m) =>
        assert forall k :: 1 <= k < |xs| ==> xs[k] == xs[1..][k - 1];
        Some(if xs[0] <= m then xs[0] else m)
  }

  /** `max(xs) if xs else None`. */
  function Latest(xs: seq<Date>): (r: Option<Date>)
    ensures r.None? <==> xs == []
    ensures r.Some? ==> r.value in xs && forall k :: 0 <= k < |xs| ==> xs[k] <= r.value
  {
    if |xs| == 0 then None
    else
      match Latest(xs[1..])
      case None => Some(xs[0])
      case Some(m) =>
        assert forall k :: 1 <= k < |xs| ==> xs[k] == xs[1..][k - 1];
        Some(if xs[0] >= m then xs[0] else m)
  }

  /**
   * The start of the export range: the explicit start, else the earliest
   * start of any event, else none.
   */
  function ResolvedStart(events: seq<EventRow>, start: Option<Date>): (r: Option<Date>)
    ensures start.Some? ==> r == start
    ensures start.None? ==>
      && (r.None? <==> forall k :: 0 <= k < |events| ==> events[k].startDate.None?)
      && (r.Some? ==>
            && (exists k :: 0 <= k < |events| && events[k].startDate == r)
            && (forall k :: 0 <= k < |events| && events[k].startDate.Some? ==> r.value <= events[k].startDate.value))
  {
    var xs := StartDates(events);
    var m := Earliest(xs);
    assert forall k :: 0 <= k < |events| && events[k].startDate.Some? ==> events[k].startDate.value in xs;
    OrDate(start, m)
  }

  /**
   * The end of the export range: the explicit end, else the latest end of
   * any event, else none.
   */
  function ResolvedEnd(events: seq<EventRow>, end: Option<Date>): (r: Option<Date>)
    ensures end.Some? ==> r == end
    ensures end.None? ==>
      && (r.None? <==> forall k :: 0 <= k < |events| ==> events[k].endDate.None?)
      && (r.Some? ==>
            && (exists k :: 0 <= k < |events| && events[k].endDate == r)
            && (forall k :: 0 <= k < |events| && events[k].endDate.Some? ==> events[k].endDate.value <= r.value))
  {
    var xs := EndDates(events);
    var m := Latest(xs);
    assert forall k :: 0 <= k < |events| && events[k].endDate.Some? ==> events[k].endDate.value in xs;
    OrDate(end, m)
  }

  // ---------------------------------------------------------------------------
  // _resolve_date_range

  /** The two 400 responses of `_resolve_date_range`. */
  datatype DateRangeError =
    | MissingDates   // "Provide start_date and end_date (either globally or per event)."
    | StartAfterEnd  // "start_date must be before end_date."

  /** `_resolve_date_range`: an ordered pair of resolved bounds, or why there is none. */
  function ResolveDateRange(events: seq<EventRow>, start: Option<Date>, end: Option<Date>)
    : (r: Result<(Date, Date), DateRangeError>)
    ensures r.Ok? ==> r.value.0 <= r.value.1
    ensures r.Ok? ==> Some(r.value.0) == ResolvedStart(events, start) && Some(r.value.1) == ResolvedEnd(events, end)
    ensures r == Err(MissingDates) <==> ResolvedStart(events, start).None? || ResolvedEnd(events, end).None?
    ensures r == Err(StartAfterEnd) <==>
      && ResolvedStart(events, start).Some? && ResolvedEnd(events, end).Some?
      && ResolvedStart(events, start).value > ResolvedEnd(events, end).value
  {
    var s := ResolvedStart(events, start);
    var e := ResolvedEnd(events, end);
    if s.None? || e.None? then Err(MissingDates)
    else if s.value > e.value then Err(StartAfterEnd)
    else Ok((s.value, e.value))
  }

  /** Explicit bounds in order are the range, whatever the events hold. */
  lemma ExplicitRangeWins(events: seq<EventRow>, s: Date, e: Date)
    requires s <= e
    ensures ResolveDateRange(events, Some(s), Some(e)) == Ok((s, e))
  {
  }

  // ---------------------------------------------------------------------------
  // The date summary of the extraction endpoint

  /** The note shown when the term dates are still missing. */
  const DatesNote: string := "Add the term's start and end dates before exporting to calendar."

  /** The date part of `ExtractResponse`. */
  datatype Summary = Summary(
    events: seq<EventRow>,
    timezone: string,
    inferredStart: Option<Date>,
    inferredEnd: Option<Date>,
    needsDates: bool,
    note: Option<string>)

  /** `any(ev.start_date for ev in events)`. */
  predicate AnyStart(events: seq<EventRow>) {
    exists k :: 0 <= k < |events| && events[k].startDate.Some?
  }

  /** `any(ev.end_date for ev in events)`. */
  predicate AnyEnd(events: seq<EventRow>) {
    exists k :: 0 <= k < |events| && events[k].endDate.Some?
  }

  /**
   * The date handling of `extract_gemini` after extraction: the global
   * dates are filled in, `needs_dates` is computed on the filled events,
   * and the window is inferred from the given dates or else read off the
   * events. `infer_range` can fail only by date overflow here.
   */
  function ExtractSummary(extracted: seq<EventRow>, start: Option<Date>, end: Option<Date>,
                          tzArg: Option<string>, env: Option<string>,
                          today: string -> Option<Date>)
    : (r: Result<Summary, RangeError>)
    ensures r.Ok? ==> r.value.events == ApplyGlobalDates(extracted, start, end)
    ensures r.Ok? ==> r.value.timezone == ResolveTimezone(tzArg, env)
    ensures r.Ok? ==>
      (r.value.needsDates <==>
         ResolvedStart(r.value.events, start).None? || ResolvedEnd(r.value.events, end).None?)
    ensures r.Ok? ==> (r.value.note.Some? <==> r.value.needsDates)
    ensures start.None? && end.None? ==> r.Ok?
    ensures r.Ok? && start.None? && end.None? ==>
      && r.value.inferredStart == Earliest(StartDates(r.value.events))
      && r.value.inferredEnd == Latest(EndDates(r.value.events))
    ensures start.Some? || end.Some? ==>
      var w := InferRange(start, end, Some(ResolveTimezone(tzArg, env)), env, today);
      && (r.Ok? <==> w.Ok?)
      && (r.Ok? ==> r.value.inferredStart == Some(w.value.start) && r.value.inferredEnd == Some(w.value.end))
  {
    var events := ApplyGlobalDates(extracted, start, end);
    var tz := ResolveTimezone(tzArg, env);
    var hasStart := start.Some? || AnyStart(events);
    var hasEnd := end.Some? || AnyEnd(events);
    var needsDates := !(hasStart && hasEnd);
    var note := if needsDates then Some(DatesNote) else None;
    if start.Some? || end.Some? then
      match InferRange(start, end, Some(tz), env, today)
      case Err(e) => Err(e)
      case Ok(w) => Ok(Summary(events, tz, Some(w.start), Some(w.end), needsDates, note))
    else
      Ok(Summary(events, tz, Earliest(StartDates(events)), Latest(EndDates(events)), needsDates, note))
  }

  /**
   * The extraction endpoint asks for dates exactly when the export endpoints,
   * given the same dates, would refuse for missing dates.
   */
  lemma NeedsDatesIffMissing(extracted: seq<EventRow>, start: Option<Date>, end: Option<Date>,
                             tzArg: Option<string>, env: Option<string>,
                             today: string -> Option<Date>)
    requires ExtractSummary(extracted, start, end, tzArg, env, today).Ok?
    ensures var events := ApplyGlobalDates(extracted, start, end);
      var needs := ExtractSummary(extracted, start, end, tzArg, env, today).value.needsDates;
      needs <==> ResolveDateRange(events, start, end) == Err(MissingDates)
  {
  }

  /** Explicit dates on both sides: nothing is missing and they are the window. */
  lemma ExplicitDatesSummary(extracted: seq<EventRow>, s: Date, e: Date,
                             tzArg: Option<string>, env: Option<string>,
                             today: string -> Option<Date>)
    ensures var r := ExtractSummary(extracted, Some(s), Some(e), tzArg, env, today);
      && r.Ok? && !r.value.needsDates && r.value.note.None?
      && r.value.inferredStart == Some(s) && r.value.inferredEnd == Some(e)
  {
  }
}
