/**
 * `infer_range` of `backend/app/build_calendar.py` and the time-zone
 * resolution it shares with `backend/app/main.py`.
 *
 * The environment variable `DEFAULT_TIMEZONE` and the calendar date "today"
 * in a named zone are parameters: `env` is the variable's value, and
 * `today(name)` is the current date in the zone `name`, or `None` when the
 * time-zone database does not know the name.
 */
module BuildCalendar {
  import opened Wrappers
  import opened Dates

  /** `DEFAULT_WEEKS`. */
  const DefaultWeeks: nat := 5

  /** An inferred window covers this many days, both ends included. */
  const WindowDays: nat := 7 * DefaultWeeks

  /** Python's truthiness of an optional string. */
  predicate Given(s: Option<string>) {
    s.Some? && s.value != ""
  }

  /**
   * `tz_name or os.environ.get("DEFAULT_TIMEZONE") or "UTC"`: the argument,
   * then the environment, then UTC, skipping absent and empty values.
   */
  function ResolveTimezone(arg: Option<string>, env: Option<string>): (tz: string)
    ensures tz != ""
    ensures Given(arg) ==> tz == arg.value
    ensures !Given(arg) && Given(env) ==> tz == env.value
    ensures !Given(arg) && !Given(env) ==> tz == "UTC"
  {
    if Given(arg) then arg.value
    else if Given(env) then env.value
    else "UTC"
  }

  /**
   * A resolved name resolves to itself whatever the environment, so the
   * second resolution inside `infer_range` keeps the zone the caller chose.
   */
  lemma ResolveTimezoneStable(arg: Option<string>, env: Option<string>, env2: Option<string>)
    ensures ResolveTimezone(Some(ResolveTimezone(arg, env)), env2) == ResolveTimezone(arg, env)
  {
  }

  /** The two ways `infer_range` fails. */
  datatype RangeError =
    | DateOverflow              // `OverflowError` from date arithmetic
    | UnknownTimezone(name: string)  // `pytz.timezone(name)` raised

  /** A term window and the zone it was inferred in. */
  datatype Window = Window(start: Date, end: Date, tz: string)

  /**
   * `infer_range`: both dates are returned as given, with no order check;
   * one date is extended to a five-week window; with none, the window starts
   * today in the resolved zone.
   */
  function InferRange(start: Option<Date>, end: Option<Date>, tzArg: Option<string>,
                      env: Option<string>, today: string -> Option<Date>)
    : (r: Result<Window, RangeError>)
    ensures r.Ok? ==> r.value.tz == ResolveTimezone(tzArg, env)
    ensures start.Some? && end.Some? ==>
      r.Ok? && r.value.start == start.value && r.value.end == end.value
    ensures start.Some? && end.None? ==>
      && (r.Ok? <==> start.value + (WindowDays - 1) <= MaxOrdinal)
      && (r.Ok? ==> r.value.start == start.value)
      && (r.Err? ==> r.error == DateOverflow)
    ensures start.None? && end.Some? ==>
      && (r.Ok? <==> end.value - WindowDays >= MinOrdinal)
      && (r.Ok? ==> r.value.end == end.value)
      && (r.Err? ==> r.error == DateOverflow)
    ensures start.None? && end.None? ==>
      var tz := ResolveTimezone(tzArg, env);
      && (today(tz).None? ==> r == Err(UnknownTimezone(tz)))
      && (today(tz).Some? ==>
            && (r.Ok? <==> today(tz).value + (WindowDays - 1) <= MaxOrdinal)
            && (r.Ok? ==> r.value.start == today(tz).value)
            && (r.Err? ==> r.error == DateOverflow))
    ensures r.Ok? && (start.None? || end.None?) ==> r.value.end - r.value.start + 1 == WindowDays
  {
    var tz := ResolveTimezone(tzArg, env);
    if start.Some? && end.Some? then Ok(Window(start.value, end.value, tz))
    else if start.Some? then
      // start + timedelta(weeks=5, days=-1): a single step of 34 days
      match AddDays(start.value, WindowDays - 1)
      case Err(_) => Err(DateOverflow)
      case Ok(e) => Ok(Window(start.value, e, tz))
    else if end.Some? then
      // end - timedelta(weeks=5) + timedelta(days=1): two steps
      match AddDays(end.value, -(WindowDays as int))
      case Err(_) => Err(DateOverflow)
      case Ok(back) =>
        match AddDays(back, 1)
        case Err(_) => Err(DateOverflow)
        case Ok(s) => Ok(Window(s, end.value, tz))
    else
      match today(tz)
      case None => Err(UnknownTimezone(tz))
      case Some(t) =>
        match AddDays(t, WindowDays - 1)
        case Err(_) => Err(DateOverflow)
        case Ok(e) => Ok(Window(t, e, tz))
  }

  /** Both dates are passed through even when the start is after the end. */
  lemma InvertedRangeKept(tzArg: Option<string>, env: Option<string>, today: string -> Option<Date>)
    ensures InferRange(Some(10), Some(5), tzArg, env, today).Ok?
    ensures InferRange(Some(10), Some(5), tzArg, env, today).value.start
          > InferRange(Some(10), Some(5), tzArg, env, today).value.end
  {
  }

  /**
   * Extending a start forwards and then the resulting end backwards gives the
   * same window, except from the very first date: going back from its end
   * steps below the first date before the extra day is added.
   */
  lemma InferRangeRoundTrip(s: Date, tzArg: Option<string>, env: Option<string>,
                            today: string -> Option<Date>)
    requires s + (WindowDays - 1) <= MaxOrdinal
    ensures var fwd := InferRange(Some(s), None, tzArg, env, today);
      && fwd.Ok?
      && (InferRange(None, Some(fwd.value.end), tzArg, env, today) == fwd <==> s > MinOrdinal)
  {
    var fwd := InferRange(Some(s), None, tzArg, env, today);
    var back := InferRange(None, Some(fwd.value.end), tzArg, env, today);
    assert fwd.value.end == s + (WindowDays - 1);
    if s > MinOrdinal {
      assert back.Ok?;
      assert back.value.start == s;
    } else {
      assert back.Err?;
    }
  }
}
