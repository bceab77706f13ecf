/**
 * `build_google_event` of `backend/app/google.py`: an event row, as the
 * JSON object the frontend holds, becomes the body of a Google Calendar
 * `events.insert` request with one weekly recurrence rule.
 *
 * The rule is the text of an RRULE property of section 3.3.10 of RFC 5545;
 * its UNTIL value is written in the UTC form of section 3.3.5.
 */
module Google {
  import opened Wrappers
  import opened Text
  import opened JsonValues
  import opened TimeFormat

  /** The exceptions `build_google_event` can raise. */
  datatype GoogleError =
    | TypeError               // `",".join` of something that is not strings
    | KeyError(key: string)   // a required key is absent
    | AttributeError          // `end_date` has no `replace`: it is not a string

  /** A `{"dateTime": …, "timeZone": …}` object. */
  datatype EventTime = EventTime(dateTime: string, timeZone: string)

  /** The request body. */
  datatype GoogleEvent = GoogleEvent(
    summary: Json,
    location: Json,
    description: Json,
    start: EventTime,
    end: EventTime,
    recurrence: seq<string>)

  // ---------------------------------------------------------------------------
  // BYDAY

  /** Every item is a string. */
  predicate AllStrings(xs: seq<Json>) {
    forall i :: 0 <= i < |xs| ==> xs[i].JString?
  }

  /**
   * What iterating the `days` value yields: the items of a list of strings,
   * or the characters of a string. Anything else is not joinable.
   */
  function DayPieces(v: Json): (r: Option<seq<string>>)
    ensures r.Some? <==> v.JString? || (v.JArray? && AllStrings(v.items))
    ensures v.JArray? && r.Some? ==>
      |r.value| == |v.items| && forall i :: 0 <= i < |v.items| ==> r.value[i] == v.items[i].s
    ensures v.JString? ==> |r.value| == |v.s| && forall i :: 0 <= i < |v.s| ==> r.value[i] == [v.s[i]]
  {
    match v
    case JString(s) => Some(seq(|s|, i requires 0 <= i < |s| => [s[i]]))
    case JArray(xs) =>
      if AllStrings(xs) then Some(seq(|xs|, i requires 0 <= i < |xs| => xs[i].s)) else None
    case _ => None
  }

  /** `",".join(ev.get("days", []))`. */
  function ByDay(ev: map<string, Json>): (r: Result<string, GoogleError>)
    ensures "days" !in ev ==> r == Ok("")
    ensures r.Ok? <==> "days" !in ev || DayPieces(ev["days"]).Some?
    ensures r.Err? ==> r.error == TypeError
  {
    var days := if "days" in ev then ev["days"] else JArray([]);
    match DayPieces(days)
    case None => Err(TypeError)
    case Some(pieces) => Ok(Join(pieces, ','))
  }

  /** The day codes come back from BYDAY when none of them holds a comma. */
  lemma ByDayRoundTrip(ev: map<string, Json>, codes: seq<string>)
    requires "days" in ev && ev["days"] == JArray(seq(|codes|, i requires 0 <= i < |codes| => JString(codes[i])))
    requires |codes| >= 1 && forall k :: 0 <= k < |codes| ==> ',' !in codes[k]
    ensures ByDay(ev) == Ok(Join(codes, ','))
    ensures Split(ByDay(ev).value, ',') == codes
  {
    var pieces := DayPieces(ev["days"]).value;
    assert pieces == codes;
    SplitJoin(codes, ',');
  }

  // ---------------------------------------------------------------------------
  // Date-times and UNTIL

  /** An ISO date `YYYY-MM-DD` as text. */
  predicate IsIsoDate(s: string) {
    && |s| == 10
    && AllDigits(s[..4]) && s[4] == '-' && AllDigits(s[5..7]) && s[7] == '-' && AllDigits(s[8..])
  }

  /** `f"{date}T{time}:00"`: a local date-time without an offset. */
  function DateTime(date: Json, time: Json): string {
    PyStr(date) + "T" + PyStr(time) + ":00"
  }

  /**
   * An ISO date and an `HH:MM` time give the 19-character local date-time of
   * RFC 3339, `YYYY-MM-DDTHH:MM:00`, from which both parts read back.
   */
  lemma DateTimeShape(date: string, time: string)
    requires IsIsoDate(date) && IsHHMM(time)
    ensures var dt := DateTime(JString(date), JString(time));
      && |dt| == 19 && dt[..10] == date && dt[10] == 'T' && dt[11..16] == time && dt[16..] == ":00"
  {
    var dt := DateTime(JString(date), JString(time));
    assert dt == date + "T" + time + ":00";
  }

  /** The end of the day as a UTC time, appended to the UNTIL date. */
  const EndOfDayUtc: string := "T235959Z"

  /** `end_date.replace("-", "") + "T235959Z"`. */
  function UntilStamp(endDate: string): string {
    RemoveChar(endDate, '-') + EndOfDayUtc
  }

  /** Removing a character that `a` lacks from `a + [c] + b` keeps `a` and cleans `b`. */
  lemma RemoveCharAfter(a: string, c: char, b: string)
    requires c !in a
    ensures RemoveChar(a + [c] + b, c) == a + RemoveChar(b, c)
    decreases |a|
  {
    if |a| > 0 {
      assert (a + [c] + b)[0] == a[0];
      assert (a + [c] + b)[1..] == a[1..] + [c] + b;
      RemoveCharAfter(a[1..], c, b);
      assert [a[0]] + a[1..] == a;
    } else {
      assert a + [c] + b == [c] + b;
      assert ([c] + b)[1..] == b;
    }
  }

  /** Dashes away: an ISO date gives the `YYYYMMDD` UTC stamp of RFC 5545. */
  lemma UntilStampOfIsoDate(d: string)
    requires IsIsoDate(d)
    ensures UntilStamp(d) == d[..4] + d[5..7] + d[8..] + EndOfDayUtc
  {
    NoDashInDigits(d[..4]);
    NoDashInDigits(d[5..7]);
    NoDashInDigits(d[8..]);
    assert d[4..] == ['-'] + d[5..];
    assert d[5..] == d[5..7] + ['-'] + d[8..];
    assert d == d[..4] + ['-'] + d[5..];
    RemoveCharAfter(d[..4], '-', d[5..]);
    RemoveCharAfter(d[5..7], '-', d[8..]);
  }

  lemma NoDashInDigits(s: string)
    requires AllDigits(s)
    ensures '-' !in s
  {
  }

  // ---------------------------------------------------------------------------
  // The recurrence rule

  /** `prefix + a + sep + word + b`: a template with two holes. */
  function Fill(prefix: string, a: string, sep: char, word: string, b: string): string {
    prefix + a + [sep] + word + b
  }

  /**
   * Reads the holes of `Fill` back; the first hole ends at the first
   * separator.
   */
  function Unfill(text: string, prefix: string, sep: char, word: string): (r: Option<(string, string)>)
    ensures r.Some? ==> text == Fill(prefix, r.value.0, sep, word, r.value.1) && sep !in r.value.0
  {
    if |text| < |prefix| || text[..|prefix|] != prefix then None
    else
      var rest := text[|prefix|..];
      var i := Find(rest, sep);
      if i == -1 then None
      else
        var tail := rest[i + 1..];
        if |tail| < |word| || tail[..|word|] != word then None
        else
          UnfillShape(text, prefix, sep, word, i);
          Some((rest[..i], tail[|word|..]))
  }

  /** The pieces `Unfill` cuts out fill the template back to the text. */
  lemma UnfillShape(text: string, prefix: string, sep: char, word: string, i: nat)
    requires |prefix| <= |text| && text[..|prefix|] == prefix
    requires i < |text[|prefix|..]| && text[|prefix|..][i] == sep
    requires |word| <= |text[|prefix|..][i + 1..]| && text[|prefix|..][i + 1..][..|word|] == word
    ensures var rest := text[|prefix|..];
      text == Fill(prefix, rest[..i], sep, word, rest[i + 1..][|word|..])
  {
    var rest := text[|prefix|..];
    var tail := rest[i + 1..];
    assert tail == word + tail[|word|..];
    assert rest == rest[..i] + [sep] + tail;
    assert text == prefix + rest;
  }

  /** A filled template reads back as its holes when the first lacks the separator. */
  lemma UnfillFill(prefix: string, a: string, sep: char, word: string, b: string)
    requires sep !in a
    ensures Unfill(Fill(prefix, a, sep, word, b), prefix, sep, word) == Some((a, b))
  {
    var text := Fill(prefix, a, sep, word, b);
    assert text == prefix + (a + [sep] + (word + b));
    assert text[..|prefix|] == prefix;
    var rest := text[|prefix|..];
    assert rest == a + [sep] + (word + b);
    FindAfterPrefix(a, sep, word + b);
    assert rest[..|a|] == a;
    var tail := rest[|a| + 1..];
    assert tail == word + b;
    assert tail[..|word|] == word;
    assert tail[|word|..] == b;
  }

  const RulePrefix: string := "RRULE:FREQ=WEEKLY;BYDAY="
  const UntilWord: string := "UNTIL="

  /** `f"RRULE:FREQ=WEEKLY;BYDAY={byday};UNTIL={until}"`. */
  function RRule(byday: string, until: string): string {
    Fill(RulePrefix, byday, ';', UntilWord, until)
  }

  /** Reads a weekly rule back into its BYDAY and UNTIL values. */
  function ParseRRule(rule: string): (r: Option<(string, string)>)
    ensures r.Some? ==> rule == RRule(r.value.0, r.value.1) && ';' !in r.value.0
  {
    Unfill(rule, RulePrefix, ';', UntilWord)
  }

  /** A rule reads back as the values it was written from. */
  lemma ParseRRuleRoundTrip(byday: string, until: string)
    requires ';' !in byday
    ensures ParseRRule(RRule(byday, until)) == Some((byday, until))
  {
    UnfillFill(RulePrefix, byday, ';', UntilWord, until);
  }

  // ---------------------------------------------------------------------------
  // The event body

  /**
   * `build_google_event`. Python evaluates the body in order, so the first
   * failing step decides the exception: the days, then `start_date`,
   * `start_time`, `end_time` and `end_date`, then the `replace` call.
   */
  function BuildGoogleEvent(ev: map<string, Json>, timezone: string): (r: Result<GoogleEvent, GoogleError>)
    ensures r.Ok? <==> ByDay(ev).Ok? && "start_date" in ev && "start_time" in ev && "end_time" in ev
                       && "end_date" in ev && ev["end_date"].JString?
    ensures ByDay(ev).Err? ==> r == Err(TypeError)
    ensures ByDay(ev).Ok? && "start_date" !in ev ==> r == Err(KeyError("start_date"))
    ensures ByDay(ev).Ok? && "start_date" in ev && "start_time" !in ev ==> r == Err(KeyError("start_time"))
    ensures ByDay(ev).Ok? && "start_date" in ev && "start_time" in ev && "end_time" !in ev
      ==> r == Err(KeyError("end_time"))
    ensures ByDay(ev).Ok? && "start_date" in ev && "start_time" in ev && "end_time" in ev && "end_date" !in ev
      ==> r == Err(KeyError("end_date"))
    ensures r.Err? && "start_date" in ev && "start_time" in ev && "end_time" in ev && "end_date" in ev
      ==> r.error == TypeError || r.error == AttributeError
    ensures r.Ok? ==>
      && r.value.summary == (if "title" in ev then ev["title"] else JString("Class"))
      && (Truthy(r.value.location) <==> Truthy(Get(ev, "location")))
      && (Truthy(r.value.description) <==> Truthy(Get(ev, "notes")))
      && r.value.location == (if Truthy(Get(ev, "location")) then Get(ev, "location") else JNull)
      && r.value.description == (if Truthy(Get(ev, "notes")) then Get(ev, "notes") else JNull)
      && r.value.start == EventTime(DateTime(ev["start_date"], ev["start_time"]), timezone)
      && r.value.end == EventTime(DateTime(ev["start_date"], ev["end_time"]), timezone)
      && r.value.recurrence == [RRule(ByDay(ev).value, UntilStamp(ev["end_date"].s))]
  {
    match ByDay(ev)
    case Err(e) => Err(e)
    case Ok(byday) =>
      if "start_date" !in ev then Err(KeyError("start_date"))
      else if "start_time" !in ev then Err(KeyError("start_time"))
      else if "end_time" !in ev then Err(KeyError("end_time"))
      else if "end_date" !in ev then Err(KeyError("end_date"))
      else if !ev["end_date"].JString? then Err(AttributeError)
      else
        Ok(GoogleEvent(
          if "title" in ev then ev["title"] else JString("Class"),
          Or(Get(ev, "location"), JNull),
          Or(Get(ev, "notes"), JNull),
          EventTime(DateTime(ev["start_date"], ev["start_time"]), timezone),
          EventTime(DateTime(ev["start_date"], ev["end_time"]), timezone),
          [RRule(byday, UntilStamp(ev["end_date"].s))]))
  }

  /**
   * The rule of a built event reads back as the joined day codes and the
   * end date's stamp, and the codes split back out of it.
   */
  lemma GoogleRuleRoundTrip(ev: map<string, Json>, timezone: string, codes: seq<string>)
    requires "days" in ev && ev["days"] == JArray(seq(|codes|, i requires 0 <= i < |codes| => JString(codes[i])))
    requires |codes| >= 1 && forall k :: 0 <= k < |codes| ==> ',' !in codes[k] && ';' !in codes[k]
    requires "start_date" in ev && "start_time" in ev && "end_time" in ev
    requires "end_date" in ev && ev["end_date"].JString?
    ensures BuildGoogleEvent(ev, timezone).Ok?
    ensures var rule := BuildGoogleEvent(ev, timezone).value.recurrence[0];
      && ParseRRule(rule).Some?
      && Split(ParseRRule(rule).value.0, ',') == codes
      && ParseRRule(rule).value.1 == UntilStamp(ev["end_date"].s)
  {
    ByDayRoundTrip(ev, codes);
    var byday := ByDay(ev).value;
    assert byday == Join(codes, ',');
    JoinKeeps(codes, ',', ';');
    ParseRRuleRoundTrip(byday, UntilStamp(ev["end_date"].s));
  }

  /** Joining with a separator other than `c` adds no `c`. */
  lemma {:induction false} JoinKeeps(xs: seq<string>, sep: char, c: char)
    requires sep != c
    requires forall k :: 0 <= k < |xs| ==> c !in xs[k]
    ensures c !in Join(xs, sep)
    decreases |xs|
  {
    if |xs| > 1 {
      JoinKeeps(xs[1..], sep, c);
    }
  }
}
