/**
 * The extraction adapter `from_gemini_json` of `backend/app/parser.py`: it
 * takes decoded model output (a bare array, or an object holding the array
 * under "classes", "events" or "items"), skips junk rows and rows without
 * usable days, fills defaults and builds validated `EventRow`s.
 */
module Parser {
  import opened Wrappers
  import opened Text
  import opened Deduplication
  import opened Dates
  import opened Weekdays
  import opened TimeFormat
  import opened JsonValues
  import opened Schema
  import opened Days

  // ---------------------------------------------------------------------------
  // Splitting day text on `[,\s/]+`

  /** A character of the separator class `[,\s/]`. */
  predicate IsDaySep(c: char) {
    c == ',' || c == '/' || IsSpace(c)
  }

  predicate NoDaySep(s: string) {
    forall i :: 0 <= i < |s| ==> !IsDaySep(s[i])
  }

  /** Length of the separator-free run at the front of `s`. */
  function WordLength(s: string): (n: nat)
    ensures n <= |s|
    ensures NoDaySep(s[..n])
    ensures n < |s| ==> IsDaySep(s[n])
  {
    if |s| == 0 || IsDaySep(s[0]) then 0
    else
      var n := 1 + WordLength(s[1..]);
      assert s[..n] == [s[0]] + s[1..][..n - 1];
      n
  }

  /**
   * `[t for t in re.split(r"[,\s/]+", s) if t]`: the maximal runs of
   * non-separator characters, in order.
   */
  function DayPieces(s: string): (r: seq<string>)
    ensures forall k :: 0 <= k < |r| ==> |r[k]| > 0 && NoDaySep(r[k])
    decreases |s|
  {
    if |s| == 0 then []
    else if IsDaySep(s[0]) then DayPieces(s[1..])
    else
      var n := WordLength(s);
      [s[..n]] + DayPieces(s[n..])
  }

  /** Runs of separators between and around the pieces do not matter. */
  lemma {:induction false} DayPiecesOfJoin(xs: seq<string>, sep: char)
    requires IsDaySep(sep)
    requires forall k :: 0 <= k < |xs| ==> |xs[k]| > 0 && NoDaySep(xs[k])
    ensures DayPieces(Join(xs, sep)) == xs
    decreases |xs|
  {
    if |xs| == 1 {
      var w := xs[0];
      WordLengthOfPiece(w, "");
      assert w + "" == w;
      assert !IsDaySep(w[0]);
      assert w[..|w|] == w && w[|w|..] == "";
    } else if |xs| > 1 {
      var rest := Join(xs[1..], sep);
      var s := xs[0] + [sep] + rest;
      WordLengthOfPiece(xs[0], [sep] + rest);
      assert s == xs[0] + ([sep] + rest);
      assert s[|xs[0]|..] == [sep] + rest;
      assert ([sep] + rest)[1..] == rest;
      DayPiecesOfJoin(xs[1..], sep);
      assert [xs[0]] + xs[1..] == xs;
    }
  }

  lemma {:induction false} WordLengthOfPiece(w: string, rest: string)
    requires |w| > 0 && NoDaySep(w)
    requires |rest| == 0 || IsDaySep(rest[0])
    ensures WordLength(w + rest) == |w|
    decreases |w|
  {
    var s := w + rest;
    if |w| > 1 {
      assert s[1..] == w[1..] + rest;
      WordLengthOfPiece(w[1..], rest);
    } else {
      assert s[1..] == rest;
    }
  }

  /** `tokens += re.split(...)` for every element of a `days` list, empties dropped. */
  function ListPieces(xs: seq<Json>): (r: seq<string>)
    ensures forall k :: 0 <= k < |r| ==> |r[k]| > 0 && NoDaySep(r[k])
  {
    if |xs| == 0 then [] else DayPieces(PyStr(xs[0])) + ListPieces(xs[1..])
  }

  // ---------------------------------------------------------------------------
  // One row

  /** The `days` value, or `day` when `days` is absent or `None`. */
  function DaysField(item: map<string, Json>): (v: Json)
    ensures Get(item, "days") != JNull ==> v == item["days"]
    ensures Get(item, "days") == JNull ==> v == Get(item, "day")
  {
    var d := Get(item, "days");
    if d == JNull && "day" in item then item["day"] else d
  }

  /** A string is one token; a list is split into pieces; anything else has none. */
  function DayTokens(field: Json): (r: seq<string>)
    ensures field.JString? ==> r == [field.s]
    ensures field.JArray? ==> r == ListPieces(field.items)
    ensures !field.JString? && !field.JArray? ==> r == []
  {
    match field
    case JString(s) => [s]
    case JArray(xs) => ListPieces(xs)
    case _ => []
  }

  /** The exceptions `from_gemini_json` lets escape. */
  datatype AdapterError =
    | NotListOrDict                          // TypeError: input neither list nor dict
    | RowsNotAList                           // TypeError: non-list under classes/events/items
    | TitleNotString                         // AttributeError: `.strip()` on a non-string title
    | InvalidBlock(errors: seq<FieldError>)  // ValidationError from ClassBlock

  /** `termLabel or None`, as the text it renders as. */
  function TermLabelOf(v: Json): (r: Option<string>)
    ensures r.None? <==> !Truthy(v)
    ensures v.JString? && v.s != "" ==> r == Some(v.s)
  {
    if Truthy(v) then Some(PyStr(v)) else None
  }

  /** The days a row lists, already normalised. */
  function RowDays(item: map<string, Json>): seq<Weekday> {
    NormalizeDays(DayTokens(DaysField(item)))
  }

  /** The title and times a row without them gets. */
  const DefaultTitle: string := "Class"
  const DefaultStart: string := "09:00"
  const DefaultEnd: string := "10:00"

  /** `item.get("title") or "Class"`. */
  function TitleField(m: map<string, Json>): Json {
    Or(Get(m, "title"), JString(DefaultTitle))
  }

  /** `item.get("start_time") or "09:00"`. */
  function StartField(m: map<string, Json>): Json {
    Or(Get(m, "start_time"), JString(DefaultStart))
  }

  /** `item.get("end_time") or "10:00"`. */
  function EndField(m: map<string, Json>): Json {
    Or(Get(m, "end_time"), JString(DefaultEnd))
  }

  /** `item.get(key) or None`, for the optional texts. */
  function OptionalField(m: map<string, Json>, key: string): Json {
    Or(Get(m, key), JNull)
  }

  /**
   * What a row built from the object `m` holds: the stripped title, the
   * normalised times and the optional texts the fields (or their defaults)
   * give, and the term label.
   */
  predicate FieldsOf(e: EventRow, m: map<string, Json>) {
    && TitleField(m).JString? && e.title == Strip(TitleField(m).s)
    && Ok(e.startTime) == CheckTimeValue(StartField(m))
    && Ok(e.endTime) == CheckTimeValue(EndField(m))
    && Ok(e.location) == CheckOptional(OptionalField(m, "location"))
    && Ok(e.instructor) == CheckOptional(OptionalField(m, "instructor"))
    && Ok(e.notes) == CheckOptional(OptionalField(m, "notes"))
    && e.termLabel == TermLabelOf(Get(m, "termLabel"))
  }

  /** The field checks `ClassBlock` makes on the object `m` all pass. */
  predicate FieldsValid(m: map<string, Json>) {
    && CheckTimeValue(StartField(m)).Ok? && CheckTimeValue(EndField(m)).Ok?
    && CheckOptional(OptionalField(m, "location")).Ok?
    && CheckOptional(OptionalField(m, "instructor")).Ok?
    && CheckOptional(OptionalField(m, "notes")).Ok?
  }

  /**
   * One element of the row list: non-objects and rows without days are
   * skipped (`None`); otherwise the title, times and optional fields get
   * their defaults and the `ClassBlock` is validated and converted.
   */
  function ParseItem(item: Json): (r: Result<Option<EventRow>, AdapterError>)
    ensures !item.JObject? ==> r == Ok(None)
    ensures item.JObject? && RowDays(item.fields) == [] ==> r == Ok(None)
    ensures r.Ok? && r.value.Some? ==>
      && item.JObject?
      && ValidEventRow(r.value.value)
      && |r.value.value.days| == |RowDays(item.fields)| > 0
      && (forall k :: 0 <= k < |r.value.value.days| ==>
            r.value.value.days[k] == DayCodes[RowDays(item.fields)[k]])
      && r.value.value.startDate.None? && r.value.value.endDate.None?
      && r.value.value.termLabel == TermLabelOf(Get(item.fields, "termLabel"))
      && FieldsOf(r.value.value, item.fields)
    ensures item.JObject? && RowDays(item.fields) != [] ==>
      (r.Ok? <==> TitleField(item.fields).JString? && FieldsValid(item.fields)) && (r.Ok? ==> r.value.Some?)
  {
    if !item.JObject? then Ok(None)
    else
      var days := RowDays(item.fields);
      if days == [] then Ok(None)
      else
        var r := BuildRow(item.fields, days);
        if r.Ok? then Ok(Some(r.value)) else Err(r.error)
  }

  /**
   * The event of an object row with the given (non-empty, distinct) days:
   * the title, times and optional fields get their defaults and the
   * `ClassBlock` is validated and converted.
   */
  function BuildRow(m: map<string, Json>, days: seq<Weekday>): (r: Result<EventRow, AdapterError>)
    requires Distinct(days)
    ensures r.Ok? ==>
      && ValidEventRow(r.value)
      && |r.value.days| == |days|
      && (forall k :: 0 <= k < |days| ==> r.value.days[k] == DayCodes[days[k]])
      && r.value.startDate.None? && r.value.endDate.None?
      && r.value.termLabel == TermLabelOf(Get(m, "termLabel"))
    ensures Truthy(Get(m, "title")) && !Get(m, "title").JString? ==> r == Err(TitleNotString)
    ensures r.Ok? ==> FieldsOf(r.value, m)
    ensures r.Ok? <==> TitleField(m).JString? && FieldsValid(m)
    ensures TitleField(m).JString? && !FieldsValid(m) ==> r.Err? && r.error.InvalidBlock?
  {
    var title := TitleField(m);
    if !title.JString? then Err(TitleNotString)
    else
      match Convert(Strip(title.s), days, StartField(m), EndField(m), OptionalField(m, "location"),
                    OptionalField(m, "instructor"), OptionalField(m, "notes"))
      case Err(es) => Err(InvalidBlock(es))
      case Ok(e) => Ok(e.(termLabel := TermLabelOf(Get(m, "termLabel"))))
  }

  /** `ClassBlock(...).to_event()`: validation, then conversion, which cannot fail. */
  function Convert(title: string, days: seq<Weekday>, startTime: Json, endTime: Json,
                   location: Json, instructor: Json, notes: Json)
    : (r: Result<EventRow, seq<FieldError>>)
    requires Distinct(days)
    ensures r.Ok? <==> MakeClassBlock(title, days, startTime, endTime, location, instructor, notes).Ok?
    ensures r.Ok? ==>
      && ValidEventRow(r.value)
      && |r.value.days| == |days|
      && (forall k :: 0 <= k < |days| ==> r.value.days[k] == DayCodes[days[k]])
      && r.value.startDate.None? && r.value.endDate.None? && r.value.termLabel.None?
    ensures r.Ok? ==>
      && r.value.title == title
      && Ok(r.value.startTime) == CheckTimeValue(startTime) && Ok(r.value.endTime) == CheckTimeValue(endTime)
      && Ok(r.value.location) == CheckOptional(location) && Ok(r.value.instructor) == CheckOptional(instructor)
      && Ok(r.value.notes) == CheckOptional(notes)
  {
    match MakeClassBlock(title, days, startTime, endTime, location, instructor, notes)
    case Err(es) => Err(es)
    case Ok(b) =>
      ToEventTotal(b);
      ToEvent(b)
  }

  // ---------------------------------------------------------------------------
  // The whole input

  /**
   * The row list: a list as it is; for an object the first truthy of
   * "classes", "events", "items", else the empty list.
   */
  function ExtractRows(data: Json): (r: Result<seq<Json>, AdapterError>)
    ensures data.JArray? ==> r == Ok(data.items)
    ensures !data.JArray? && !data.JObject? ==> r == Err(NotListOrDict)
    ensures data.JObject? ==>
      var raw := Or(Get(data.fields, "classes"), Or(Get(data.fields, "events"),
                    Or(Get(data.fields, "items"), JArray([]))));
      r == (if raw.JArray? then Ok(raw.items) else Err(RowsNotAList))
  {
    match data
    case JArray(xs) => Ok(xs)
    case JObject(m) =>
      var raw := Or(Get(m, "classes"), Or(Get(m, "events"), Or(Get(m, "items"), JArray([]))));
      if raw.JArray? then Ok(raw.items) else Err(RowsNotAList)
    case _ => Err(NotListOrDict)
  }

  /** The payloads of the kept rows, in row order. */
  function Somes<T, E>(results: seq<Result<Option<T>, E>>): (xs: seq<T>)
    decreases |results|
  {
    if results == [] then []
    else (if results[0].Ok? && results[0].value.Some? then [results[0].value.value] else []) + Somes(results[1..])
  }

  /** When every row is kept, the payloads are the rows' own, one for one. */
  lemma {:induction false} SomesOfKept<T, E>(results: seq<Result<Option<T>, E>>)
    requires forall k :: 0 <= k < |results| ==> results[k].Ok? && results[k].value.Some?
    ensures |Somes(results)| == |results|
    ensures forall k :: 0 <= k < |results| ==> Somes(results)[k] == results[k].value.value
    decreases |results|
  {
    if results != [] {
      SomesOfKept(results[1..]);
      forall k | 0 < k < |results| ensures Somes(results)[k] == results[k].value.value {
        assert results[k] == results[1..][k - 1];
      }
    }
  }

  /**
   * The loop of `from_gemini_json` over per-row outcomes: skipped rows
   * contribute nothing, and the first failing row aborts the batch.
   */
  function Collect<T, E>(results: seq<Result<Option<T>, E>>): (r: Result<seq<T>, E>)
    ensures r.Ok? <==> forall k :: 0 <= k < |results| ==> results[k].Ok?
    ensures r.Err? ==> exists k :: (0 <= k < |results| && results[k] == Err(r.error) &&
      forall j :: 0 <= j < k ==> results[j].Ok?)
    ensures r.Ok? ==> |r.value| <= |results|
    ensures r.Ok? ==> forall i :: 0 <= i < |r.value| ==>
      exists k :: 0 <= k < |results| && results[k] == Ok(Some(r.value[i]))
    ensures r.Ok? ==> r.value == Somes(results)
  {
    if |results| == 0 then Ok([])
    else
      var rest := Collect(results[1..]);
      assert forall k :: 0 < k < |results| ==> results[k] == results[1..][k - 1];
      match results[0]
      case Err(e) => Err(e)
      case Ok(o) =>
        match rest
        case Err(e) => Err(e)
        case Ok(xs) =>
          if o.Some? then
            assert forall i :: 0 < i < |xs| + 1 ==> ([o.value] + xs)[i] == xs[i - 1];
            Ok([o.value] + xs)
          else Ok(xs)
  }

  /** A skipped row anywhere changes nothing. */
  lemma {:induction false} CollectSkipsNone<T, E>(before: seq<Result<Option<T>, E>>, after: seq<Result<Option<T>, E>>)
    ensures Collect(before + [Ok(None)] + after) == Collect(before + after)
    decreases |before|
  {
    if |before| == 0 {
      assert before + [Ok(None)] + after == [Ok(None)] + after;
      assert ([Ok(None)] + after)[1..] == after;
      assert before + after == after;
    } else {
      CollectSkipsNone(before[1..], after);
      assert (before + [Ok(None)] + after)[1..] == before[1..] + [Ok(None)] + after;
      assert (before + after)[1..] == before[1..] + after;
      assert (before + [Ok(None)] + after)[0] == before[0] == (before + after)[0];
    }
  }

  /** The outcome of every row. */
  function RowResults(rows: seq<Json>): (r: seq<Result<Option<EventRow>, AdapterError>>)
    ensures |r| == |rows|
    ensures forall k :: 0 <= k < |rows| ==> r[k] == ParseItem(rows[k])
  {
    seq(|rows|, k requires 0 <= k < |rows| => ParseItem(rows[k]))
  }

  /** The events of the rows, in order; the first failing row aborts all. */
  function ParseRows(rows: seq<Json>): (r: Result<seq<EventRow>, AdapterError>)
    ensures r.Ok? <==> forall k :: 0 <= k < |rows| ==> ParseItem(rows[k]).Ok?
    ensures r.Err? ==> exists k :: (0 <= k < |rows| && ParseItem(rows[k]) == Err(r.error) &&
      forall j :: 0 <= j < k ==> ParseItem(rows[j]).Ok?)
    ensures r.Ok? ==> |r.value| <= |rows|
    ensures r.Ok? ==> forall k :: 0 <= k < |r.value| ==> ValidEventRow(r.value[k]) && |r.value[k].days| > 0
    ensures r.Ok? ==> r.value == Somes(RowResults(rows))
  {
    var r := Collect(RowResults(rows));
    CollectedRowsValid(rows, r);
    r
  }

  lemma CollectedRowsValid(rows: seq<Json>, r: Result<seq<EventRow>, AdapterError>)
    requires r == Collect(RowResults(rows))
    ensures r.Ok? ==> forall k :: 0 <= k < |r.value| ==> ValidEventRow(r.value[k]) && |r.value[k].days| > 0
  {
    var results := RowResults(rows);
    forall k | 0 <= k < |results| && results[k].Ok? && results[k].value.Some?
      ensures ValidEventRow(results[k].value.value) && |results[k].value.value.days| > 0
    {
      KeptRowValid(rows[k], results[k].value.value);
    }
    CollectedValid(results);
  }

  /** Collecting rows that are all valid with days keeps only such rows. */
  lemma CollectedValid(results: seq<Result<Option<EventRow>, AdapterError>>)
    requires forall k :: 0 <= k < |results| && results[k].Ok? && results[k].value.Some? ==>
      ValidEventRow(results[k].value.value) && |results[k].value.value.days| > 0
    ensures Collect(results).Ok? ==> forall i :: 0 <= i < |Collect(results).value| ==>
      ValidEventRow(Collect(results).value[i]) && |Collect(results).value[i].days| > 0
  {
    var r := Collect(results);
    if r.Ok? {
      forall i | 0 <= i < |r.value| ensures ValidEventRow(r.value[i]) && |r.value[i].days| > 0 {
        var k :| 0 <= k < |results| && results[k] == Ok(Some(r.value[i]));
      }
    }
  }

  /** A kept row is a valid event with days. */
  lemma KeptRowValid(item: Json, e: EventRow)
    requires ParseItem(item) == Ok(Some(e))
    ensures ValidEventRow(e) && |e.days| > 0
  {
  }

  /** `from_gemini_json`. */
  function FromGeminiJson(data: Json): (r: Result<seq<EventRow>, AdapterError>)
    ensures r.Ok? ==> ExtractRows(data).Ok? && |r.value| <= |ExtractRows(data).value|
    ensures r.Ok? ==> forall k :: 0 <= k < |r.value| ==> ValidEventRow(r.value[k]) && |r.value[k].days| > 0
    ensures ExtractRows(data).Err? ==> r == Err(ExtractRows(data).error)
    ensures ExtractRows(data).Ok? ==> r == ParseRows(ExtractRows(data).value)
  {
    match ExtractRows(data)
    case Err(e) => Err(e)
    case Ok(rows) => ParseRows(rows)
  }

  /**
   * When every row is an object with days whose fields all validate, every
   * row becomes one event, in row order, with that row's days and fields.
   */
  lemma ParseRowsKeepsEveryRow(rows: seq<Json>)
    requires forall k :: 0 <= k < |rows| ==>
      && rows[k].JObject? && RowDays(rows[k].fields) != []
      && TitleField(rows[k].fields).JString? && FieldsValid(rows[k].fields)
    ensures ParseRows(rows).Ok?
    ensures |ParseRows(rows).value| == |rows|
    ensures forall k :: 0 <= k < |rows| ==>
      && FieldsOf(ParseRows(rows).value[k], rows[k].fields)
      && |ParseRows(rows).value[k].days| == |RowDays(rows[k].fields)|
      && (forall i :: 0 <= i < |RowDays(rows[k].fields)| ==>
            ParseRows(rows).value[k].days[i] == DayCodes[RowDays(rows[k].fields)[i]])
  {
    var results := RowResults(rows);
    forall k | 0 <= k < |results| ensures results[k].Ok? && results[k].value.Some? {
      assert results[k] == ParseItem(rows[k]);
    }
    SomesOfKept(results);
  }

  // ---------------------------------------------------------------------------
  // Properties

  /** A junk row anywhere in the list changes nothing. */
  lemma JunkRowIgnored(before: seq<Json>, junk: Json, after: seq<Json>)
    requires !junk.JObject?
    ensures ParseRows(before + [junk] + after) == ParseRows(before + after)
  {
    RowResultsAppend(before + [junk], after);
    RowResultsAppend(before, [junk]);
    assert RowResults([junk]) == [Ok(None)];
    RowResultsAppend(before, after);
    CollectSkipsNone(RowResults(before), RowResults(after));
  }

  lemma RowResultsAppend(a: seq<Json>, b: seq<Json>)
    ensures RowResults(a + b) == RowResults(a) + RowResults(b)
  {
    var l, r := RowResults(a + b), RowResults(a) + RowResults(b);
    forall k | 0 <= k < |l| ensures l[k] == r[k] {
      if k < |a| {
        assert (a + b)[k] == a[k];
      } else {
        assert (a + b)[k] == b[k - |a|];
      }
    }
  }

  lemma ExpectedDefaultStart()
    ensures Expected(Reading("09", true, "00", "", NoMeridiem)) == Ok("09:00")
  {
    assert DecimalValue("09") == 9 && DecimalValue("00") == 0;
    assert FormatHHMM(9, 0) == "09:00";
  }

  lemma ExpectedDefaultEnd()
    ensures Expected(Reading("10", true, "00", "", NoMeridiem)) == Ok("10:00")
  {
    assert DecimalValue("10") == 10 && DecimalValue("00") == 0;
    assert FormatHHMM(10, 0) == "10:00";
  }

  /** The default start time is already canonical. */
  lemma DefaultStartCanonical()
    ensures NormalizeTime(DefaultStart) == Ok(DefaultStart)
  {
    var t := Reading("09", true, "00", "", NoMeridiem);
    assert ReadingText(t) == "09:00";
    ExpectedDefaultStart();
    NormalizeSpelled("09:00", t, Ok("09:00"));
  }

  /** The default end time is already canonical. */
  lemma DefaultEndCanonical()
    ensures NormalizeTime(DefaultEnd) == Ok(DefaultEnd)
  {
    var t := Reading("10", true, "00", "", NoMeridiem);
    assert ReadingText(t) == "10:00";
    ExpectedDefaultEnd();
    NormalizeSpelled("10:00", t, Ok("10:00"));
  }

  /**
   * A row whose title, times, optional fields and term label are missing or
   * falsy gets the title "Class", the times 09:00 and 10:00, and no
   * location, instructor, notes or term.
   */
  lemma ParseItemDefaults(m: map<string, Json>)
    requires RowDays(m) != []
    requires !Truthy(Get(m, "title")) && !Truthy(Get(m, "start_time")) && !Truthy(Get(m, "end_time"))
    requires !Truthy(Get(m, "location")) && !Truthy(Get(m, "instructor")) && !Truthy(Get(m, "notes"))
    requires !Truthy(Get(m, "termLabel"))
    ensures ParseItem(JObject(m)).Ok? && ParseItem(JObject(m)).value.Some?
    ensures var e := ParseItem(JObject(m)).value.value;
      && e.title == DefaultTitle && e.startTime == DefaultStart && e.endTime == DefaultEnd
      && e.location.None? && e.instructor.None? && e.notes.None? && e.termLabel.None?
  {
    var days := RowDays(m);
    BuildRowDefaults(m, days);
    assert ParseItem(JObject(m)) == Ok(Some(BuildRow(m, days).value));
  }

  /** `BuildRow` on a row with every field at its default. */
  lemma BuildRowDefaults(m: map<string, Json>, days: seq<Weekday>)
    requires Distinct(days)
    requires !Truthy(Get(m, "title")) && !Truthy(Get(m, "start_time")) && !Truthy(Get(m, "end_time"))
    requires !Truthy(Get(m, "location")) && !Truthy(Get(m, "instructor")) && !Truthy(Get(m, "notes"))
    requires !Truthy(Get(m, "termLabel"))
    ensures var r := BuildRow(m, days);
      && r.Ok? && r.value.title == DefaultTitle && r.value.startTime == DefaultStart && r.value.endTime == DefaultEnd
      && r.value.location.None? && r.value.instructor.None? && r.value.notes.None? && r.value.termLabel.None?
  {
    DefaultTitleStripped(m);
    DefaultFieldsBlock(m, days);
    DefaultEvent(days);
    assert TermLabelOf(Get(m, "termLabel")) == None;
  }

  /** A falsy title becomes "Class", which stripping leaves alone. */
  lemma DefaultTitleStripped(m: map<string, Json>)
    requires !Truthy(Get(m, "title"))
    ensures Or(Get(m, "title"), JString(DefaultTitle)) == JString(DefaultTitle)
    ensures Strip(DefaultTitle) == DefaultTitle
  {
    StripOfTrimmed(DefaultTitle);
  }

  /** The block `BuildRow` makes from a row whose fields are all falsy. */
  lemma DefaultFieldsBlock(m: map<string, Json>, days: seq<Weekday>)
    requires !Truthy(Get(m, "start_time")) && !Truthy(Get(m, "end_time"))
    requires !Truthy(Get(m, "location")) && !Truthy(Get(m, "instructor")) && !Truthy(Get(m, "notes"))
    ensures MakeClassBlock(DefaultTitle, days, Or(Get(m, "start_time"), JString(DefaultStart)),
                           Or(Get(m, "end_time"), JString(DefaultEnd)),
                           Or(Get(m, "location"), JNull),
                           Or(Get(m, "instructor"), JNull),
                           Or(Get(m, "notes"), JNull))
         == Ok(ClassBlock(DefaultTitle, days, DefaultStart, DefaultEnd, None, None, None))
  {
    DefaultBlock(days);
  }

  /** The event converted from the default block. */
  lemma DefaultEvent(days: seq<Weekday>)
    requires Distinct(days)
    ensures var r := ToEvent(ClassBlock(DefaultTitle, days, DefaultStart, DefaultEnd, None, None, None));
      && r.Ok? && r.value.title == DefaultTitle && r.value.startTime == DefaultStart && r.value.endTime == DefaultEnd
      && r.value.location.None? && r.value.instructor.None? && r.value.notes.None?
  {
    DefaultStartCanonical();
    DefaultEndCanonical();
    PlainBlockEvent(DefaultTitle, days, DefaultStart, DefaultEnd);
  }

  /** A block with canonical times and no optional texts converts with its fields kept. */
  lemma PlainBlockEvent(title: string, days: seq<Weekday>, startTime: string, endTime: string)
    requires Distinct(days) && IsHHMM(startTime) && IsHHMM(endTime)
    ensures var r := ToEvent(ClassBlock(title, days, startTime, endTime, None, None, None));
      && r.Ok? && r.value.title == title && r.value.startTime == startTime && r.value.endTime == endTime
      && r.value.location.None? && r.value.instructor.None? && r.value.notes.None?
  {
    ToEventTotal(ClassBlock(title, days, startTime, endTime, None, None, None));
  }

  /** The block built from the defaults alone. */
  lemma DefaultBlock(days: seq<int>)
    ensures MakeClassBlock(DefaultTitle, days, JString(DefaultStart), JString(DefaultEnd), JNull, JNull, JNull)
         == Ok(ClassBlock(DefaultTitle, days, DefaultStart, DefaultEnd, None, None, None))
  {
    DefaultStartCanonical();
    DefaultEndCanonical();
  }

  /** A bad row anywhere aborts the whole batch. */
  lemma BadRowAbortsBatch(rows: seq<Json>, k: nat)
    requires k < |rows| && ParseItem(rows[k]).Err?
    ensures ParseRows(rows).Err?
  {
  }

  /** A bare list and the same list under "events" are read alike. */
  lemma WrappedListSameRows(rows: seq<Json>)
    requires rows != []
    ensures FromGeminiJson(JObject(map["events" := JArray(rows)])) == FromGeminiJson(JArray(rows))
    ensures FromGeminiJson(JObject(map["classes" := JArray(rows)])) == FromGeminiJson(JArray(rows))
  {
    WrappedRows("events", rows);
    WrappedRows("classes", rows);
  }

  lemma WrappedRows(key: string, rows: seq<Json>)
    requires key == "events" || key == "classes"
    requires rows != []
    ensures ExtractRows(JObject(map[key := JArray(rows)])) == Ok(rows)
  {
    var m := map[key := JArray(rows)];
    assert Truthy(Get(m, key));
    if key == "events" {
      assert Get(m, "classes") == JNull;
    }
  }
}
