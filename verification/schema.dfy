/**
 * The event model of `backend/app/schema.py`: the canonical `EventRow` with
 * its field validators, and the intermediate `ClassBlock` the extraction
 * adapter builds before converting it into an `EventRow`.
 *
 * Validation errors are collected per field in declaration order, as the
 * validation library reports them.
 */
module Schema {
  import opened Wrappers
  import opened Text
  import opened Deduplication
  import opened Dates
  import opened Weekdays
  import opened TimeFormat
  import opened JsonValues

  // ---------------------------------------------------------------------------
  // Day codes

  /** The shapes the `days` field accepts before `_ensure_list` runs. */
  datatype DaysInput = NoDays | OneDay(day: string) | DayList(list: seq<string>)

  /** `_ensure_list`: no value is no days, a single string is a one-element list. */
  function EnsureList(v: DaysInput): seq<string> {
    match v
    case NoDays => []
    case OneDay(s) => [s]
    case DayList(xs) => xs
  }

  /**
   * One raw token of `_normalize_codes`: stripped; blank is dropped; its
   * upper-case form is kept when it is a day code; otherwise its lower-case
   * form is looked up as an alias; anything else is dropped.
   */
  function TokenCode(raw: string): (r: Option<string>)
    ensures r.Some? ==> IsDayCode(r.value)
    ensures Strip(raw) == "" ==> r.None?
  {
    var token := Strip(raw);
    if token == "" then None
    else if IsDayCode(Upper(token)) then Some(Upper(token))
    else match AliasIndex(Lower(token))
      case Some(i) => Some(DayCodes[i])
      case None => None
  }

  /** Distinct day codes: the form `_normalize_codes` produces. */
  predicate ValidDays(days: seq<string>) {
    && (forall k :: 0 <= k < |days| ==> IsDayCode(days[k]))
    && Distinct(days)
  }

  /** The codes of the recognised tokens, in input order, repeats included. */
  function Codes(raw: seq<string>): (r: seq<string>)
    ensures forall k :: 0 <= k < |r| ==> IsDayCode(r[k])
    ensures forall c :: c in r <==> exists k :: 0 <= k < |raw| && TokenCode(raw[k]) == Some(c)
    ensures |r| <= |raw|
  {
    if |raw| == 0 then []
    else
      var rest := Codes(raw[1..]);
      assert forall k :: 0 < k < |raw| ==> raw[k] == raw[1..][k - 1];
      match TokenCode(raw[0])
      case Some(c) => [c] + rest
      case None => rest
  }

  /**
   * `_normalize_codes`: every output element is a day code, there are no
   * repeats, and a code is present exactly when some input token denotes it.
   */
  function NormalizeCodes(raw: seq<string>): (r: seq<string>)
    ensures forall k :: 0 <= k < |r| ==> IsDayCode(r[k])
    ensures Distinct(r)
    ensures forall c :: c in r <==> exists k :: 0 <= k < |raw| && TokenCode(raw[k]) == Some(c)
  {
    Dedup(Codes(raw))
  }

  /** Codes are kept in the order in which they first appear. */
  lemma NormalizeCodesOrder(raw: seq<string>)
    ensures var r := NormalizeCodes(raw);
      forall i, j :: 0 <= i < j < |r| ==> FirstIndex(Codes(raw), r[i]) < FirstIndex(Codes(raw), r[j])
  {
    DedupOrder(Codes(raw));
  }

  /** A day code is read as itself. */
  lemma CodeTokenFixed(code: string)
    requires IsDayCode(code)
    ensures TokenCode(code) == Some(code)
  {
    assert code[0] == code[..1][0];
    StripOfTrimmed(code);
    assert Upper(code) == code;
  }

  lemma {:induction false} CodesOfCodes(xs: seq<string>)
    requires forall k :: 0 <= k < |xs| ==> IsDayCode(xs[k])
    ensures Codes(xs) == xs
  {
    if |xs| > 0 {
      CodeTokenFixed(xs[0]);
      CodesOfCodes(xs[1..]);
      assert [xs[0]] + xs[1..] == xs;
    }
  }

  /** A list of distinct day codes passes through unchanged. */
  lemma NormalizeCodesOfValid(xs: seq<string>)
    requires ValidDays(xs)
    ensures NormalizeCodes(xs) == xs
  {
    CodesOfCodes(xs);
    DedupOfDistinct(xs);
  }

  /** Normalising twice is normalising once. */
  lemma NormalizeCodesIdempotent(raw: seq<string>)
    ensures NormalizeCodes(NormalizeCodes(raw)) == NormalizeCodes(raw)
  {
    NormalizeCodesOfValid(NormalizeCodes(raw));
  }

  // ---------------------------------------------------------------------------
  // Field errors

  datatype Field = TitleField | StartTimeField | EndTimeField | LocationField | InstructorField | NotesField

  datatype Issue =
    | Required              // "time is required"
    | NotAString            // the value is not a string
    | BadTime(reason: TimeError)

  datatype FieldError = FieldError(field: Field, issue: Issue)

  /** The errors of one field: none when it validated. */
  function ErrorsOf<T>(field: Field, r: Result<T, Issue>): (es: seq<FieldError>)
    ensures r.Ok? <==> es == []
    ensures r.Err? ==> es == [FieldError(field, r.error)]
  {
    if r.Ok? then [] else [FieldError(field, r.error)]
  }

  /** `_normalize_time`: a missing time is an error, anything else is normalised. */
  function CheckTime(v: Option<string>): (r: Result<string, Issue>)
    ensures r.Ok? <==> v.Some? && NormalizeTime(v.value).Ok?
    ensures r.Ok? ==> IsHHMM(r.value) && r.value == NormalizeTime(v.value).value
    ensures v.None? ==> r == Err(Required)
    ensures v.Some? && NormalizeTime(v.value).Err? ==> r == Err(BadTime(NormalizeTime(v.value).error))
  {
    match v
    case None => Err(Required)
    case Some(s) =>
      match NormalizeTime(s)
      case Ok(t) => Ok(t)
      case Err(e) => Err(BadTime(e))
  }

  // ---------------------------------------------------------------------------
  // EventRow

  datatype EventRow = EventRow(
    title: string,
    days: seq<string>,
    startTime: string,
    endTime: string,
    location: Option<string>,
    instructor: Option<string>,
    notes: Option<string>,
    startDate: Option<Date>,
    endDate: Option<Date>,
    termLabel: Option<string>)

  /** What the validators guarantee of every constructed `EventRow`. */
  predicate ValidEventRow(e: EventRow) {
    && ValidDays(e.days)
    && IsHHMM(e.startTime)
    && IsHHMM(e.endTime)
  }

  /** The raw field values an `EventRow` is constructed from. */
  datatype RowInput = RowInput(
    title: string,
    days: DaysInput,
    startTime: Option<string>,
    endTime: Option<string>,
    location: Option<string>,
    instructor: Option<string>,
    notes: Option<string>,
    startDate: Option<Date>,
    endDate: Option<Date>,
    termLabel: Option<string>)

  /**
   * Constructing an `EventRow`: days are reduced to distinct codes, both
   * times must be present and well-formed, and the errors of both time
   * fields are reported together, start first.
   */
  function ValidateEventRow(input: RowInput): (r: Result<EventRow, seq<FieldError>>)
    ensures r.Ok? <==>
      && input.startTime.Some? && NormalizeTime(input.startTime.value).Ok?
      && input.endTime.Some? && NormalizeTime(input.endTime.value).Ok?
    ensures r.Ok? ==> ValidEventRow(r.value)
    ensures r.Ok? ==>
      && r.value.days == NormalizeCodes(EnsureList(input.days))
      && r.value.startTime == NormalizeTime(input.startTime.value).value
      && r.value.endTime == NormalizeTime(input.endTime.value).value
      && r.value.title == input.title
      && r.value.location == input.location
      && r.value.instructor == input.instructor
      && r.value.notes == input.notes
      && r.value.startDate == input.startDate
      && r.value.endDate == input.endDate
      && r.value.termLabel == input.termLabel
    ensures r.Ok? && input.days == NoDays ==> r.value.days == []
    ensures r.Err? ==> 1 <= |r.error| <= 2
    ensures r.Err? && input.startTime.None? ==> r.error[0] == FieldError(StartTimeField, Required)
    ensures r.Err? && input.endTime.None? ==> r.error[|r.error| - 1] == FieldError(EndTimeField, Required)
  {
    var s := CheckTime(input.startTime);
    var e := CheckTime(input.endTime);
    if s.Ok? && e.Ok? then
      Ok(EventRow(input.title, NormalizeCodes(EnsureList(input.days)), s.value, e.value,
                  input.location, input.instructor, input.notes,
                  input.startDate, input.endDate, input.termLabel))
    else
      Err(ErrorsOf(StartTimeField, s) + ErrorsOf(EndTimeField, e))
  }

  /** The field values a constructed row carries. */
  function AsInput(e: EventRow): RowInput {
    RowInput(e.title, DayList(e.days), Some(e.startTime), Some(e.endTime),
             e.location, e.instructor, e.notes, e.startDate, e.endDate, e.termLabel)
  }

  /** A canonical time passes its validator unchanged. */
  lemma CheckTimeOfHHMM(s: string)
    requires IsHHMM(s)
    ensures CheckTime(Some(s)) == Ok(s)
  {
    HHMMIsFixedPoint(s);
  }

  /** Re-validating a valid row gives the same row back. */
  lemma ValidateEventRowRoundTrip(e: EventRow)
    requires ValidEventRow(e)
    ensures ValidateEventRow(AsInput(e)) == Ok(e)
  {
    CheckTimeOfHHMM(e.startTime);
    CheckTimeOfHHMM(e.endTime);
    DaysOfValidRow(e);
  }

  lemma DaysOfValidRow(e: EventRow)
    requires ValidEventRow(e)
    ensures NormalizeCodes(EnsureList(AsInput(e).days)) == e.days
  {
    assert EnsureList(AsInput(e).days) == e.days;
    NormalizeCodesOfValid(e.days);
  }

  /** A single string is treated as a one-token list. */
  lemma OneDayIsSingleton(input: RowInput, s: string)
    requires input.days == OneDay(s)
    ensures ValidateEventRow(input) == ValidateEventRow(input.(days := DayList([s])))
  {
  }

  // ---------------------------------------------------------------------------
  // ClassBlock

  datatype ClassBlock = ClassBlock(
    title: string,
    days: seq<int>,
    startTime: string,
    endTime: string,
    location: Option<string>,
    instructor: Option<string>,
    notes: Option<string>)

  /** A required time field given as a decoded value, validated by `_hhmm`. */
  function CheckTimeValue(v: Json): (r: Result<string, Issue>)
    ensures r.Ok? <==> v.JString? && NormalizeTime(v.s).Ok?
    ensures r.Ok? ==> IsHHMM(r.value) && r.value == NormalizeTime(v.s).value
    ensures !v.JString? ==> r == Err(NotAString)
  {
    if v.JString? then CheckTime(Some(v.s)) else Err(NotAString)
  }

  /** An optional string field: `None` or a string. */
  function CheckOptional(v: Json): (r: Result<Option<string>, Issue>)
    ensures r.Ok? <==> v.JNull? || v.JString?
    ensures r == Ok(None) <==> v.JNull?
    ensures v.JString? ==> r == Ok(Some(v.s))
  {
    match v
    case JNull => Ok(None)
    case JString(s) => Ok(Some(s))
    case _ => Err(NotAString)
  }

  /**
   * Constructing a `ClassBlock` from decoded values: both times must be
   * well-formed strings, the optional fields must be strings or `None`,
   * and every failing field is reported, in declaration order.
   */
  function MakeClassBlock(title: string, days: seq<int>, startTime: Json, endTime: Json,
                          location: Json, instructor: Json, notes: Json)
    : (r: Result<ClassBlock, seq<FieldError>>)
    ensures r.Ok? <==>
      && CheckTimeValue(startTime).Ok? && CheckTimeValue(endTime).Ok?
      && CheckOptional(location).Ok? && CheckOptional(instructor).Ok? && CheckOptional(notes).Ok?
    ensures r.Ok? ==>
      && IsHHMM(r.value.startTime) && IsHHMM(r.value.endTime)
      && r.value.title == title && r.value.days == days
    ensures r.Ok? ==>
      && Ok(r.value.startTime) == CheckTimeValue(startTime) && Ok(r.value.endTime) == CheckTimeValue(endTime)
      && Ok(r.value.location) == CheckOptional(location) && Ok(r.value.instructor) == CheckOptional(instructor)
      && Ok(r.value.notes) == CheckOptional(notes)
    ensures r.Err? ==> 1 <= |r.error| <= 5
  {
    var s := CheckTimeValue(startTime);
    var e := CheckTimeValue(endTime);
    var l := CheckOptional(location);
    var i := CheckOptional(instructor);
    var n := CheckOptional(notes);
    if s.Ok? && e.Ok? && l.Ok? && i.Ok? && n.Ok? then
      Ok(ClassBlock(title, days, s.value, e.value, l.value, i.value, n.value))
    else
      Err(ErrorsOf(StartTimeField, s) + ErrorsOf(EndTimeField, e) + ErrorsOf(LocationField, l)
          + ErrorsOf(InstructorField, i) + ErrorsOf(NotesField, n))
  }

  /** The day codes of the indices that have one, in order. */
  function IndexCodes(days: seq<int>): (r: seq<string>)
    ensures forall k :: 0 <= k < |r| ==> IsDayCode(r[k])
    ensures (forall k :: 0 <= k < |days| ==> 0 <= days[k] < 7) ==>
      |r| == |days| && forall k :: 0 <= k < |days| ==> r[k] == DayCodes[days[k]]
  {
    if |days| == 0 then []
    else
      var rest := IndexCodes(days[1..]);
      match IndexCode(days[0])
      case Some(c) => [c] + rest
      case None => rest
  }

  /** `ClassBlock.to_event`: the block's fields as an `EventRow`, days as codes. */
  function ToEvent(b: ClassBlock): (r: Result<EventRow, seq<FieldError>>)
    ensures r.Ok? ==> ValidEventRow(r.value)
    ensures r.Ok? ==> r.value.days == NormalizeCodes(IndexCodes(b.days))
    ensures r.Ok? ==> r.value.startDate.None? && r.value.endDate.None? && r.value.termLabel.None?
    ensures r.Ok? ==>
      && r.value.title == b.title && r.value.location == b.location
      && r.value.instructor == b.instructor && r.value.notes == b.notes
  {
    ValidateEventRow(RowInput(b.title, DayList(IndexCodes(b.days)), Some(b.startTime), Some(b.endTime),
                              b.location, b.instructor, b.notes, None, None, None))
  }

  /**
   * A validated block always converts: its times are already canonical and
   * distinct weekday indices become the matching codes, one for one.
   */
  lemma ToEventTotal(b: ClassBlock)
    requires IsHHMM(b.startTime) && IsHHMM(b.endTime)
    requires Distinct(b.days)
    requires forall k :: 0 <= k < |b.days| ==> 0 <= b.days[k] < 7
    ensures ToEvent(b).Ok?
    ensures ToEvent(b).value.startTime == b.startTime && ToEvent(b).value.endTime == b.endTime
    ensures |ToEvent(b).value.days| == |b.days|
    ensures forall k :: 0 <= k < |b.days| ==> ToEvent(b).value.days[k] == DayCodes[b.days[k]]
  {
    CheckTimeOfHHMM(b.startTime);
    CheckTimeOfHHMM(b.endTime);
    IndexCodesValid(b.days);
    NormalizeCodesOfValid(IndexCodes(b.days));
  }

  /** Distinct weekday indices give distinct codes. */
  lemma IndexCodesValid(days: seq<int>)
    requires Distinct(days)
    requires forall k :: 0 <= k < |days| ==> 0 <= days[k] < 7
    ensures ValidDays(IndexCodes(days))
  {
    var codes := IndexCodes(days);
    forall i, j | 0 <= i < j < |codes| ensures codes[i] != codes[j] {
      DayCodesDistinct();
    }
  }
}
