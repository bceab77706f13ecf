/**
 * `normalize_time_string` of `backend/app/schema.py`: fuzzy times such as
 * "9am", "2:45PM" or "9.30" become zero-padded 24-hour "HH:MM".
 *
 * The source strips and lower-cases its input, replaces '.' by ':' and
 * matches the regular expression
 *
 *     ^(\d{1,2})(?::?(\d{2}))?\s*(am|pm)?$
 *
 * The expression is modelled twice: `IsReading` says declaratively which
 * splits of a string the expression accepts, and `MatchTime` searches for a
 * split in the order the backtracking matcher tries them. `ReadingUnique`
 * shows that a string has at most one split, so the first match found by
 * the matcher is the only one.
 */
module TimeFormat {
  import opened Wrappers
  import opened Text

  datatype Meridiem = NoMeridiem | Am | Pm

  /** The two `ValueError`s of `normalize_time_string`. */
  datatype TimeError =
    | PatternMismatch  // "time must look like 9:00, 9am, 9:30pm"
    | OutOfRange       // "invalid time"

  function MeridiemText(m: Meridiem): string {
    match m
    case NoMeridiem => ""
    case Am => "am"
    case Pm => "pm"
  }

  /**
   * A split of a string along the pattern: group 1 (`hourDigits`), the
   * optional colon, group 2 (`minuteDigits`, empty when the optional group
   * did not take part), the whitespace run and group 3 (`meridiem`).
   */
  datatype Reading = Reading(
    hourDigits: string,
    colon: bool,
    minuteDigits: string,
    gap: string,
    meridiem: Meridiem)

  predicate WellShaped(t: Reading) {
    && 1 <= |t.hourDigits| <= 2 && AllDigits(t.hourDigits)
    && (|t.minuteDigits| == 0 || |t.minuteDigits| == 2) && AllDigits(t.minuteDigits)
    && (t.colon ==> |t.minuteDigits| == 2)
    && AllSpace(t.gap)
  }

  /** The text after the optional minute group: `\s*(am|pm)?`. */
  function TailText(t: Reading): string {
    t.gap + MeridiemText(t.meridiem)
  }

  function ReadingText(t: Reading): string {
    t.hourDigits + (if t.colon then ":" else "") + t.minuteDigits + TailText(t)
  }

  /** The pattern accepts `s` with the groups of `t`. */
  predicate IsReading(s: string, t: Reading) {
    WellShaped(t) && ReadingText(t) == s
  }

  // ---------------------------------------------------------------------------
  // The matcher

  /** `\s*(am|pm)?$` against `tail`: the greedy whitespace run, then the suffix. */
  function MatchTail(tail: string): (r: Option<(string, Meridiem)>)
    ensures r.Some? ==> AllSpace(r.value.0) && tail == r.value.0 + MeridiemText(r.value.1)
  {
    var n := LeadingSpaces(tail);
    var rest := tail[n..];
    assert tail == tail[..n] + rest;
    if rest == "am" then Some((tail[..n], Am))
    else if rest == "pm" then Some((tail[..n], Pm))
    else if rest == "" then Some((tail[..n], NoMeridiem))
    else None
  }

  /** `:(\d{2})` then the tail: the optional group, taken with its colon. */
  function MatchColonMinutes(hd: string, rest: string): (r: Option<Reading>)
    requires 1 <= |hd| <= 2 && AllDigits(hd)
    ensures r.Some? ==> IsReading(hd + rest, r.value) && r.value.hourDigits == hd
  {
    if |rest| >= 3 && rest[0] == ':' && AllDigits(rest[1..3]) then
      match MatchTail(rest[3..])
      case None => None
      case Some(tail) =>
        var t := Reading(hd, true, rest[1..3], tail.0, tail.1);
        ColonReadingText(hd, rest, t);
        Some(t)
    else None
  }

  lemma ColonReadingText(hd: string, rest: string, t: Reading)
    requires 1 <= |hd| <= 2 && AllDigits(hd)
    requires |rest| >= 3 && rest[0] == ':' && AllDigits(rest[1..3])
    requires t.hourDigits == hd && t.colon && t.minuteDigits == rest[1..3]
    requires AllSpace(t.gap) && rest[3..] == TailText(t)
    ensures IsReading(hd + rest, t)
  {
    assert rest == ":" + rest[1..3] + rest[3..];
  }

  /** `(\d{2})` then the tail: the optional group, taken without a colon. */
  function MatchBareMinutes(hd: string, rest: string): (r: Option<Reading>)
    requires 1 <= |hd| <= 2 && AllDigits(hd)
    ensures r.Some? ==> IsReading(hd + rest, r.value) && r.value.hourDigits == hd
  {
    if |rest| >= 2 && AllDigits(rest[..2]) then
      match MatchTail(rest[2..])
      case None => None
      case Some(tail) =>
        var t := Reading(hd, false, rest[..2], tail.0, tail.1);
        assert rest == rest[..2] + rest[2..];
        Some(t)
    else None
  }

  /** The tail alone: the optional group left out. */
  function MatchNoMinutes(hd: string, rest: string): (r: Option<Reading>)
    requires 1 <= |hd| <= 2 && AllDigits(hd)
    ensures r.Some? ==> IsReading(hd + rest, r.value) && r.value.hourDigits == hd
  {
    match MatchTail(rest)
    case None => None
    case Some(tail) => Some(Reading(hd, false, "", tail.0, tail.1))
  }

  /**
   * The rest of the pattern once group 1 has taken `hd`: the optional group
   * with a colon, then without, then the group left out.
   */
  function MatchAfterHour(hd: string, rest: string): (r: Option<Reading>)
    requires 1 <= |hd| <= 2 && AllDigits(hd)
    ensures r.Some? ==> IsReading(hd + rest, r.value) && r.value.hourDigits == hd
  {
    var withColon := MatchColonMinutes(hd, rest);
    var bare := MatchBareMinutes(hd, rest);
    if withColon.Some? then withColon
    else if bare.Some? then bare
    else MatchNoMinutes(hd, rest)
  }

  /** `re.match` of the pattern: group 1 is greedy, so two digits are tried first. */
  function MatchTime(s: string): (r: Option<Reading>)
    ensures r.Some? ==> IsReading(s, r.value)
  {
    var two := if |s| >= 2 && AllDigits(s[..2]) then MatchAfterHour(s[..2], s[2..]) else None;
    if two.Some? then
      assert s == s[..2] + s[2..];
      two
    else if |s| >= 1 && IsDigit(s[0]) then
      assert s == s[..1] + s[1..];
      MatchAfterHour(s[..1], s[1..])
    else None
  }

  // ---------------------------------------------------------------------------
  // A string has at most one reading

  /** Length of the run of digits at the front of `s`. */
  function DigitRun(s: string): (n: nat)
    ensures n <= |s|
    ensures n < |s| ==> !IsDigit(s[n])
  {
    if |s| == 0 || !IsDigit(s[0]) then 0
    else
      var n := 1 + DigitRun(s[1..]);
      assert n < |s| ==> s[n] == s[1..][n - 1];
      n
  }

  lemma {:induction false} DigitRunAfterDigits(a: string, b: string)
    requires AllDigits(a)
    ensures DigitRun(a + b) == |a| + DigitRun(b)
    decreases |a|
  {
    if |a| > 0 {
      assert IsDigit((a + b)[0]);
      assert (a + b)[1..] == a[1..] + b;
      assert AllDigits(a[1..]);
      DigitRunAfterDigits(a[1..], b);
      assert DigitRun(a + b) == 1 + DigitRun(a[1..] + b);
    } else {
      assert a + b == b;
    }
  }

  /** The tail starts with neither a digit nor a colon. */
  lemma TailStart(t: Reading)
    requires WellShaped(t)
    ensures |TailText(t)| > 0 ==> !IsDigit(TailText(t)[0]) && TailText(t)[0] != ':'
  {
    if |t.gap| > 0 {
      assert TailText(t)[0] == t.gap[0];
    }
  }

  lemma {:induction false} LeadingSpacesOfTail(g: string, m: Meridiem)
    requires AllSpace(g)
    ensures LeadingSpaces(g + MeridiemText(m)) == |g|
    decreases |g|
  {
    if |g| > 0 {
      assert (g + MeridiemText(m))[1..] == g[1..] + MeridiemText(m);
      LeadingSpacesOfTail(g[1..], m);
    }
  }

  lemma TailUnique(g1: string, m1: Meridiem, g2: string, m2: Meridiem)
    requires AllSpace(g1) && AllSpace(g2)
    requires g1 + MeridiemText(m1) == g2 + MeridiemText(m2)
    ensures g1 == g2 && m1 == m2
  {
    LeadingSpacesOfTail(g1, m1);
    LeadingSpacesOfTail(g2, m2);
    var s := g1 + MeridiemText(m1);
    assert g1 == s[..|g1|] && g2 == s[..|g2|];
    assert MeridiemText(m1) == s[|g1|..] && MeridiemText(m2) == s[|g2|..];
  }

  /** Where the groups of a reading sit in the string. */
  lemma ReadingShape(s: string, t: Reading)
    requires IsReading(s, t)
    ensures DigitRun(s) == |t.hourDigits| + (if t.colon then 0 else |t.minuteDigits|)
    ensures t.colon <==> DigitRun(s) < |s| && s[DigitRun(s)] == ':'
    ensures t.hourDigits == s[..|t.hourDigits|]
    ensures var c := if t.colon then 1 else 0;
      && t.minuteDigits == s[|t.hourDigits| + c..|t.hourDigits| + c + |t.minuteDigits|]
      && TailText(t) == s[|t.hourDigits| + c + |t.minuteDigits|..]
  {
    var hd, md, tail := t.hourDigits, t.minuteDigits, TailText(t);
    TailStart(t);
    if t.colon {
      assert s == hd + ":" + md + tail;
      ColonShape(hd, md, tail);
    } else {
      assert s == hd + md + tail by {
        assert hd + "" == hd;
      }
      BareShape(hd, md, tail);
    }
  }

  lemma ColonShape(hd: string, md: string, tail: string)
    requires AllDigits(hd)
    requires |tail| > 0 ==> !IsDigit(tail[0])
    ensures var s := hd + ":" + md + tail;
      && DigitRun(s) == |hd| && DigitRun(s) < |s| && s[DigitRun(s)] == ':'
      && hd == s[..|hd|] && md == s[|hd| + 1..|hd| + 1 + |md|] && tail == s[|hd| + 1 + |md|..]
  {
    var s := hd + ":" + md + tail;
    assert s == hd + (":" + md + tail);
    DigitRunAfterDigits(hd, ":" + md + tail);
  }

  lemma BareShape(hd: string, md: string, tail: string)
    requires AllDigits(hd) && AllDigits(md)
    requires |tail| > 0 ==> !IsDigit(tail[0]) && tail[0] != ':'
    ensures var s := hd + md + tail;
      && DigitRun(s) == |hd| + |md| && !(DigitRun(s) < |s| && s[DigitRun(s)] == ':')
      && hd == s[..|hd|] && md == s[|hd|..|hd| + |md|] && tail == s[|hd| + |md|..]
  {
    var s := hd + md + tail;
    assert AllDigits(hd + md) by {
      forall i | 0 <= i < |hd + md| ensures IsDigit((hd + md)[i]) {
        if i >= |hd| {
          assert (hd + md)[i] == md[i - |hd|];
        }
      }
    }
    DigitRunAfterDigits(hd + md, tail);
    if |tail| > 0 {
      assert s[|hd| + |md|] == tail[0];
    }
  }

  /** The pattern splits a string in at most one way. */
  lemma ReadingUnique(s: string, t1: Reading, t2: Reading)
    requires IsReading(s, t1) && IsReading(s, t2)
    ensures t1 == t2
  {
    ReadingShape(s, t1);
    ReadingShape(s, t2);
    assert t1.colon == t2.colon;
    assert |t1.hourDigits| == |t2.hourDigits| && |t1.minuteDigits| == |t2.minuteDigits|;
    TailUnique(t1.gap, t1.meridiem, t2.gap, t2.meridiem);
  }

  // ---------------------------------------------------------------------------
  // The matcher finds every reading

  lemma MatchTailComplete(g: string, m: Meridiem)
    requires AllSpace(g)
    ensures MatchTail(g + MeridiemText(m)) == Some((g, m))
  {
    var tail := g + MeridiemText(m);
    LeadingSpacesOfTail(g, m);
    assert tail[..|g|] == g && tail[|g|..] == MeridiemText(m);
  }

  lemma MatchAfterHourFinds(hd: string, rest: string, t: Reading)
    requires IsReading(hd + rest, t) && t.hourDigits == hd
    ensures MatchAfterHour(hd, rest).Some?
  {
    var tail := TailText(t);
    MatchTailComplete(t.gap, t.meridiem);
    assert rest == (if t.colon then ":" else "") + t.minuteDigits + tail by {
      assert (hd + rest)[|hd|..] == rest;
    }
    if t.colon {
      ColonMinutesFound(hd, rest, t.minuteDigits, tail);
    } else if |t.minuteDigits| == 2 {
      BareMinutesFound(hd, rest, t.minuteDigits, tail);
    } else {
      assert rest == tail;
    }
  }

  lemma ColonMinutesFound(hd: string, rest: string, md: string, tail: string)
    requires 1 <= |hd| <= 2 && AllDigits(hd)
    requires |md| == 2 && AllDigits(md) && rest == ":" + md + tail && MatchTail(tail).Some?
    ensures MatchColonMinutes(hd, rest).Some?
  {
    assert rest[1..3] == md && rest[3..] == tail;
  }

  lemma BareMinutesFound(hd: string, rest: string, md: string, tail: string)
    requires 1 <= |hd| <= 2 && AllDigits(hd)
    requires |md| == 2 && AllDigits(md) && rest == md + tail && MatchTail(tail).Some?
    ensures MatchBareMinutes(hd, rest).Some?
  {
    assert rest[..2] == md && rest[2..] == tail;
  }

  /** Every reading of `s` is what `re.match` returns. */
  lemma MatchTimeComplete(s: string, t: Reading)
    requires IsReading(s, t)
    ensures MatchTime(s) == Some(t)
  {
    var hd := t.hourDigits;
    assert s == hd + s[|hd|..];
    if |hd| == 2 {
      assert s[..2] == hd;
      MatchAfterHourFinds(hd, s[2..], t);
    } else {
      assert s[..1] == hd;
      MatchAfterHourFinds(hd, s[1..], t);
    }
    ReadingUnique(s, MatchTime(s).value, t);
  }

  // ---------------------------------------------------------------------------
  // Normalisation

  /** `value.strip().lower().replace(".", ":")`. */
  function PrepareTime(value: string): (s: string)
    ensures NoOuterSpace(s)
    ensures '.' !in s
    ensures forall i :: 0 <= i < |s| ==> !('A' <= s[i] <= 'Z')
  {
    var stripped := Strip(value);
    var s := ReplaceChar(Lower(stripped), '.', ':');
    assert |s| > 0 ==> s[0] == ReplaceChar(Lower(stripped), '.', ':')[0];
    s
  }

  /** Text with no outer whitespace, no upper-case letter and no '.' is already prepared. */
  lemma PreparedFixed(s: string)
    requires NoOuterSpace(s)
    requires forall i :: 0 <= i < |s| ==> !('A' <= s[i] <= 'Z') && s[i] != '.'
    ensures PrepareTime(s) == s
  {
    StripOfTrimmed(s);
    assert Lower(s) == s;
    assert ReplaceChar(s, '.', ':') == s;
  }

  /** The am/pm rule: pm adds twelve to every hour but 12, and 12am is hour 0. */
  function To24Hour(hour: nat, m: Meridiem): nat {
    if m == Pm && hour != 12 then hour + 12
    else if m == Am && hour == 12 then 0
    else hour
  }

  /** Hour and minute a reading denotes, before the range check. */
  function Clock(t: Reading): (nat, nat)
    requires WellShaped(t)
  {
    (To24Hour(DecimalValue(t.hourDigits), t.meridiem),
     if t.minuteDigits == [] then 0 else DecimalValue(t.minuteDigits))
  }

  /** Canonical `HH:MM`: two digits, a colon, two digits, hour <= 23, minute <= 59. */
  predicate IsHHMM(s: string) {
    && |s| == 5
    && AllDigits(s[..2]) && s[2] == ':' && AllDigits(s[3..])
    && DecimalValue(s[..2]) <= 23 && DecimalValue(s[3..]) <= 59
  }

  function HourOf(s: string): nat
    requires IsHHMM(s)
  {
    DecimalValue(s[..2])
  }

  function MinuteOf(s: string): nat
    requires IsHHMM(s)
  {
    DecimalValue(s[3..])
  }

  /** `f"{hour:02d}:{minute:02d}"`, read back by `HourOf` and `MinuteOf`. */
  function FormatHHMM(hour: nat, minute: nat): (r: string)
    requires hour <= 23 && minute <= 59
    ensures IsHHMM(r)
    ensures HourOf(r) == hour && MinuteOf(r) == minute
  {
    var r := Pad2(hour) + ":" + Pad2(minute);
    assert r[..2] == Pad2(hour) && r[3..] == Pad2(minute);
    r
  }

  /** `HH:MM` text is determined by the hour and minute it shows. */
  lemma FormatOfHHMM(s: string)
    requires IsHHMM(s)
    ensures FormatHHMM(HourOf(s), MinuteOf(s)) == s
  {
    Pad2OfDecimal(s[..2]);
    Pad2OfDecimal(s[3..]);
    assert s == s[..2] + ":" + s[3..];
  }

  /** `normalize_time_string`. */
  function NormalizeTime(value: string): (r: Result<string, TimeError>)
    ensures r.Ok? ==> IsHHMM(r.value)
  {
    match MatchTime(PrepareTime(value))
    case None => Err(PatternMismatch)
    case Some(t) =>
      var (hour, minute) := Clock(t);
      if hour <= 23 && minute <= 59 then Ok(FormatHHMM(hour, minute)) else Err(OutOfRange)
  }

  /** What the pattern's reading of the prepared input leads to. */
  function Expected(t: Reading): Result<string, TimeError>
    requires WellShaped(t)
  {
    var (hour, minute) := Clock(t);
    if hour <= 23 && minute <= 59 then Ok(FormatHHMM(hour, minute)) else Err(OutOfRange)
  }

  /**
   * `NormalizeTime` against the declarative pattern: input the pattern
   * rejects fails with `PatternMismatch`; otherwise the reading's hour and
   * minute are range-checked and formatted.
   */
  lemma NormalizeTimeSpec(value: string)
    ensures NormalizeTime(value) == Err(PatternMismatch) <==>
      forall t :: !IsReading(PrepareTime(value), t)
    ensures forall t :: IsReading(PrepareTime(value), t) ==> NormalizeTime(value) == Expected(t)
  {
    var s := PrepareTime(value);
    forall t | IsReading(s, t) ensures NormalizeTime(value) == Expected(t) {
      MatchTimeComplete(s, t);
    }
  }

  /** Any canonical `HH:MM` is left as it is. */
  lemma HHMMIsFixedPoint(s: string)
    requires IsHHMM(s)
    ensures NormalizeTime(s) == Ok(s)
  {
    assert s[0] == s[..2][0] && s[1] == s[..2][1] && s[3] == s[3..][0] && s[4] == s[3..][1];
    PreparedFixed(s);
    var t := Reading(s[..2], true, s[3..], "", NoMeridiem);
    assert ReadingText(t) == s;
    MatchTimeComplete(s, t);
    FormatOfHHMM(s);
  }

  /** Normalising the output of a normalisation gives the same output. */
  lemma NormalizeTimeIdempotent(value: string)
    requires NormalizeTime(value).Ok?
    ensures NormalizeTime(NormalizeTime(value).value) == NormalizeTime(value)
  {
    HHMMIsFixedPoint(NormalizeTime(value).value);
  }

  /** Preparing prepared text changes nothing. */
  lemma PrepareTimeIdempotent(value: string)
    ensures PrepareTime(PrepareTime(value)) == PrepareTime(value)
  {
    var s := PrepareTime(value);
    StripOfTrimmed(s);
    assert Lower(s) == s;
    assert ReplaceChar(s, '.', ':') == s;
  }

  /**
   * Only the prepared form matters: surrounding whitespace, letter case and
   * '.' versus ':' do not change the result.
   */
  lemma NormalizeTimeOfPrepared(value: string)
    ensures NormalizeTime(PrepareTime(value)) == NormalizeTime(value)
  {
    PrepareTimeIdempotent(value);
  }

  /** A reading with no whitespace gap spells text that is already prepared. */
  lemma ReadingTextPrepared(t: Reading)
    requires WellShaped(t) && t.gap == ""
    ensures PrepareTime(ReadingText(t)) == ReadingText(t)
  {
    var s := ReadingText(t);
    var hd, c, md, mt := t.hourDigits, (if t.colon then ":" else ""), t.minuteDigits, MeridiemText(t.meridiem);
    assert s == hd + c + md + mt;
    forall i | 0 <= i < |s| ensures !('A' <= s[i] <= 'Z') && s[i] != '.' && (i == |s| - 1 ==> !IsSpace(s[i])) {
      if i < |hd| {
        assert s[i] == hd[i];
      } else if i < |hd| + |c| {
        assert s[i] == c[i - |hd|];
      } else if i < |hd| + |c| + |md| {
        assert s[i] == md[i - |hd| - |c|];
      } else {
        assert s[i] == mt[i - |hd| - |c| - |md|];
      }
    }
    assert s[0] == hd[0];
    PreparedFixed(s);
  }

  /** Normalising `value` whose prepared form is spelled by reading `t`. */
  lemma NormalizeVia(value: string, t: Reading)
    requires WellShaped(t) && PrepareTime(value) == ReadingText(t)
    ensures NormalizeTime(value) == Expected(t)
  {
    NormalizeTimeSpec(value);
  }

  /**
   * The am/pm conversion for an explicit "h:mm" with an optional suffix:
   * 12am is 00, 12pm is 12, any other pm hour gains twelve (and so leaves
   * the range from 13pm on), and an hour without pm or with am (other than
   * 12am) is kept as written and only range-checked.
   */
  lemma MeridiemRules(hd: string, md: string, m: Meridiem)
    requires 1 <= |hd| <= 2 && AllDigits(hd)
    requires |md| == 2 && AllDigits(md) && DecimalValue(md) <= 59
    ensures var h, mm, r := DecimalValue(hd), DecimalValue(md), NormalizeTime(hd + ":" + md + MeridiemText(m));
      && (m == Am && h == 12 ==> r == Ok(FormatHHMM(0, mm)))
      && (m == Pm && h == 12 ==> r == Ok(FormatHHMM(12, mm)))
      && (m == Pm && h < 12 ==> r == Ok(FormatHHMM(h + 12, mm)))
      && (m == Pm && h > 12 ==> r == Err(OutOfRange))
      && (m != Pm && h != 12 && h <= 23 ==> r == Ok(FormatHHMM(h, mm)))
      && (m != Pm && h > 23 ==> r == Err(OutOfRange))
      && (m == NoMeridiem && h == 12 ==> r == Ok(FormatHHMM(12, mm)))
  {
    var t := Reading(hd, true, md, "", m);
    assert ReadingText(t) == hd + ":" + md + MeridiemText(m);
    ReadingTextPrepared(t);
    NormalizeVia(hd + ":" + md + MeridiemText(m), t);
    ExpectedMeridiem(t);
  }

  lemma ExpectedMeridiem(t: Reading)
    requires WellShaped(t) && |t.minuteDigits| == 2 && DecimalValue(t.minuteDigits) <= 59
    ensures var h, mm, m, r := DecimalValue(t.hourDigits), DecimalValue(t.minuteDigits), t.meridiem, Expected(t);
      && (m == Am && h == 12 ==> r == Ok(FormatHHMM(0, mm)))
      && (m == Pm && h == 12 ==> r == Ok(FormatHHMM(12, mm)))
      && (m == Pm && h < 12 ==> r == Ok(FormatHHMM(h + 12, mm)))
      && (m == Pm && h > 12 ==> r == Err(OutOfRange))
      && (m != Pm && h != 12 && h <= 23 ==> r == Ok(FormatHHMM(h, mm)))
      && (m != Pm && h > 23 ==> r == Err(OutOfRange))
      && (m == NoMeridiem && h == 12 ==> r == Ok(FormatHHMM(12, mm)))
  {
  }

  // ---------------------------------------------------------------------------
  // Worked examples

  /** Text spelled by a reading without a gap normalises to what the reading denotes. */
  lemma NormalizeSpelled(value: string, t: Reading, out: Result<string, TimeError>)
    requires WellShaped(t) && t.gap == "" && ReadingText(t) == value && Expected(t) == out
    ensures NormalizeTime(value) == out
  {
    ReadingTextPrepared(t);
    NormalizeVia(value, t);
  }

  lemma ExpectedNineAm()
    ensures Expected(Reading("9", false, "", "", Am)) == Ok("09:00")
  {
    assert DecimalValue("9") == 9;
    assert FormatHHMM(9, 0) == "09:00";
  }

  lemma ExampleNineAm()
    ensures NormalizeTime("9am") == Ok("09:00")
  {
    var t := Reading("9", false, "", "", Am);
    assert ReadingText(t) == "9am";
    ExpectedNineAm();
    NormalizeSpelled("9am", t, Ok("09:00"));
  }

  lemma ExpectedNineThirtyPm()
    ensures Expected(Reading("9", true, "30", "", Pm)) == Ok("21:30")
  {
    assert DecimalValue("9") == 9;
    assert DecimalValue("30") == 30;
    assert FormatHHMM(21, 30) == "21:30";
  }

  lemma PrepareNineThirtyPm()
    ensures PrepareTime("9.30PM") == "9:30pm"
  {
    StripOfTrimmed("9.30PM");
    assert Lower("9.30PM") == "9.30pm";
    assert ReplaceChar("9.30pm", '.', ':') == "9:30pm";
  }

  /** "9.30PM" is read exactly as "9:30pm". */
  lemma DotActsAsColon()
    ensures NormalizeTime("9.30PM") == NormalizeTime("9:30pm") == Ok("21:30")
  {
    var t := Reading("9", true, "30", "", Pm);
    assert ReadingText(t) == "9:30pm";
    ExpectedNineThirtyPm();
    NormalizeSpelled("9:30pm", t, Ok("21:30"));
    PrepareNineThirtyPm();
    NormalizeVia("9.30PM", t);
  }

  lemma ExpectedThreeDigits()
    ensures Expected(Reading("1", false, "23", "", NoMeridiem)) == Ok("01:23")
  {
    assert DecimalValue("1") == 1;
    assert DecimalValue("23") == 23;
    assert FormatHHMM(1, 23) == "01:23";
  }

  /** Without a colon, three digits are one hour digit and two minute digits. */
  lemma ExampleThreeDigits()
    ensures NormalizeTime("123") == Ok("01:23")
  {
    var t := Reading("1", false, "23", "", NoMeridiem);
    assert ReadingText(t) == "123";
    ExpectedThreeDigits();
    NormalizeSpelled("123", t, Ok("01:23"));
  }

  lemma ExpectedMidnight()
    ensures Expected(Reading("12", false, "", "", Am)) == Ok("00:00")
  {
    assert DecimalValue("12") == 12;
    assert FormatHHMM(0, 0) == "00:00";
  }

  /** 12am is the start of the day. */
  lemma ExampleMidnight()
    ensures NormalizeTime("12am") == Ok("00:00")
  {
    var t := Reading("12", false, "", "", Am);
    assert ReadingText(t) == "12am";
    ExpectedMidnight();
    NormalizeSpelled("12am", t, Ok("00:00"));
  }

  lemma ExpectedTwentyFour()
    ensures Expected(Reading("24", true, "00", "", NoMeridiem)) == Err(OutOfRange)
  {
    assert DecimalValue("24") == 24;
  }

  /** Hour 24 matches the pattern and then fails the range check. */
  lemma ExampleTwentyFour()
    ensures NormalizeTime("24:00") == Err(OutOfRange)
  {
    var t := Reading("24", true, "00", "", NoMeridiem);
    assert ReadingText(t) == "24:00";
    ExpectedTwentyFour();
    NormalizeSpelled("24:00", t, Err(OutOfRange));
  }
}
