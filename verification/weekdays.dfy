/**
 * The day tables of `backend/app/schema.py`: the alias table from lower-case
 * names and abbreviations to weekday indices, and the two-letter day codes
 * MO..SU used by calendar recurrence rules.
 */
module Weekdays {
  import opened Wrappers
  import opened Dates

  /** `WEEKDAY_ALIASES`: full names, three-letter and shorter abbreviations. */
  const WeekdayAliases: map<string, Weekday> := map[
    "m" := 0, "mon" := 0, "monday" := 0,
    "t" := 1, "tue" := 1, "tues" := 1, "tuesday" := 1,
    "w" := 2, "wed" := 2, "wednesday" := 2,
    "th" := 3, "thu" := 3, "thur" := 3, "thurs" := 3, "thursday" := 3,
    "f" := 4, "fri" := 4, "friday" := 4,
    "sa" := 5, "sat" := 5, "saturday" := 5,
    "su" := 6, "sun" := 6, "sunday" := 6
  ]

  /** `DAY_CODES`: position i holds the code of weekday i. */
  const DayCodes: seq<string> := ["MO", "TU", "WE", "TH", "FR", "SA", "SU"]

  /** `WEEKDAY_ALIASES.get(t)`. */
  function AliasIndex(t: string): Option<Weekday> {
    if t in WeekdayAliases then Some(WeekdayAliases[t]) else None
  }

  predicate IsDayCode(code: string) {
    code in DayCodes
  }

  /** `DAY_CODE_TO_INDEX.get(code)`: the position of `code` in `DayCodes`. */
  function CodeIndex(code: string): (r: Option<Weekday>)
    ensures r.Some? <==> IsDayCode(code)
    ensures r.Some? ==> DayCodes[r.value] == code
  {
    if code == "MO" then Some(0)
    else if code == "TU" then Some(1)
    else if code == "WE" then Some(2)
    else if code == "TH" then Some(3)
    else if code == "FR" then Some(4)
    else if code == "SA" then Some(5)
    else if code == "SU" then Some(6)
    else None
  }

  /** `INDEX_TO_DAY_CODE.get(i)`: defined exactly for 0..6. */
  function IndexCode(i: int): (r: Option<string>)
    ensures r.Some? <==> 0 <= i < 7
    ensures r.Some? ==> IsDayCode(r.value)
  {
    if 0 <= i < 7 then Some(DayCodes[i]) else None
  }

  /** The two code maps are inverse to each other. */
  lemma CodeIndexRoundTrip(i: Weekday, code: string)
    ensures CodeIndex(DayCodes[i]) == Some(i)
    ensures IndexCode(i) == Some(DayCodes[i])
    ensures CodeIndex(code) == Some(i) ==> IndexCode(i) == Some(code)
  {
  }

  /** No two days share a code. */
  lemma DayCodesDistinct()
    ensures forall i, j :: 0 <= i < j < |DayCodes| ==> DayCodes[i] != DayCodes[j]
  {
  }
}
