/**
 * Calendar dates as proleptic Gregorian ordinals, the numbering of Python's
 * `date.toordinal()`: 0001-01-01 is 1 and a Monday, 9999-12-31 is 3652059.
 */
module Dates {
  import opened Wrappers

  const MinOrdinal: int := 1
  const MaxOrdinal: int := 3652059

  /** A value of Python's `datetime.date`. */
  type Date = d: int | MinOrdinal <= d <= MaxOrdinal witness MinOrdinal

  /** 0 = Monday .. 6 = Sunday, as `date.weekday()` numbers the days. */
  type Weekday = i: int | 0 <= i < 7

  /** Date arithmetic that leaves the supported range (`OverflowError`). */
  datatype DateError = Overflow

  /** `date.weekday()`. */
  function WeekdayOf(d: int): Weekday {
    (d - 1) % 7
  }

  /** `d + timedelta(days=n)`. */
  function AddDays(d: Date, n: int): (r: Result<Date, DateError>)
    ensures r.Ok? <==> MinOrdinal <= d + n <= MaxOrdinal
    ensures r.Ok? ==> r.value - d == n
  {
    if MinOrdinal <= d + n <= MaxOrdinal then Ok(d + n) else Err(Overflow)
  }

  /** `a or b` on optional dates: a date is always truthy. */
  function OrDate(a: Option<Date>, b: Option<Date>): (r: Option<Date>)
    ensures a.Some? ==> r == a
    ensures a.None? ==> r == b
  {
    if a.Some? then a else b
  }

  /** Moving seven days keeps the weekday. */
  lemma WeekdayPeriodic(d: int, k: int)
    ensures WeekdayOf(d + 7 * k) == WeekdayOf(d)
  {
  }
}
