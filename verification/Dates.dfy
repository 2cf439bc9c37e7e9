/** Calendar dates as Python's `datetime.date` and `datetime.time` represent them. */
module Dates {
  import opened Wrappers

  datatype Date = Date(year: int, month: int, day: int)

  /** Hours and minutes: all that the `%I:%M %p` rendering shows. */
  datatype Time = Time(hour: int, minute: int)

  /** A timestamp already converted to local time. */
  datatype DateTime = DateTime(date: Date, time: Time)

  /** Chronological order of dates: year, then month, then day. */
  predicate Before(a: Date, b: Date) {
    a.year < b.year
    || (a.year == b.year && a.month < b.month)
    || (a.year == b.year && a.month == b.month && a.day < b.day)
  }

  predicate OnOrBefore(a: Date, b: Date) {
    a == b || Before(a, b)
  }

  const MinYear := 1
  const MaxYear := 9999

  /** The Gregorian leap-year rule. */
  predicate IsLeapYear(y: int) {
    y % 4 == 0 && (y % 100 != 0 || y % 400 == 0)
  }

  function DaysInMonth(y: int, m: int): (n: int)
    requires 1 <= m <= 12
    ensures 28 <= n <= 31
    ensures m == 2 ==> (n == 29 <==> IsLeapYear(y))
  {
    if m == 2 then (if IsLeapYear(y) then 29 else 28)
    else if m == 4 || m == 6 || m == 9 || m == 11 then 30
    else 31
  }

  /** A date `datetime.date` can hold. */
  predicate IsValid(d: Date) {
    MinYear <= d.year <= MaxYear && 1 <= d.month <= 12 && 1 <= d.day <= DaysInMonth(d.year, d.month)
  }

  /** The `ValueError` that `date.replace` raises when the day does not exist. */
  datatype DateError = DayOutOfRange

  /** `d.replace(day=day)`: succeeds exactly when the resulting date exists. */
  function ReplaceDay(d: Date, day: int): (r: Result<Date, DateError>)
    requires IsValid(d)
    ensures r.Success? <==> IsValid(d.(day := day))
    ensures r.Success? ==> r.value.year == d.year && r.value.month == d.month && r.value.day == day
  {
    if 1 <= day <= DaysInMonth(d.year, d.month) then Success(d.(day := day))
    else Failure(DayOutOfRange)
  }

  /** `d - timedelta(days=1)`; `None` where Python overflows below `date.min`. */
  function PreviousDay(d: Date): (r: Option<Date>)
    requires IsValid(d)
    ensures r.None? <==> d == Date(MinYear, 1, 1)
    ensures r.Some? ==> IsValid(r.value) && Before(r.value, d)
    ensures r.Some? ==> forall x :: IsValid(x) && Before(r.value, x) ==> !Before(x, d)
  {
    if d.day > 1 then Some(d.(day := d.day - 1))
    else if d.month > 1 then Some(Date(d.year, d.month - 1, DaysInMonth(d.year, d.month - 1)))
    else if d.year > MinYear then Some(Date(d.year - 1, 12, 31))
    else None
  }
}
