/**
 * The `humanised_date` template filter of users/templatetags/custom_filters.py:
 * a last-login timestamp shown as "Today at", "Yesterday at" or a bare time.
 * The current date is a parameter, and the timestamp arrives already in local time.
 */
module Humanise {
  import opened Wrappers
  import opened Dates

  /** The rendered label, before the time is formatted with `%I:%M %p`. */
  datatype Label =
    | NoLoginInformation
    | TodayAt(time: Time)
    | YesterdayAt(time: Time)
    | TimeOnly(time: Time)

  /** A time on the 12-hour clock, as `%I` and `%p` show it. */
  datatype Clock = Clock(hour12: int, minute: int, pm: bool)

  predicate IsValidTime(t: Time) {
    0 <= t.hour < 24 && 0 <= t.minute < 60
  }

  /** `%I:%M %p`: hours 00 and 12 read as 12, afternoon hours lose twelve. */
  function ToClock(t: Time): (c: Clock)
    requires IsValidTime(t)
    ensures 1 <= c.hour12 <= 12 && c.minute == t.minute
    ensures c.pm <==> t.hour >= 12
  {
    var h := t.hour % 12;
    Clock(if h == 0 then 12 else h, t.minute, t.hour >= 12)
  }

  /** Reading the 12-hour clock back. */
  function FromClock(c: Clock): Time {
    Time((if c.hour12 == 12 then 0 else c.hour12) + (if c.pm then 12 else 0), c.minute)
  }

  /** The 12-hour rendering loses nothing: distinct times render differently. */
  lemma ClockRoundTrip(t: Time)
    requires IsValidTime(t)
    ensures FromClock(ToClock(t)) == t
  {
  }

  /**
   * The filter as written: the day before `today` is computed with
   * `today.replace(day=today.day - 1)`, which raises on the first of a month.
   * The error is only reached when the timestamp is not from today.
   */
  function HumanisedDate(value: Option<DateTime>, today: Date): (r: Result<Label, DateError>)
    requires IsValid(today)
    ensures value.None? <==> r == Success(NoLoginInformation)
    ensures r.Failure? <==> value.Some? && value.value.date != today && today.day == 1
    ensures r.Success? && r.value.TodayAt? <==> value.Some? && value.value.date == today
    ensures r.Success? && r.value.YesterdayAt? <==>
              value.Some? && today.day > 1 && value.value.date == today.(day := today.day - 1)
    ensures r.Success? && r.value.TimeOnly? <==>
              value.Some? && value.value.date != today && today.day > 1
              && value.value.date != today.(day := today.day - 1)
    ensures r.Success? && r.value != NoLoginInformation ==> value.Some? && r.value.time == value.value.time
  {
    match value
    case None => Success(NoLoginInformation)
    case Some(v) =>
      if v.date == today then Success(TodayAt(v.time))
      else
        match ReplaceDay(today, today.day - 1)
        case Failure(err) => Failure(err)
        case Success(yesterday) =>
          if v.date == yesterday then Success(YesterdayAt(v.time)) else Success(TimeOnly(v.time))
  }

  /** On 1 March 2024 a login from 29 February 2024 raises instead of reading "Yesterday". */
  lemma FirstOfMonthRaises(today: Date, login: DateTime)
    requires today == Date(2024, 3, 1) && login == DateTime(Date(2024, 2, 29), Time(21, 30))
    ensures HumanisedDate(Some(login), today).Failure?
    ensures PreviousDay(today) == Some(login.date)
  {
  }

  /** As written, a login from the last day of the previous month is never labelled "Yesterday". */
  lemma PreviousMonthEndNeverYesterday(today: Date, login: DateTime)
    requires IsValid(today) && today.day == 1
    ensures !(HumanisedDate(Some(login), today).Success? && HumanisedDate(Some(login), today).value.YesterdayAt?)
  {
  }

  /** The filter as intended: "Yesterday" means the calendar day before `today`. */
  function HumanisedDateFixed(value: Option<DateTime>, today: Date): (l: Label)
    requires IsValid(today)
    ensures value.None? <==> l == NoLoginInformation
    ensures l.TimeOnly? <==>
              value.Some? && value.value.date != today && PreviousDay(today) != Some(value.value.date)
    ensures l.TodayAt? <==> value.Some? && value.value.date == today
    ensures l.YesterdayAt? <==> value.Some? && PreviousDay(today) == Some(value.value.date)
    ensures l != NoLoginInformation ==> value.Some? && l.time == value.value.time
  {
    match value
    case None => NoLoginInformation
    case Some(v) =>
      if v.date == today then TodayAt(v.time)
      else if PreviousDay(today) == Some(v.date) then YesterdayAt(v.time)
      else TimeOnly(v.time)
  }

  /** Away from the first of a month the two versions agree. */
  lemma FixedAgreesAwayFromMonthStart(value: Option<DateTime>, today: Date)
    requires IsValid(today) && today.day > 1
    ensures HumanisedDate(value, today) == Success(HumanisedDateFixed(value, today))
  {
  }

  /** The corrected filter labels the last day of the previous month "Yesterday" on the first. */
  lemma FixedNamesPreviousMonthEnd(today: Date, login: DateTime)
    requires today == Date(2024, 3, 1) && login == DateTime(Date(2024, 2, 29), Time(21, 30))
    ensures HumanisedDateFixed(Some(login), today) == YesterdayAt(Time(21, 30))
  {
  }
}
