/** Calendar helpers of WeatherManager/Extensions/Date+Extensions.swift.

    A date is a whole number of seconds. Days have a fixed length of 86400
    seconds and start at the multiples of 86400 (no time zones, no daylight
    saving). The calendar's `date(byAdding:value:to:)`, which Foundation may
    answer with nil, is a function field of `Calendar`. */
module Dates {
  import opened Results

  type Date = int

  const SecondsPerHour: int := 3600
  const SecondsPerDay: int := 86400

  /** The calendar components the source adds to dates. */
  datatype Component = Hour | Day

  function ComponentSeconds(c: Component): (r: int)
    ensures r > 0
  {
    match c
    case Hour => SecondsPerHour
    case Day => SecondsPerDay
  }

  /** `date(byAdding: component, value: n, to: date)`: None when the calendar
      cannot produce the date. */
  datatype Calendar = Calendar(dateByAdding: (Component, int, Date) -> Option<Date>)

  /** A calendar whose arithmetic always succeeds and is exact. */
  ghost predicate Exact(cal: Calendar)
  {
    forall c: Component, n: int, d: Date {:trigger cal.dateByAdding(c, n, d)} ::
      cal.dateByAdding(c, n, d) == Some(d + n * ComponentSeconds(c))
  }

  /** The Gregorian calendar with fixed-length days. */
  function Gregorian(): (cal: Calendar)
    ensures Exact(cal)
  {
    Calendar((c: Component, n: int, d: Date) => Some(d + n * ComponentSeconds(c)))
  }

  /** `Calendar.startOfDay(for:)`: the first second of the day holding `d`. */
  function StartOfDay(d: Date): (r: Date)
    ensures r % SecondsPerDay == 0
    ensures r <= d < r + SecondsPerDay
  {
    d - d % SecondsPerDay
  }

  /** A day start is the only multiple of the day length at most one day before `d`. */
  lemma StartOfDayUnique(d: Date, s: Date)
    requires s % SecondsPerDay == 0 && s <= d < s + SecondsPerDay
    ensures s == StartOfDay(d)
  {
    var r := StartOfDay(d);
    assert s == (s / SecondsPerDay) * SecondsPerDay;
    assert r == (r / SecondsPerDay) * SecondsPerDay;
    assert s / SecondsPerDay == r / SecondsPerDay;
  }

  /** The day after `d` starts exactly one day after `d`'s day. */
  lemma StartOfNextDay(d: Date)
    ensures StartOfDay(d + SecondsPerDay) == StartOfDay(d) + SecondsPerDay
  {
    var s := StartOfDay(d) + SecondsPerDay;
    assert s % SecondsPerDay == 0 by {
      assert s == (StartOfDay(d) / SecondsPerDay + 1) * SecondsPerDay;
    }
    StartOfDayUnique(d + SecondsPerDay, s);
  }

  /** Two dates fall on the same calendar day. */
  predicate SameDay(a: Date, b: Date)
  {
    StartOfDay(a) == StartOfDay(b)
  }

  /** The closed interval from a day's start to its start plus 86399 seconds
      holds exactly the dates of that day. */
  lemma DayInterval(d: Date, t: Date)
    ensures StartOfDay(d) <= t <= StartOfDay(d) + SecondsPerDay - 1 <==> SameDay(t, d)
  {
    if StartOfDay(d) <= t <= StartOfDay(d) + SecondsPerDay - 1 {
      StartOfDayUnique(t, StartOfDay(d));
    }
  }

  /** `Calendar.endOfDay(for:)`: one second before the start of the day after
      `d`, or None when adding one day to `d` fails. */
  function EndOfDay(cal: Calendar, d: Date): (r: Option<Date>)
    ensures r.None? <==> cal.dateByAdding(Day, 1, d).None?
    ensures cal.dateByAdding(Day, 1, d) == Some(d + SecondsPerDay) ==>
              r == Some(StartOfDay(d) + SecondsPerDay - 1)
  {
    match cal.dateByAdding(Day, 1, d)
    case None => None
    case Some(tomorrow) =>
      StartOfNextDay(d);
      Some(StartOfDay(tomorrow) - 1)
  }

  /** With exact arithmetic the end of day lies in `d`'s own day, and the next
      second starts the following day. */
  lemma EndOfDayWithinDay(cal: Calendar, d: Date)
    requires Exact(cal)
    ensures EndOfDay(cal, d).Some?
    ensures SameDay(EndOfDay(cal, d).value, d)
    ensures EndOfDay(cal, d).value + 1 == StartOfDay(d + SecondsPerDay)
  {
    assert cal.dateByAdding(Day, 1, d) == Some(d + 1 * ComponentSeconds(Day));
    var e := StartOfDay(d) + SecondsPerDay - 1;
    DayInterval(d, e);
    StartOfNextDay(d);
  }

  /** `Date.reduceOneHourFromCurrentTime()`: one hour before `now` by the
      calendar, falling back to `now`. The receiver plays no part. */
  function ReduceOneHourFromCurrentTime(cal: Calendar, now: Date, receiver: Date): (r: Date)
    ensures cal.dateByAdding(Hour, -1, now) == Some(r) || (cal.dateByAdding(Hour, -1, now).None? && r == now)
  {
    cal.dateByAdding(Hour, -1, now).GetOr(now)
  }

  /** With exact arithmetic the helper gives exactly one hour before now. */
  lemma ReduceOneHourExact(cal: Calendar, now: Date, receiver: Date)
    requires Exact(cal)
    ensures ReduceOneHourFromCurrentTime(cal, now, receiver) == now - SecondsPerHour
  {
    assert cal.dateByAdding(Hour, -1, now) == Some(now + -1 * ComponentSeconds(Hour));
  }

  /** The result is the same whichever date the helper is called on. */
  lemma ReduceOneHourIgnoresReceiver(cal: Calendar, now: Date, a: Date, b: Date)
    ensures ReduceOneHourFromCurrentTime(cal, now, a) == ReduceOneHourFromCurrentTime(cal, now, b)
  {
  }

  /** `Date.isToday()`: the date lies in the calendar day that holds `now`. */
  function IsToday(d: Date, now: Date): (r: bool)
    ensures r <==> StartOfDay(now) <= d < StartOfDay(now) + SecondsPerDay
  {
    DayInterval(now, d);
    SameDay(d, now)
  }
}
