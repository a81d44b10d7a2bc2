/** JavaScript `Date` values in local time. A time value is a count of
    milliseconds; the day number, time of day and weekday are derived from it
    as ECMAScript defines them (day 0 is Thursday, 1 January 1970), so the
    weekday convention is 0 = Sunday .. 6 = Saturday, as `getDay()` returns. */
module JsDate {
  import opened Wrappers
  import opened JsText

  const MinuteMs: int := 60000
  const HourMs: int := 3600000
  const DayMs: int := 86400000

  /** The day number of a time value (division rounds down). */
  function Day(t: int): int { t / DayMs }

  function TimeWithinDay(t: int): int { t % DayMs }

  /** `getHours()`. */
  function HourOf(t: int): int { TimeWithinDay(t) / HourMs }

  /** `getMinutes()`. */
  function MinuteOf(t: int): int { (TimeWithinDay(t) / MinuteMs) % 60 }

  /** `getDay()`: 0 = Sunday .. 6 = Saturday. */
  function WeekDay(t: int): (w: int)
    ensures 0 <= w < 7
  {
    (Day(t) + 4) % 7
  }

  /** The time value of `hour:minute:00.000` on day number `day`. Hours and
      minutes outside their ranges carry into neighbouring days, as
      `setHours` does. */
  function MakeLocal(day: int, hour: int, minute: int): int
  {
    day * DayMs + hour * HourMs + minute * MinuteMs
  }

  /** Division by the day length splits off a time within the day. */
  lemma DaySplit(day: int, within: int)
    requires 0 <= within < DayMs
    ensures (day * DayMs + within) / DayMs == day
    ensures (day * DayMs + within) % DayMs == within
  {
  }

  /** A time within the day reads back its hour and minute. */
  lemma ClockSplit(hour: int, minute: int)
    requires 0 <= hour < 24 && 0 <= minute < 60
    ensures (hour * HourMs + minute * MinuteMs) / HourMs == hour
    ensures ((hour * HourMs + minute * MinuteMs) / MinuteMs) % 60 == minute
  {
    assert hour * HourMs + minute * MinuteMs == (hour * 60 + minute) * MinuteMs;
    assert (hour * 60 + minute) * MinuteMs / MinuteMs == hour * 60 + minute;
  }

  /** With in-range fields, the built time value reads back the same day,
      hour and minute, and has zero seconds and milliseconds. */
  lemma MakeLocalFields(day: int, hour: int, minute: int)
    requires 0 <= hour < 24 && 0 <= minute < 60
    ensures Day(MakeLocal(day, hour, minute)) == day
    ensures HourOf(MakeLocal(day, hour, minute)) == hour
    ensures MinuteOf(MakeLocal(day, hour, minute)) == minute
    ensures MakeLocal(day, hour, minute) % MinuteMs == 0
  {
    var within := hour * HourMs + minute * MinuteMs;
    assert 0 <= within < DayMs;
    DaySplit(day, within);
    ClockSplit(hour, minute);
    assert MakeLocal(day, hour, minute) == (day * 1440 + hour * 60 + minute) * MinuteMs;
  }

  /** `toTimeString().slice(0, 5)`: the local time as `HH:MM`. */
  function ClockText(t: int): (s: string)
    ensures |s| == 5 && s[2] == ':'
  {
    Pad2(HourOf(t)) + ":" + Pad2(MinuteOf(t))
  }

  /** A mutable `Date` object. `time == None` is an invalid date (time value NaN). */
  class Date {
    var time: Option<int>

    /** `new Date()` at the clock reading `now`. */
    constructor At(now: int)
      ensures time == Some(now)
    {
      time := Some(now);
    }

    /** `new Date(other)`: a copy with the same time value. */
    constructor Copy(other: Date)
      ensures time == other.time
    {
      time := other.time;
    }

    /** `getDay()`, NaN on an invalid date. */
    function GetDay(): Option<int>
      reads this
    {
      if time.Some? then Some(WeekDay(time.value)) else None
    }

    /** `setDate(getDate() + n)`: moves the date `n` days, carrying across
        month and year ends and keeping the time of day. */
    method AddDays(n: int)
      modifies this
      ensures time == if old(time).Some? then Some(old(time).value + n * DayMs) else None
      ensures old(time).Some? ==> Day(time.value) == Day(old(time).value) + n
    {
      if time.Some? {
        time := Some(time.value + n * DayMs);
      }
    }

    /** `setHours(hour, minute, 0, 0)` on the current date; a NaN argument
        or an invalid date makes the date invalid. */
    method SetHours(hour: Option<int>, minute: Option<int>)
      modifies this
      ensures time == if old(time).Some? && hour.Some? && minute.Some?
                      then Some(MakeLocal(Day(old(time).value), hour.value, minute.value))
                      else None
    {
      if time.Some? && hour.Some? && minute.Some? {
        time := Some(MakeLocal(Day(time.value), hour.value, minute.value));
      } else {
        time := None;
      }
    }
  }
}
