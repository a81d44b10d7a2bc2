/** POST /api/events: an admin submits a weekday and two `HH:MM` clock times;
    the handler dates the event on the nearest day with that weekday, counting
    today, and saves one event row. */
module Scheduling {
  import opened Wrappers
  import opened JsText
  import opened JsDate

  /** The JSON body of POST /api/events. */
  datatype EventRequest = EventRequest(
    placeId: Option<int>,
    activityId: Option<int>,
    dayOfWeek: int,
    startTime: string,
    endTime: string,
    description: string)

  /** The event entity as the handler fills it in; `None` for start or end is
      an invalid `Date`. */
  datatype EventRecord = EventRecord(
    placeId: Option<int>,
    activityId: Option<int>,
    start: Option<int>,
    end: Option<int>,
    description: string)

  /** JavaScript's `a % 7`: division truncates, so the remainder has the
      sign of `a` (Dafny's `%` never goes negative). */
  function JsRem7(a: int): (r: int)
    ensures -7 < r < 7 && (a - r) % 7 == 0
    ensures a >= 0 ==> r >= 0
    ensures a <= 0 ==> r <= 0
  {
    if a >= 0 then a % 7 else -((-a) % 7)
  }

  /** `(dayOfWeek - today.getDay() + 7) % 7`: an offset below a week in
      magnitude that moves `today` onto `dayOfWeek` modulo 7, whatever the
      inputs. */
  function DaysUntilTarget(dayOfWeek: int, today: int): (r: int)
    ensures -7 < r < 7
    ensures (today + r - dayOfWeek) % 7 == 0
  {
    JsRem7(dayOfWeek - today + 7)
  }

  /** For a weekday in 0..6 the offset is in 0..6 and lands on that weekday:
      0 when it is today, 1 for tomorrow, 6 for yesterday. */
  lemma DaysUntilTargetInWeek(dayOfWeek: int, today: int)
    requires 0 <= dayOfWeek < 7 && 0 <= today < 7
    ensures 0 <= DaysUntilTarget(dayOfWeek, today) < 7
    ensures (today + DaysUntilTarget(dayOfWeek, today)) % 7 == dayOfWeek
    ensures dayOfWeek == today ==> DaysUntilTarget(dayOfWeek, today) == 0
    ensures dayOfWeek == (today + 1) % 7 ==> DaysUntilTarget(dayOfWeek, today) == 1
    ensures dayOfWeek == (today + 6) % 7 ==> DaysUntilTarget(dayOfWeek, today) == 6
  {
  }

  /** `s.split(':').map(Number)` destructured into hour and minute; a missing
      minute field is `undefined`, which `setHours` reads as NaN. */
  function ClockFields(s: string): (r: (Option<int>, Option<int>))
    ensures ':' !in s ==> r == (ToNumber(s), None)
  {
    var parts := Split(s, ':');
    assert ':' !in s ==> parts == [s] by {
      if ':' !in s {
        SplitWithoutSeparator(s, ':');
      }
    }
    (ToNumber(parts[0]), if |parts| >= 2 then ToNumber(parts[1]) else None)
  }

  /** The `HH:MM` text the client produces reads back as its hour and minute. */
  lemma ClockFieldsOfPadded(hour: nat, minute: nat)
    requires hour < 100 && minute < 100
    ensures ClockFields(Pad2(hour) + ":" + Pad2(minute)) == (Some(hour), Some(minute))
  {
    var parts := [Pad2(hour), Pad2(minute)];
    assert Join(parts, ':') == Pad2(hour) + ":" + Pad2(minute);
    forall i | 0 <= i < 2 ensures ':' !in parts[i] {
      assert AllDigits(parts[i]);
    }
    SplitOfJoin(parts, ':');
    ToNumberOfPad2(hour);
    ToNumberOfPad2(minute);
  }

  /** A clock text is well formed when it reads as an hour in 0..23 and a
      minute in 0..59. */
  predicate WellFormedClock(s: string)
  {
    var (h, m) := ClockFields(s);
    h.Some? && m.Some? && 0 <= h.value < 24 && 0 <= m.value < 60
  }

  /** Adding to a number or to its remainder gives the same remainder. */
  lemma ShiftModSeven(a: int, b: int)
    ensures (a + b) % 7 == (a % 7 + b) % 7
  {
    var q := a / 7;
    assert a + b == 7 * q + (a % 7 + b);
  }

  /** The day number the event is dated on. */
  function TargetDay(dayOfWeek: int, now: int): (day: int)
    ensures 0 <= dayOfWeek < 7 ==> 0 <= day - Day(now) < 7 && (day + 4) % 7 == dayOfWeek
  {
    assert 0 <= dayOfWeek < 7 ==> (Day(now) + DaysUntilTarget(dayOfWeek, WeekDay(now)) + 4) % 7 == dayOfWeek by {
      if 0 <= dayOfWeek < 7 {
        var offset := DaysUntilTarget(dayOfWeek, WeekDay(now));
        DaysUntilTargetInWeek(dayOfWeek, WeekDay(now));
        ShiftModSeven(Day(now) + 4, offset);
      }
    }
    Day(now) + DaysUntilTarget(dayOfWeek, WeekDay(now))
  }

  /** The time value of `clock` on day number `day`, as `setHours(h, m, 0, 0)` gives it. */
  function TimeOn(day: int, clock: string): (t: Option<int>)
    ensures t.Some? <==> ClockFields(clock).0.Some? && ClockFields(clock).1.Some?
    ensures WellFormedClock(clock) ==>
      && Day(t.value) == day && t.value % MinuteMs == 0
      && HourOf(t.value) == ClockFields(clock).0.value && MinuteOf(t.value) == ClockFields(clock).1.value
  {
    assert WellFormedClock(clock) ==>
      var (h, m) := ClockFields(clock);
      && Day(MakeLocal(day, h.value, m.value)) == day && MakeLocal(day, h.value, m.value) % MinuteMs == 0
      && HourOf(MakeLocal(day, h.value, m.value)) == h.value && MinuteOf(MakeLocal(day, h.value, m.value)) == m.value
    by {
      if WellFormedClock(clock) {
        MakeLocalFields(day, ClockFields(clock).0.value, ClockFields(clock).1.value);
      }
    }
    var (h, m) := ClockFields(clock);
    if h.Some? && m.Some? then Some(MakeLocal(day, h.value, m.value)) else None
  }

  /** The event the handler builds from `body` when the clock reads `now`. */
  function ScheduledEvent(body: EventRequest, now: int): (e: EventRecord)
    ensures e.placeId == body.placeId && e.activityId == body.activityId && e.description == body.description
    ensures e.start.Some? <==> ClockFields(body.startTime).0.Some? && ClockFields(body.startTime).1.Some?
    ensures e.end.Some? <==> ClockFields(body.endTime).0.Some? && ClockFields(body.endTime).1.Some?
  {
    var day := TargetDay(body.dayOfWeek, now);
    EventRecord(body.placeId, body.activityId, TimeOn(day, body.startTime), TimeOn(day, body.endTime),
                body.description)
  }

  /** The handler body: `Date` objects are copied and adjusted in place, then
      the event's fields are filled in. */
  method CreateEvent(body: EventRequest, now: int) returns (event: EventRecord)
    ensures event == ScheduledEvent(body, now)
  {
    var today := new Date.At(now);
    var weekday := today.GetDay();
    var daysUntilTarget := JsRem7(body.dayOfWeek - weekday.value + 7);
    var targetDate := new Date.Copy(today);
    targetDate.AddDays(daysUntilTarget);
    var (startHour, startMinute) := ClockFields(body.startTime);
    var (endHour, endMinute) := ClockFields(body.endTime);
    var startDateTime := new Date.Copy(targetDate);
    startDateTime.SetHours(startHour, startMinute);
    var endDateTime := new Date.Copy(targetDate);
    endDateTime.SetHours(endHour, endMinute);
    event := EventRecord(body.placeId, body.activityId, startDateTime.time, endDateTime.time, body.description);
  }

  /** A well-formed start time on a weekday in 0..6 gives a start within the
      coming week (today included), on that weekday, at exactly that hour and
      minute, with zero seconds and milliseconds. */
  lemma ScheduledStart(body: EventRequest, now: int)
    requires 0 <= body.dayOfWeek < 7 && WellFormedClock(body.startTime)
    ensures ScheduledEvent(body, now).start.Some?
    ensures var t := ScheduledEvent(body, now).start.value;
      && 0 <= Day(t) - Day(now) < 7
      && WeekDay(t) == body.dayOfWeek
      && (HourOf(t), MinuteOf(t)) == (ClockFields(body.startTime).0.value, ClockFields(body.startTime).1.value)
      && t % MinuteMs == 0
  {
    var (h, m) := ClockFields(body.startTime);
    OnTargetDay(body.dayOfWeek, now, h.value, m.value);
  }

  /** The arithmetic behind ScheduledStart and StartAndEndShareDate. */
  lemma OnTargetDay(dayOfWeek: int, now: int, hour: int, minute: int)
    requires 0 <= dayOfWeek < 7 && 0 <= hour < 24 && 0 <= minute < 60
    ensures var t := MakeLocal(TargetDay(dayOfWeek, now), hour, minute);
      && Day(t) == TargetDay(dayOfWeek, now)
      && 0 <= Day(t) - Day(now) < 7
      && WeekDay(t) == dayOfWeek
      && HourOf(t) == hour && MinuteOf(t) == minute
      && t % MinuteMs == 0
  {
    var today := WeekDay(now);
    var offset := DaysUntilTarget(dayOfWeek, today);
    DaysUntilTargetInWeek(dayOfWeek, today);
    MakeLocalFields(TargetDay(dayOfWeek, now), hour, minute);
    assert (Day(now) + offset + 4) % 7 == (today + offset) % 7;
  }

  /** The end is dated like the start: both fall on the same calendar day. */
  lemma StartAndEndShareDate(body: EventRequest, now: int)
    requires 0 <= body.dayOfWeek < 7
    requires WellFormedClock(body.startTime) && WellFormedClock(body.endTime)
    ensures ScheduledEvent(body, now).start.Some? && ScheduledEvent(body, now).end.Some?
    ensures Day(ScheduledEvent(body, now).start.value) == Day(ScheduledEvent(body, now).end.value)
            == TargetDay(body.dayOfWeek, now)
  {
    var (h, m) := ClockFields(body.startTime);
    var (h', m') := ClockFields(body.endTime);
    OnTargetDay(body.dayOfWeek, now, h.value, m.value);
    OnTargetDay(body.dayOfWeek, now, h'.value, m'.value);
  }

  /** When the requested weekday is today the event is dated today, whatever
      the time: there is no roll-over to next week. */
  lemma TodayIsNeverRolledOver(body: EventRequest, now: int)
    requires body.dayOfWeek == WeekDay(now) && WellFormedClock(body.startTime)
    ensures ScheduledEvent(body, now).start.Some?
    ensures Day(ScheduledEvent(body, now).start.value) == Day(now)
  {
    DaysUntilTargetInWeek(body.dayOfWeek, WeekDay(now));
    ScheduledStart(body, now);
  }

  /** The client's default start time reads as 8 o'clock. */
  lemma EightOClock()
    ensures ClockFields("08:00") == (Some(8), Some(0))
  {
    assert "08:00" == Pad2(8) + ":" + Pad2(0);
    ClockFieldsOfPadded(8, 0);
  }

  /** The client's default end time reads as 10 o'clock. */
  lemma TenOClock()
    ensures ClockFields("10:00") == (Some(10), Some(0))
  {
    assert "10:00" == Pad2(10) + ":" + Pad2(0);
    ClockFieldsOfPadded(10, 0);
  }

  /** Asked at 20:00 for today's weekday with a start time that reads as
      08:00, the event starts twelve hours before the request. */
  lemma MorningOfTodayIsPast(body: EventRequest, day: int)
    requires body.dayOfWeek == WeekDay(MakeLocal(day, 20, 0))
    requires ClockFields(body.startTime) == (Some(8), Some(0))
    ensures ScheduledEvent(body, MakeLocal(day, 20, 0)).start == Some(MakeLocal(day, 20, 0) - 12 * HourMs)
  {
    var now := MakeLocal(day, 20, 0);
    assert TargetDay(body.dayOfWeek, now) == day by {
      MakeLocalFields(day, 20, 0);
      DaysUntilTargetInWeek(WeekDay(now), WeekDay(now));
    }
  }

  /** Concretely: asked at 20:00 for today's weekday at 08:00, the saved event
      starts twelve hours in the past. */
  lemma StartMayBeInThePast(day: int)
    ensures var now := MakeLocal(day, 20, 0);
      var body := EventRequest(Some(1), Some(1), WeekDay(now), "08:00", "10:00", "");
      ScheduledEvent(body, now).start == Some(now - 12 * HourMs)
  {
    EightOClock();
    MorningOfTodayIsPast(EventRequest(Some(1), Some(1), WeekDay(MakeLocal(day, 20, 0)), "08:00", "10:00", ""), day);
  }

  /** Nothing compares end with start: a 10:00 to 08:00 request is built with
      its end two hours before its start. */
  lemma EndBeforeStartIsKept(dayOfWeek: int, now: int)
    requires 0 <= dayOfWeek < 7
    ensures var e := ScheduledEvent(EventRequest(Some(1), Some(1), dayOfWeek, "10:00", "08:00", ""), now);
      e.start.Some? && e.end.Some? && e.end.value == e.start.value - 2 * HourMs
  {
    EightOClock();
    TenOClock();
  }
}
