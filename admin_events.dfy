/** The event part of the admin page: the weekday table, the multi-day
    event form, its toggle, its fan-out into one POST per selected day, and
    the edit pre-fill. */
module AdminEvents {
  import opened Wrappers
  import opened JsText
  import opened JsDate
  import opened Entities
  import Scheduling

  datatype DayOption = DayOption(value: int, name: string)

  /** `DAYS_OF_WEEK`: checkbox values and labels, in `getDay()` order. */
  const DaysOfWeek: seq<DayOption> := [
    DayOption(0, "Sunday"), DayOption(1, "Monday"), DayOption(2, "Tuesday"),
    DayOption(3, "Wednesday"), DayOption(4, "Thursday"), DayOption(5, "Friday"),
    DayOption(6, "Saturday")]

  /** The events table labels a row with the entry at index `getDay()`:
      the index is always in range and lands on the entry for that weekday. */
  lemma DaysOfWeekIndexedByWeekday(t: int)
    ensures |DaysOfWeek| == 7
    ensures 0 <= WeekDay(t) < |DaysOfWeek| && DaysOfWeek[WeekDay(t)].value == WeekDay(t)
  {
  }

  /** The event form's state record. */
  datatype EventForm = EventForm(
    placeId: string,
    activityId: string,
    selectedDays: seq<int>,
    startTime: string,
    endTime: string,
    description: string)

  /** The form as it starts and as it is reset. */
  const DefaultForm := EventForm("", "", [], "08:00", "10:00", "")

  /** `days.filter(d => d !== day)`: every occurrence of `day` removed, the
      rest in order. */
  function Without(days: seq<int>, day: int): (r: seq<int>)
    ensures day !in r
    ensures forall x :: x != day ==> (x in r <==> x in days)
    ensures |r| <= |days|
  {
    if days == [] then []
    else (if days[0] == day then [] else [days[0]]) + Without(days[1..], day)
  }

  /** Filtering out a value that is absent changes nothing. */
  lemma {:induction false} WithoutAbsent(days: seq<int>, day: int)
    requires day !in days
    ensures Without(days, day) == days
  {
    if days != [] {
      WithoutAbsent(days[1..], day);
      assert days == [days[0]] + days[1..];
    }
  }

  /** Filtering ignores a trailing copy of the value. */
  lemma {:induction false} WithoutAppended(days: seq<int>, day: int)
    ensures Without(days + [day], day) == Without(days, day)
  {
    if days == [] {
      assert Without([day], day) == [] + Without([], day);
    } else {
      assert (days + [day])[1..] == days[1..] + [day];
      WithoutAppended(days[1..], day);
    }
  }

  /** `handleDayToggle`: a selected day is removed (every copy), an
      unselected one is appended at the end; the other days keep their
      membership and their relative order. */
  function Toggle(days: seq<int>, day: int): (r: seq<int>)
    ensures day in r <==> day !in days
    ensures forall x :: x != day ==> (x in r <==> x in days)
    ensures Without(r, day) == Without(days, day)
    ensures day !in days ==> r == days + [day]
  {
    if day in days then
      WithoutAbsent(Without(days, day), day);
      Without(days, day)
    else
      WithoutAppended(days, day);
      days + [day]
  }

  /** Toggling an unselected day twice gives back the list exactly. */
  lemma ToggleTwiceRestores(days: seq<int>, day: int)
    requires day !in days
    ensures Toggle(Toggle(days, day), day) == days
  {
    WithoutAppended(days, day);
    WithoutAbsent(days, day);
  }

  /** Toggling a selected day twice moves it to the end (and drops any
      duplicate copies): the original order is not restored. */
  lemma ToggleTwiceMovesToEnd(days: seq<int>, day: int)
    requires day in days
    ensures Toggle(Toggle(days, day), day) == Without(days, day) + [day]
  {
  }

  /** The body POSTed for one selected day: `parseInt` of the two ids (NaN
      is sent as null, `None`), the day, and the form's other fields as they are. */
  function RequestFor(form: EventForm, day: int): Scheduling.EventRequest
  {
    Scheduling.EventRequest(ParseInt(form.placeId), ParseInt(form.activityId), day,
                            form.startTime, form.endTime, form.description)
  }

  /** `selectedDays.map(...)`: one request per selected day, in list order. */
  function Requests(form: EventForm, days: seq<int>): (reqs: seq<Scheduling.EventRequest>)
    ensures |reqs| == |days|
    ensures forall i :: 0 <= i < |days| ==> reqs[i] == RequestFor(form, days[i])
  {
    if days == [] then [] else [RequestFor(form, days[0])] + Requests(form, days[1..])
  }

  /** The form `handleEditEvent` loads: the ids as decimal text, the single
      weekday of the start, both times as `HH:MM`, a missing description as
      the empty string. */
  function FormFor(e: ListedEvent): EventForm
  {
    EventForm(NatToString(e.placeId), NatToString(e.activityId), [WeekDay(e.start)],
              ClockText(e.start), ClockText(e.end), e.description.GetOr(""))
  }

  /** Predicate: days are distinct weekdays in 0..6, as the checkboxes give. */
  predicate DistinctWeekdays(days: seq<int>)
  {
    && (forall i :: 0 <= i < |days| ==> 0 <= days[i] < 7)
    && (forall i, j :: 0 <= i < j < |days| ==> days[i] != days[j])
  }

  /** Filtering keeps the days distinct weekdays. */
  lemma {:induction false} WithoutKeepsDistinct(days: seq<int>, day: int)
    requires DistinctWeekdays(days)
    ensures DistinctWeekdays(Without(days, day))
  {
    if days != [] {
      var rest := Without(days[1..], day);
      assert DistinctWeekdays(days[1..]) by {
        assert forall i :: 0 <= i < |days[1..]| ==> days[1..][i] == days[i + 1];
      }
      WithoutKeepsDistinct(days[1..], day);
      if days[0] != day {
        assert days[0] !in days[1..] by {
          forall i | 0 <= i < |days[1..]| ensures days[1..][i] != days[0] {
            assert days[1..][i] == days[i + 1];
          }
        }
        var r := [days[0]] + rest;
        assert days[0] !in rest;
        forall i, j | 0 <= i < j < |r| ensures r[i] != r[j] {
          assert r[j] == rest[j - 1];
          if i > 0 {
            assert r[i] == rest[i - 1];
          } else {
            assert rest[j - 1] in rest;
          }
        }
        assert forall i :: 0 <= i < |r| ==> 0 <= r[i] < 7 by {
          forall i | 0 <= i < |r| ensures 0 <= r[i] < 7 {
            if i > 0 { assert r[i] == rest[i - 1]; }
          }
        }
      } else {
        assert [] + rest == rest;
      }
    }
  }

  /** Toggling a weekday keeps the selected days distinct weekdays, so the
      page only ever submits lists that FanOutDatesEachDay applies to (the
      form starts empty and an edit selects a single day). */
  lemma ToggleKeepsDistinct(days: seq<int>, day: int)
    requires DistinctWeekdays(days) && 0 <= day < 7
    ensures DistinctWeekdays(Toggle(days, day))
  {
    if day in days {
      WithoutKeepsDistinct(days, day);
    } else {
      var r := days + [day];
      forall i, j | 0 <= i < j < |r| ensures r[i] != r[j] {
        if j == |days| {
          assert r[i] == days[i];
        }
      }
    }
  }

  /** Submitting several days creates one event per day, each on its own
      weekday within the coming week, all at the same clock time, no two on
      the same date. */
  lemma FanOutDatesEachDay(form: EventForm, now: int)
    requires DistinctWeekdays(form.selectedDays) && Scheduling.WellFormedClock(form.startTime)
    ensures var reqs := Requests(form, form.selectedDays);
      forall i :: 0 <= i < |reqs| ==>
        && Scheduling.ScheduledEvent(reqs[i], now).start.Some?
        && WeekDay(Scheduling.ScheduledEvent(reqs[i], now).start.value) == form.selectedDays[i]
        && HourOf(Scheduling.ScheduledEvent(reqs[i], now).start.value) == Scheduling.ClockFields(form.startTime).0.value
        && MinuteOf(Scheduling.ScheduledEvent(reqs[i], now).start.value) == Scheduling.ClockFields(form.startTime).1.value
    ensures var reqs := Requests(form, form.selectedDays);
      forall i, j :: 0 <= i < j < |reqs| ==>
        Day(Scheduling.ScheduledEvent(reqs[i], now).start.value) != Day(Scheduling.ScheduledEvent(reqs[j], now).start.value)
  {
    var reqs := Requests(form, form.selectedDays);
    forall i | 0 <= i < |reqs|
      ensures Scheduling.ScheduledEvent(reqs[i], now).start.Some?
      ensures WeekDay(Scheduling.ScheduledEvent(reqs[i], now).start.value) == form.selectedDays[i]
      ensures HourOf(Scheduling.ScheduledEvent(reqs[i], now).start.value) == Scheduling.ClockFields(form.startTime).0.value
      ensures MinuteOf(Scheduling.ScheduledEvent(reqs[i], now).start.value) == Scheduling.ClockFields(form.startTime).1.value
    {
      Scheduling.ScheduledStart(reqs[i], now);
    }
    forall i, j | 0 <= i < j < |reqs|
      ensures Day(Scheduling.ScheduledEvent(reqs[i], now).start.value) != Day(Scheduling.ScheduledEvent(reqs[j], now).start.value)
    {
      Scheduling.ScheduledStart(reqs[i], now);
      Scheduling.ScheduledStart(reqs[j], now);
    }
  }

  /** Editing an event and submitting the loaded form asks for one event on
      the same weekday, place and activity, at the same start and end clock
      times (to the minute). */
  lemma EditedFormReschedules(e: ListedEvent, now: int)
    ensures var reqs := Requests(FormFor(e), FormFor(e).selectedDays);
      && |reqs| == 1
      && reqs[0].placeId == Some(e.placeId as int) && reqs[0].activityId == Some(e.activityId as int)
      && var ev := Scheduling.ScheduledEvent(reqs[0], now);
      && ev.start.Some? && ev.end.Some?
      && WeekDay(ev.start.value) == WeekDay(e.start)
      && HourOf(ev.start.value) == HourOf(e.start) && MinuteOf(ev.start.value) == MinuteOf(e.start)
      && HourOf(ev.end.value) == HourOf(e.end) && MinuteOf(ev.end.value) == MinuteOf(e.end)
  {
    var form := FormFor(e);
    var reqs := Requests(form, form.selectedDays);
    ParseIntOfNatToString(e.placeId);
    ParseIntOfNatToString(e.activityId);
    Scheduling.ClockFieldsOfPadded(HourOf(e.start), MinuteOf(e.start));
    Scheduling.ClockFieldsOfPadded(HourOf(e.end), MinuteOf(e.end));
    Scheduling.ScheduledStart(reqs[0], now);
    Scheduling.OnTargetDay(reqs[0].dayOfWeek, now, HourOf(e.end), MinuteOf(e.end));
  }

  /** The admin page's event-form state. */
  class AdminPage {
    var eventForm: EventForm
    var editingEvent: Option<ListedEvent>

    constructor ()
      ensures eventForm == DefaultForm && editingEvent == None
    {
      eventForm := DefaultForm;
      editingEvent := None;
    }

    /** A weekday checkbox changed. */
    method ToggleDay(dayValue: int)
      modifies this
      ensures eventForm == old(eventForm).(selectedDays := Toggle(old(eventForm).selectedDays, dayValue))
      ensures editingEvent == old(editingEvent)
    {
      eventForm := eventForm.(selectedDays := Toggle(eventForm.selectedDays, dayValue));
    }

    /** `handleEventSubmit`: with no day selected nothing is sent and nothing
        changes; otherwise one request per selected day is sent, and the form
        goes back to its defaults only if every reply is ok (`replyOk(i)` is
        the i-th reply). A failed or not-ok reply keeps the form. */
    method SubmitEvents(replyOk: nat -> bool) returns (sent: seq<Scheduling.EventRequest>)
      modifies this
      ensures old(eventForm).selectedDays == [] ==> sent == [] && eventForm == old(eventForm)
      ensures sent == Requests(old(eventForm), old(eventForm).selectedDays)
      ensures eventForm == if old(eventForm).selectedDays != [] && (forall i :: 0 <= i < |sent| ==> replyOk(i))
                           then DefaultForm else old(eventForm)
      ensures editingEvent == old(editingEvent)
    {
      if |eventForm.selectedDays| == 0 {
        sent := [];
        return;
      }
      sent := Requests(eventForm, eventForm.selectedDays);
      var allSuccessful := forall i :: 0 <= i < |sent| ==> replyOk(i);
      if allSuccessful {
        eventForm := DefaultForm;
      }
    }

    /** `handleEditEvent`: remember the event and load it into the form. */
    method EditEvent(e: ListedEvent)
      modifies this
      ensures editingEvent == Some(e) && eventForm == FormFor(e)
      ensures eventForm.selectedDays == [WeekDay(e.start)]
    {
      editingEvent := Some(e);
      eventForm := FormFor(e);
    }

    /** `handleCancelEdit`, as far as the event form goes. */
    method CancelEdit()
      modifies this
      ensures editingEvent == None && eventForm == DefaultForm
    {
      editingEvent := None;
      eventForm := DefaultForm;
    }
  }
}
