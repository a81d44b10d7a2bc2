/** The edit-event modal: its six form fields, the open/pre-fill effect,
    the place selector's disabled rule and the submit validator. */
module EventModal {
  import opened Wrappers
  import opened JsText
  import opened JsDate
  import opened Entities

  /** A `number | string` state value. The selects store `Number(value)`;
      `Num(None)` is NaN. */
  datatype Field = Str(s: string) | Num(n: Option<int>)

  /** JavaScript truthiness of a field: `''`, `0` and NaN are falsy. */
  predicate Truthy(f: Field)
  {
    match f
    case Str(s) => s != ""
    case Num(n) => n.Some? && n.value != 0
  }

  /** `Number(f)`: a number is kept, a string is converted (NaN is `None`). */
  function NumberOf(f: Field): (r: Option<int>)
    ensures f.Num? ==> r == f.n
    ensures f.Str? && AllDigits(f.s) ==> r == Some(DigitsValue(f.s))
  {
    match f
    case Str(s) => ToNumber(s)
    case Num(n) => n
  }

  /** The six form fields; `description` is `None` when the event's
      description is null. */
  datatype ModalFields = ModalFields(
    placeId: Field,
    activityId: Field,
    dayOfWeek: Field,
    startTime: string,
    endTime: string,
    description: Option<string>)

  /** The argument handed to `onSave`. */
  datatype SavePayload = SavePayload(
    placeId: Option<int>,
    activityId: Option<int>,
    dayOfWeek: Option<int>,
    startTime: string,
    endTime: string,
    description: string)

  /** Every field reset to `''`. */
  const Cleared := ModalFields(Str(""), Str(""), Str(""), "", "", Some(""))

  /** The fields loaded from an event being edited. */
  function Prefilled(e: ListedEvent): ModalFields
  {
    ModalFields(Num(Some(e.placeId as int)), Num(Some(e.activityId as int)), Num(Some(WeekDay(e.start))),
                ClockText(e.start), ClockText(e.end), e.description)
  }

  /** Predicate: every one of the six fields is truthy. */
  predicate AllFilled(f: ModalFields)
  {
    Truthy(f.placeId) && Truthy(f.activityId) && Truthy(f.dayOfWeek)
    && f.startTime != "" && f.endTime != "" && f.description.Some? && f.description.value != ""
  }

  /** `handleSubmit`: if any field is falsy nothing is saved; otherwise the
      payload carries the three ids as numbers and the three strings as they
      are. */
  function Validate(f: ModalFields): (payload: Option<SavePayload>)
    ensures payload.Some? <==> AllFilled(f)
    ensures payload.Some? ==>
      && payload.value.placeId == NumberOf(f.placeId)
      && payload.value.activityId == NumberOf(f.activityId)
      && payload.value.dayOfWeek == NumberOf(f.dayOfWeek)
      && payload.value.startTime == f.startTime && payload.value.endTime == f.endTime
      && Some(payload.value.description) == f.description
  {
    if !AllFilled(f) then None
    else Some(SavePayload(NumberOf(f.placeId), NumberOf(f.activityId), NumberOf(f.dayOfWeek),
                          f.startTime, f.endTime, f.description.value))
  }

  /** A day of week of 0 (Sunday, whether chosen in the select or loaded
      from an event) is falsy, so the form never saves a Sunday. */
  lemma SundayNeverSubmitted(f: ModalFields)
    requires f.dayOfWeek == Num(Some(0))
    ensures Validate(f) == None
  {
  }

  /** Editing an event that starts on a Sunday can never be saved. */
  lemma SundayEventCannotBeSaved(e: ListedEvent)
    requires WeekDay(e.start) == 0
    ensures Validate(Prefilled(e)) == None
  {
    SundayNeverSubmitted(Prefilled(e));
  }

  /** Saving an edited event that is not on a Sunday and has a description
      hands back the event's own place, activity, weekday, clock times and
      description. */
  lemma PrefilledRoundTrip(e: ListedEvent)
    requires WeekDay(e.start) != 0 && e.placeId != 0 && e.activityId != 0
    requires e.description.Some? && e.description.value != ""
    ensures Validate(Prefilled(e)) == Some(SavePayload(Some(e.placeId as int), Some(e.activityId as int),
      Some(WeekDay(e.start)), ClockText(e.start), ClockText(e.end), e.description.value))
  {
  }

  /** The presence test the form evidently means: ids chosen (non-zero), a
      day of week chosen in 0..6 (Sunday included), the strings non-empty. */
  predicate AllChosen(f: ModalFields)
  {
    Truthy(f.placeId) && Truthy(f.activityId)
    && f.dayOfWeek.Num? && f.dayOfWeek.n.Some? && 0 <= f.dayOfWeek.n.value < 7
    && f.startTime != "" && f.endTime != "" && f.description.Some? && f.description.value != ""
  }

  /** The submit check with Sunday accepted. */
  function ValidateChosen(f: ModalFields): (payload: Option<SavePayload>)
    ensures payload.Some? <==> AllChosen(f)
    ensures payload.Some? ==>
      && payload.value.placeId == NumberOf(f.placeId)
      && payload.value.activityId == NumberOf(f.activityId)
      && payload.value.dayOfWeek == NumberOf(f.dayOfWeek)
      && payload.value.startTime == f.startTime && payload.value.endTime == f.endTime
      && Some(payload.value.description) == f.description
  {
    if !AllChosen(f) then None
    else Some(SavePayload(NumberOf(f.placeId), NumberOf(f.activityId), NumberOf(f.dayOfWeek),
                          f.startTime, f.endTime, f.description.value))
  }

  /** With Sunday accepted, every edited event with ids and a description
      can be saved unchanged, whatever its weekday; on a day of week in 1..6
      the two checks agree. */
  lemma ChosenAcceptsEveryWeekday(e: ListedEvent, f: ModalFields)
    requires e.placeId != 0 && e.activityId != 0
    requires e.description.Some? && e.description.value != ""
    requires f.dayOfWeek.Num? && f.dayOfWeek.n.Some? && 1 <= f.dayOfWeek.n.value < 7
    ensures ValidateChosen(Prefilled(e)) == Some(SavePayload(Some(e.placeId as int), Some(e.activityId as int),
      Some(WeekDay(e.start)), ClockText(e.start), ClockText(e.end), e.description.value))
    ensures ValidateChosen(f) == Validate(f)
  {
  }

  /** The place select is disabled when a Place Owner edits an existing
      event (`isPlaceOwner` is the auth context's role test). */
  predicate PlaceSelectorDisabled(isPlaceOwner: bool, event: Option<ListedEvent>)
  {
    isPlaceOwner && event.Some?
  }

  /** The modal's form state. */
  class EditEventModal {
    var placeId: Field
    var activityId: Field
    var dayOfWeek: Field
    var startTime: string
    var endTime: string
    var description: Option<string>

    constructor ()
      ensures Fields() == Cleared
    {
      placeId := Str("");
      activityId := Str("");
      dayOfWeek := Str("");
      startTime := "";
      endTime := "";
      description := Some("");
    }

    /** The six fields as one value. */
    function Fields(): ModalFields
      reads this
    {
      ModalFields(placeId, activityId, dayOfWeek, startTime, endTime, description)
    }

    /** The open effect: nothing while closed; opened on an event the form
        is pre-filled from it, opened without one every field is cleared. */
    method Open(isOpen: bool, event: Option<ListedEvent>)
      modifies this
      ensures !isOpen ==> Fields() == old(Fields())
      ensures isOpen && event.Some? ==> Fields() == Prefilled(event.value)
      ensures isOpen && event.None? ==> Fields() == Cleared
    {
      if isOpen {
        if event.Some? {
          var e := event.value;
          placeId := Num(Some(e.placeId as int));
          activityId := Num(Some(e.activityId as int));
          dayOfWeek := Num(Some(WeekDay(e.start)));
          startTime := ClockText(e.start);
          endTime := ClockText(e.end);
          description := e.description;
        } else {
          placeId := Str("");
          activityId := Str("");
          dayOfWeek := Str("");
          startTime := "";
          endTime := "";
          description := Some("");
        }
      }
    }

    /** The place select's change handler; a disabled select delivers no
        change, so a Place Owner editing an event keeps its place. */
    method ChoosePlace(value: string, isPlaceOwner: bool, event: Option<ListedEvent>)
      modifies this
      ensures PlaceSelectorDisabled(isPlaceOwner, event) ==> Fields() == old(Fields())
      ensures !PlaceSelectorDisabled(isPlaceOwner, event) ==>
        Fields() == old(Fields()).(placeId := Num(ToNumber(value)))
    {
      if !PlaceSelectorDisabled(isPlaceOwner, event) {
        placeId := Num(ToNumber(value));
      }
    }
  }
}
