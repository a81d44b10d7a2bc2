/** GET /api/places: places left-joined with their events (and each event's
    activity), narrowed by up to four optional query parameters whose
    conditions are conjoined; the answer is the places that keep a row. */
module PlaceSearch {
  import opened Wrappers
  import opened JsText
  import opened JsDate
  import opened Entities

  /** The query string as the handler reads it; absent parameters are `None`. */
  datatype SearchQuery = SearchQuery(
    area: Option<string>,
    activity: Option<string>,
    day: Option<string>,
    nearMe: Option<string>)

  /** JavaScript truthiness of a query parameter: present and not empty.
      The string `"0"` is truthy. */
  predicate Truthy(p: Option<string>) { p.Some? && p.value != "" }

  /** One row of `place LEFT JOIN event`. */
  datatype Row = Row(place: Place, event: Option<StoredEvent>)

  /** The events of place `p`, in table order. */
  function EventsOf(p: Place, events: seq<StoredEvent>): (r: seq<StoredEvent>)
    ensures forall e :: e in r <==> e in events && e.placeId == p.id
  {
    if events == [] then []
    else (if events[0].placeId == p.id then [events[0]] else []) + EventsOf(p, events[1..])
  }

  /** Which event a left-join row of `p` may carry: one of its events, or
      none when it has no event at all. */
  predicate JoinedEvent(p: Place, events: seq<StoredEvent>, e: Option<StoredEvent>)
  {
    match e
    case None => forall x :: x in events ==> x.placeId != p.id
    case Some(x) => x in events && x.placeId == p.id
  }

  /** The rows the join produces for one place: one per event, or a single
      row without an event. */
  function RowsOfPlace(p: Place, events: seq<StoredEvent>): (rows: seq<Row>)
    ensures |rows| >= 1
    ensures forall row :: row in rows <==> row.place == p && JoinedEvent(p, events, row.event)
  {
    var evs := EventsOf(p, events);
    if evs == [] then [Row(p, None)]
    else
      var rows := seq(|evs|, i requires 0 <= i < |evs| => Row(p, Some(evs[i])));
      assert evs[0] in events && evs[0].placeId == p.id;
      assert forall row :: row in rows ==> row.event.Some? && row.event.value in evs;
      assert forall e :: e in evs ==> Row(p, Some(e)) in rows by {
        forall e | e in evs ensures Row(p, Some(e)) in rows {
          var i :| 0 <= i < |evs| && evs[i] == e;
          assert rows[i] == Row(p, Some(e));
        }
      }
      rows
  }

  /** `place LEFT JOIN event ON event.placeId = place.id`. */
  function LeftJoin(places: seq<Place>, events: seq<StoredEvent>): (rows: seq<Row>)
    ensures forall row :: row in rows <==> row.place in places && JoinedEvent(row.place, events, row.event)
  {
    if places == [] then []
    else RowsOfPlace(places[0], events) + LeftJoin(places[1..], events)
  }

  /** The number the string parameter `activity` is compared with, read
      here as an optional sign and leading decimal digits, 0 if there are
      none. MySQL itself reads the string's full decimal value after leading
      blanks; the difference is listed with what the model leaves out. */
  function SqlNumber(s: string): int { ParseInt(s).GetOr(0) }

  /** MySQL's `DAYOFWEEK`: 1 = Sunday .. 7 = Saturday. */
  function DbDayOfWeek(t: int): int { WeekDay(t) + 1 }

  /** The `:dayOfWeek` parameter, `parseInt(day) === 0 ? 1 : parseInt(day) + 1`:
      both branches add one (0 -> 1, ..., 6 -> 7), mapping the JavaScript
      weekday onto MySQL's; NaN stays NaN (`None`). */
  function DayParameter(day: string): (k: Option<int>)
    ensures ParseInt(day).Some? <==> k.Some?
    ensures ParseInt(day).Some? ==> k.value == ParseInt(day).value + 1
    ensures forall t :: ParseInt(day) == Some(WeekDay(t)) <==> k == Some(DbDayOfWeek(t))
  {
    match ParseInt(day)
    case None => None
    case Some(d) => Some(if d == 0 then 1 else d + 1)
  }

  /** A condition the handler adds to the query builder. */
  datatype Condition =
    | AreaIs(area: string)
    | ActivityIs(param: string)
    | DayOfWeekIs(dayOfWeek: Option<int>)
    | HasEvent

  /** SQL truth of one condition on one row; a comparison with NULL (no
      joined event or activity) or with a NaN parameter keeps no row. */
  predicate Holds(c: Condition, row: Row)
  {
    match c
    case AreaIs(a) => row.place.area == a
    case ActivityIs(p) => row.event.Some? && row.event.value.activityId == Some(SqlNumber(p))
    case DayOfWeekIs(k) => row.event.Some? && k.Some? && DbDayOfWeek(row.event.value.start) == k.value
    case HasEvent => row.event.Some?
  }

  /** `where`/`andWhere` conjoin every condition. */
  predicate HoldsAll(conds: seq<Condition>, row: Row)
  {
    forall i :: 0 <= i < |conds| ==> Holds(conds[i], row)
  }

  /** What the search is meant to select, stated directly: the area when it
      is given and `nearMe` is not; the activity; the JavaScript weekday
      (0 = Sunday) of the event's start; and, for `nearMe`, an event. */
  predicate Wanted(q: SearchQuery, row: Row)
  {
    AreaWanted(q, row) && ActivityWanted(q, row) && DayWanted(q, row) && NearMeWanted(q, row)
  }

  predicate AreaWanted(q: SearchQuery, row: Row)
  {
    Truthy(q.area) && !Truthy(q.nearMe) ==> row.place.area == q.area.value
  }

  predicate ActivityWanted(q: SearchQuery, row: Row)
  {
    Truthy(q.activity) ==> row.event.Some? && row.event.value.activityId == Some(SqlNumber(q.activity.value))
  }

  predicate DayWanted(q: SearchQuery, row: Row)
  {
    Truthy(q.day) ==> row.event.Some? && ParseInt(q.day.value) == Some(WeekDay(row.event.value.start))
  }

  predicate NearMeWanted(q: SearchQuery, row: Row)
  {
    Truthy(q.nearMe) ==> row.event.Some?
  }

  /** Adding a condition conjoins it. */
  lemma HoldsAllAppend(conds: seq<Condition>, c: Condition, row: Row)
    ensures HoldsAll(conds + [c], row) <==> HoldsAll(conds, row) && Holds(c, row)
  {
    assert forall i :: 0 <= i < |conds| ==> (conds + [c])[i] == conds[i];
    assert (conds + [c])[|conds|] == c;
  }

  /** The handler extends the query builder one condition at a time; the
      conditions it ends with select exactly the wanted rows, so the
      0-based-to-DAYOFWEEK adaptation is right for every day. */
  method BuildQuery(q: SearchQuery) returns (conds: seq<Condition>)
    ensures |conds| <= 4
    ensures forall row :: HoldsAll(conds, row) <==> Wanted(q, row)
  {
    conds := [];
    if Truthy(q.area) && !Truthy(q.nearMe) {
      forall row ensures HoldsAll(conds + [AreaIs(q.area.value)], row) <==> HoldsAll(conds, row) && AreaWanted(q, row) {
        HoldsAllAppend(conds, AreaIs(q.area.value), row);
      }
      conds := conds + [AreaIs(q.area.value)];
    }
    assert forall row :: HoldsAll(conds, row) <==> AreaWanted(q, row);
    ghost var before := conds;
    if Truthy(q.activity) {
      forall row ensures HoldsAll(conds + [ActivityIs(q.activity.value)], row) <==> HoldsAll(conds, row) && ActivityWanted(q, row) {
        HoldsAllAppend(conds, ActivityIs(q.activity.value), row);
      }
      conds := conds + [ActivityIs(q.activity.value)];
    }
    assert forall row :: HoldsAll(conds, row) <==> HoldsAll(before, row) && ActivityWanted(q, row);
    before := conds;
    if Truthy(q.day) {
      var param := DayParameter(q.day.value);
      forall row ensures HoldsAll(conds + [DayOfWeekIs(param)], row) <==> HoldsAll(conds, row) && DayWanted(q, row) {
        HoldsAllAppend(conds, DayOfWeekIs(param), row);
      }
      conds := conds + [DayOfWeekIs(param)];
    }
    assert forall row :: HoldsAll(conds, row) <==> HoldsAll(before, row) && DayWanted(q, row);
    before := conds;
    if Truthy(q.nearMe) {
      forall row ensures HoldsAll(conds + [HasEvent], row) <==> HoldsAll(conds, row) && NearMeWanted(q, row) {
        HoldsAllAppend(conds, HasEvent, row);
      }
      conds := conds + [HasEvent];
    }
    assert forall row :: HoldsAll(conds, row) <==> HoldsAll(before, row) && NearMeWanted(q, row);
  }

  /** The rows the conditions keep, in join order. */
  function FilterRows(q: SearchQuery, rows: seq<Row>): (kept: seq<Row>)
    ensures |kept| <= |rows|
    ensures forall row :: row in kept <==> row in rows && Wanted(q, row)
  {
    if rows == [] then []
    else (if Wanted(q, rows[0]) then [rows[0]] else []) + FilterRows(q, rows[1..])
  }

  /** The ids of the places `getMany` returns: those with a kept row. */
  function SearchPlaces(q: SearchQuery, places: seq<Place>, events: seq<StoredEvent>): (ids: set<int>)
    ensures forall id :: id in ids <==>
      exists row :: row in LeftJoin(places, events) && Wanted(q, row) && row.place.id == id
  {
    set row | row in FilterRows(q, LeftJoin(places, events)) :: row.place.id
  }

  /** Every place has a row in the join. */
  lemma {:induction false} EveryPlaceJoins(p: Place, places: seq<Place>, events: seq<StoredEvent>)
    requires p in places
    ensures exists row :: row in LeftJoin(places, events) && row.place == p
  {
    var evs := EventsOf(p, events);
    if evs == [] {
      assert Row(p, None) in LeftJoin(places, events);
    } else {
      assert Row(p, Some(evs[0])) in LeftJoin(places, events);
    }
  }

  /** The query with no parameter set. */
  predicate NoFilters(q: SearchQuery)
  {
    !Truthy(q.area) && !Truthy(q.activity) && !Truthy(q.day) && !Truthy(q.nearMe)
  }

  /** With no filter every place is returned. */
  lemma NoFiltersReturnEveryPlace(q: SearchQuery, places: seq<Place>, events: seq<StoredEvent>)
    requires NoFilters(q)
    ensures SearchPlaces(q, places, events) == set p | p in places :: p.id
  {
    forall p | p in places ensures p.id in SearchPlaces(q, places, events) {
      EveryPlaceJoins(p, places, events);
    }
  }

  /** With only `area` set, exactly the places of that area are returned. */
  lemma AreaOnlySelectsThatArea(q: SearchQuery, places: seq<Place>, events: seq<StoredEvent>)
    requires Truthy(q.area) && !Truthy(q.activity) && !Truthy(q.day) && !Truthy(q.nearMe)
    ensures SearchPlaces(q, places, events) == set p | p in places && p.area == q.area.value :: p.id
  {
    forall p | p in places && p.area == q.area.value ensures p.id in SearchPlaces(q, places, events) {
      EveryPlaceJoins(p, places, events);
    }
  }

  /** A returned place has an event matching every event-level filter that
      is set: the activity, the weekday (`day=0` is applied, as Sunday), and
      for `nearMe` simply an event. */
  lemma ReturnedPlacesHaveMatchingEvent(q: SearchQuery, places: seq<Place>, events: seq<StoredEvent>, id: int)
    requires id in SearchPlaces(q, places, events)
    requires Truthy(q.activity) || Truthy(q.day) || Truthy(q.nearMe)
    ensures exists p, e ::
      (&& p in places && p.id == id && e in events && e.placeId == id
       && (Truthy(q.activity) ==> e.activityId == Some(SqlNumber(q.activity.value)))
       && (Truthy(q.day) ==> ParseInt(q.day.value) == Some(WeekDay(e.start))))
  {
    var row :| row in LeftJoin(places, events) && Wanted(q, row) && row.place.id == id;
    assert row.place in places && row.event.value in events;
  }

  /** `nearMe` overrides the area: the answer is the same with or without it. */
  lemma NearMeIgnoresArea(q: SearchQuery, places: seq<Place>, events: seq<StoredEvent>)
    requires Truthy(q.nearMe)
    ensures SearchPlaces(q, places, events) == SearchPlaces(q.(area := None), places, events)
  {
    assert forall row :: Wanted(q, row) <==> Wanted(q.(area := None), row);
  }

  /** Area and activity together keep no more than each alone. */
  lemma AreaAndActivityNarrow(q: SearchQuery, places: seq<Place>, events: seq<StoredEvent>)
    ensures SearchPlaces(q, places, events) <= SearchPlaces(q.(activity := None), places, events)
    ensures SearchPlaces(q, places, events) <= SearchPlaces(q.(area := None), places, events)
  {
    assert forall row :: Wanted(q, row) ==> Wanted(q.(activity := None), row);
    assert forall row :: Wanted(q, row) ==> Wanted(q.(area := None), row);
  }

  /** With neither `day` nor `nearMe`, and each place id naming one place,
      area and activity together return exactly the places that each
      returns alone: the intersection. */
  lemma AreaAndActivityIntersect(q: SearchQuery, places: seq<Place>, events: seq<StoredEvent>)
    requires !Truthy(q.day) && !Truthy(q.nearMe)
    requires forall p, p' :: p in places && p' in places && p.id == p'.id ==> p == p'
    ensures SearchPlaces(q, places, events)
            == SearchPlaces(q.(activity := None), places, events) * SearchPlaces(q.(area := None), places, events)
  {
    AreaAndActivityNarrow(q, places, events);
    forall id | id in SearchPlaces(q.(activity := None), places, events) * SearchPlaces(q.(area := None), places, events)
      ensures id in SearchPlaces(q, places, events)
    {
      var byArea :| byArea in LeftJoin(places, events) && Wanted(q.(activity := None), byArea) && byArea.place.id == id;
      var byActivity :| byActivity in LeftJoin(places, events) && Wanted(q.(area := None), byActivity)
                         && byActivity.place.id == id;
      assert byActivity.place == byArea.place;
      assert Wanted(q, byActivity);
    }
  }
}
