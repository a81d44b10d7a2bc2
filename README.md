# lanzalife core, modelled in Dafny

lanzalife is a directory of venues ("places") on Lanzarote and the weekly
events held at them. This project models the logic at its centre:

- **Event scheduling** (`scheduling.dfy`, over `js_date.dfy`).
  POST /api/events takes a weekday and two `HH:MM` times. It dates the event
  on the nearest day with that weekday, counting today, using mutable `Date`
  objects.
- **Access control** (`access.dfy`):
  - `authenticateToken` takes the second word of the Authorization header.
  - `authorizeRole` is a role allow-list.
  - PUT /api/places/:id has a 404 rule and an owner-only rule.
  - Both routes are modelled end to end.
- **Place search** (`place_search.dfy`).
  GET /api/places left-joins places with their events. It adds up to four
  conditions to a query builder, and returns the places that keep a row.
- **Search page** (`search_page.dfy`).
  `handleSearch` builds the query URL by appending `key=value&` and trimming
  the last `&`. `handleSearchAgain` returns to the form.
- **Admin event form** (`admin_events.dfy`, `admin_submission.dfy`).
  It covers the weekday toggle, the fan-out into one POST per selected day,
  the reset-on-all-ok rule, edit and cancel, and the `DAYS_OF_WEEK` table.
- **Edit-event modal** (`event_modal.dfy`).
  It covers the open/pre-fill effect, the place selector's disabled rule and
  the submit validator.

JavaScript semantics are written out in `js_text.dfy`:
- `split`/`join` on one character.
- `Number` on strings: `""` is 0, a run of digits is its value, one leading `+` or `-` before the digits gives them that sign, and anything else is NaN.
- `parseInt`: an optional sign, then the leading digits.
- `toString`.
- Two-digit padding.

Local time is modelled in `js_date.dfy` as a count of milliseconds:
- day number = `t / 86400000`;
- weekday = `(day + 4) % 7`, so 0 is Sunday, as `getDay()` returns.

JavaScript's truncating `%` is modelled as `JsRem7`.

An empty Authorization header is answered 403, not the 401 given to a
missing one: `"" && …` is `""`, which is not null, so `jwt.verify("")` runs
and fails (`Access.EmptyHeaderIsForbidden`).

## Model

| member | source | states |
|---|---|---|
| JsText.Split | packages/backend/dist/index.js:184-185 | the pieces of `split(sep)` join back to the input, none contains the separator, there is at least one |
| JsText.SplitOfJoin | packages/backend/dist/index.js:184-185 | splitting a join of separator-free pieces gives the pieces back |
| JsText.SplitUnique | packages/backend/dist/index.js:82 | the separator-free split of a string is unique |
| JsText.SplitWithoutSeparator | packages/backend/dist/index.js:82 | a string without the separator splits into itself alone |
| JsText.NatToString | packages/frontend/src/components/AdminPage.tsx:299-300 | `id.toString()` is a non-empty digit string whose value is the id |
| JsText.LeadingDigits | packages/backend/dist/index.js:223 | `parseInt` reads the longest digit prefix |
| JsText.LeadingDigitsOfDigits | packages/backend/dist/index.js:223 | an all-digit string is its own digit prefix |
| JsText.ParseIntOfNatToString | packages/frontend/src/components/AdminPage.tsx:209-210 | `parseInt` and `Number` of a `toString`-ed id give the id back |
| JsText.ToNumber | packages/backend/dist/index.js:184-185 | `Number` of a string is a number exactly when it is a run of digits (the empty string included, as 0) or a `+`/`-` sign followed by at least one digit; the value is the decimal value of the digits with that sign, and it is negative only after a `-` |
| JsText.ParseInt | packages/backend/dist/index.js:223 | `parseInt("")` is NaN, and a negative result comes only from a leading `-` |
| JsText.ParseIntAgreesWithNumber | packages/backend/dist/index.js:223 | on a non-empty digit string `parseInt` and `Number` agree |
| JsText.ParseIntAgreesWithSignedNumber | packages/backend/dist/index.js:184-185 | on a signed numeral such as `-5` or `+5`, `parseInt` and `Number` agree |
| JsText.Pad2 | packages/frontend/src/components/AdminPage.tsx:302-303 | a two-digit field is two digits |
| JsText.ToNumberOfPad2 | packages/backend/dist/index.js:184-185 | `Number` of a two-digit field gives its value |
| JsDate.WeekDay | packages/backend/dist/index.js:180 | `getDay()` is in 0..6 |
| JsDate.DaySplit | packages/backend/dist/index.js:187 | a day number and a time within the day divide back into that day and that time |
| JsDate.ClockSplit | packages/backend/dist/index.js:187 | an hour in 0..23 and a minute in 0..59 read back from their millisecond offset within the day |
| JsDate.MakeLocalFields | packages/backend/dist/index.js:187-189 | `setHours(h, m, 0, 0)` with in-range fields keeps the day and reads back h and m, with zero seconds and milliseconds |
| JsDate.ClockText | packages/frontend/src/components/AdminPage.tsx:302-303 | `toTimeString().slice(0, 5)` is five characters with `:` in the middle |
| JsDate.Date.At | packages/backend/dist/index.js:179 | `new Date()` holds the clock reading |
| JsDate.Date.Copy | packages/backend/dist/index.js:181 | `new Date(d)` copies the time value |
| JsDate.Date.AddDays | packages/backend/dist/index.js:182 | `setDate(getDate() + n)` moves the date n days and keeps the time of day; an invalid date stays invalid |
| JsDate.Date.SetHours | packages/backend/dist/index.js:187 | `setHours(h, m, 0, 0)` sets the time on the same day; a NaN field invalidates the date |
| Scheduling.JsRem7 | packages/backend/dist/index.js:180 | the truncating `% 7` is congruent to its operand, is below 7 in magnitude, and has the operand's sign |
| Scheduling.DaysUntilTargetInWeek | packages/backend/dist/index.js:180-182 | for weekdays in 0..6 the offset is in 0..6 and lands on the target weekday: 0 for today, 1 for tomorrow, 6 for yesterday |
| Scheduling.DaysUntilTarget | packages/backend/dist/index.js:180 | for any inputs the offset is below a week in magnitude and moves today's weekday onto the requested one modulo 7 |
| Scheduling.ClockFields | packages/backend/dist/index.js:184-185 | a time without `:` gives its `Number` as the hour and NaN (`undefined`) as the minute |
| Scheduling.TargetDay | packages/backend/dist/index.js:180-182 | for a weekday in 0..6 the target day is 0..6 days from today and has that weekday |
| Scheduling.TimeOn | packages/backend/dist/index.js:186-189 | the time is valid iff both fields are numbers; for a well-formed clock it is on the given day at that hour and minute, on a whole minute |
| Scheduling.ScheduledEvent | packages/backend/dist/index.js:179-195 | place, activity and description are copied as sent; start and end are valid iff their clock fields are numbers |
| Scheduling.ClockFieldsOfPadded | packages/backend/dist/index.js:184-185 | an `HH:MM` text splits at `:` into its hour and minute |
| Scheduling.CreateEvent | packages/backend/dist/index.js:179-195 | the steps that copy and mutate `Date` objects compute the scheduled event |
| Scheduling.ScheduledStart | packages/backend/dist/index.js:179-189 | the start falls within the coming week (today included), on the requested weekday, at the requested hour and minute, on a whole minute |
| Scheduling.OnTargetDay | packages/backend/dist/index.js:180-189 | a time set on the target day has that day, weekday, hour and minute |
| Scheduling.StartAndEndShareDate | packages/backend/dist/index.js:184-189 | start and end fall on the same calendar day, the target day |
| Scheduling.TodayIsNeverRolledOver | packages/backend/dist/index.js:180-187 | today's weekday is dated today, even when the time has already passed |
| Scheduling.EightOClock | packages/backend/dist/index.js:184 | `"08:00"` splits into hour 8 and minute 0 |
| Scheduling.TenOClock | packages/backend/dist/index.js:185 | `"10:00"` splits into hour 10 and minute 0 |
| Scheduling.MorningOfTodayIsPast | packages/backend/dist/index.js:180-187 | at 20:00, any request for today's weekday starting at 08:00 is dated 12 hours before the request |
| Scheduling.StartMayBeInThePast | packages/backend/dist/index.js:180-187 | at 20:00, asking for today's weekday at 08:00 gives a start 12 hours in the past |
| Scheduling.EndBeforeStartIsKept | packages/backend/dist/index.js:184-195 | a 10:00 to 08:00 request is built with its end two hours before its start |
| Access.SplitAtSeparator | packages/backend/dist/index.js:82 | splitting gives two or more words exactly when the separator occurs |
| Access.BearerToken | packages/backend/dist/index.js:81-82 | there is no token exactly when the header is missing, or is non-empty without a space; a token has no space |
| Access.TokenIsSecondWord | packages/backend/dist/index.js:82 | the token is the second word whatever the scheme word, and later words are ignored |
| Access.Authenticate | packages/backend/dist/index.js:80-91 | 401 iff there is no token; 403 iff verification fails; otherwise the verified user |
| Access.AuthorizeRole | packages/backend/src/middleware/authorize.ts:3-11 | the gate passes a request iff it has a user whose role is in the list |
| Access.GateDenials | packages/backend/src/middleware/authorize.ts:6-7 | an empty list, or a request without a user, is always refused |
| Access.RoleMatchIsCaseSensitive | packages/backend/src/middleware/authorize.ts:6 | `admin` does not pass an `Admin` gate |
| Access.UpdatePlace | packages/backend/dist/index.js:153-168 | 404 iff the place is missing; a Place Owner gets 403 iff the place is someone else's, and a crash iff it has no user; an update copies the six fields and keeps the id and owner |
| Access.AdminPassesOwnership | packages/backend/dist/index.js:157-160 | an Admin ends either not found or updated |
| Access.PutPlaceRoute | packages/backend/dist/index.js:148-174 | the statuses are 200, 401, 403, 404 and 500; 401 iff no token; 200 iff the user passes the Admin/Place Owner gate, the lookup succeeds, the update goes through and the save succeeds, carrying the updated place; 404 iff the gate passes and the lookup finds no place; 403 iff verification fails, the role is not allowed, or a Place Owner edits another owner's place; 500 iff the gate passes and the lookup fails, a Place Owner edits a place without a user, or the save of the update fails |
| Access.OwnerOrAdminUpdates | packages/backend/dist/index.js:148-174 | an Admin, or the Place Owner who owns the place, gets 200 with that place whenever it is found and saved |
| Access.EmptyHeaderIsForbidden | packages/backend/dist/index.js:81-88 | an empty Authorization header reaches `jwt.verify` and is answered 403 |
| Access.PostEventRoute | packages/backend/dist/index.js:175-203 | the statuses are 201, 401, 403 and 500; 401 iff there is no token; 403 iff verification fails or the verified role is not Admin; 500 iff an Admin's save fails; 201 iff an Admin is authenticated and the save succeeds, carrying the scheduled event |
| Access.PlaceOwnerCannotCreateEvents | packages/backend/dist/index.js:175 | a verified Place Owner gets 403 |
| PlaceSearch.EventsOf | packages/backend/dist/index.js:212 | the events of a place are the events whose placeId is its id |
| PlaceSearch.RowsOfPlace | packages/backend/dist/index.js:212 | a place has one row per event, or one row without an event |
| PlaceSearch.LeftJoin | packages/backend/dist/index.js:210-213 | a row is in the join iff its place is listed and its event is one of the place's events, or it has none and the place has no events |
| PlaceSearch.DayParameter | packages/backend/dist/index.js:222-224 | both branches of the day mapping add one, NaN stays NaN, and the JavaScript weekday of a time matches the parameter iff its MySQL `DAYOFWEEK` does |
| PlaceSearch.Holds | packages/backend/dist/index.js:214-230 | the SQL truth of each condition on a joined row; comparisons with NULL keep no row (the meaning is proved through BuildQuery) |
| PlaceSearch.Wanted | packages/backend/dist/index.js:214-230 | the search's intent stated directly: area unless `nearMe`, activity, JavaScript weekday, and an event for `nearMe` (BuildQuery is proved against it) |
| PlaceSearch.HoldsAllAppend | packages/backend/dist/index.js:215-229 | `andWhere` conjoins |
| PlaceSearch.BuildQuery | packages/backend/dist/index.js:209-230 | the conditions the builder collects keep exactly the rows the declarative filter wants, so the DAYOFWEEK shift is right for every day |
| PlaceSearch.FilterRows | packages/backend/dist/index.js:231 | the kept rows are exactly the wanted rows of the join |
| PlaceSearch.SearchPlaces | packages/backend/dist/index.js:208-232 | a place is returned iff one of its rows is wanted |
| PlaceSearch.EveryPlaceJoins | packages/backend/dist/index.js:212 | every place has a row in the join |
| PlaceSearch.NoFiltersReturnEveryPlace | packages/backend/dist/index.js:208-213 | with no parameter every place is returned |
| PlaceSearch.AreaOnlySelectsThatArea | packages/backend/dist/index.js:214-216 | with only `area`, exactly the places of that area are returned |
| PlaceSearch.ReturnedPlacesHaveMatchingEvent | packages/backend/dist/index.js:217-230 | a returned place has an event with the requested activity and weekday (Sunday included) |
| PlaceSearch.NearMeIgnoresArea | packages/backend/dist/index.js:214 | with `nearMe`, `area` makes no difference |
| PlaceSearch.AreaAndActivityNarrow | packages/backend/dist/index.js:214-219 | two filters keep no more than either alone |
| PlaceSearch.AreaAndActivityIntersect | packages/backend/dist/index.js:214-219 | without `day` and `nearMe`, and with each place id naming one place, area and activity together return exactly the intersection of what each returns alone |
| SearchPage.SearchParams | packages/frontend/src/App.tsx:58-69 | the parameters `handleSearch` appends, in its order (their meaning is stated by SearchParamsMembers, SearchParamsOnly and SearchParamsOrder) |
| SearchPage.SearchUrlOf | packages/frontend/src/App.tsx:57-71 | the base URL followed by the `&`-join of the rendered parameters (SearchUrl is proved equal to it) |
| SearchPage.SearchParamsMembers | packages/frontend/src/App.tsx:58-69 | `area` is sent iff an area is selected and `nearMe` is off; `activity` and `day` iff selected (so `day=0` is sent); `nearMe=true` iff ticked; values are verbatim |
| SearchPage.SearchParamsOnly | packages/frontend/src/App.tsx:58-69 | nothing but those four parameters is ever sent |
| SearchPage.SearchParamsOrder | packages/frontend/src/App.tsx:58-69 | the parameters come in the fixed order area, activity, day, nearMe |
| SearchPage.RankedAppend | packages/frontend/src/App.tsx:58-69 | appending at most one parameter of the next rank keeps the order |
| SearchPage.RenderedParams | packages/frontend/src/App.tsx:59-68 | the rendered parameters are exactly the `key=value` texts the four steps append |
| SearchPage.TerminatedAppend | packages/frontend/src/App.tsx:59 | after any prefix, appending `key=value&` extends the `&`-terminated list by that text |
| SearchPage.JoinAppend | packages/frontend/src/App.tsx:57-71 | joining with one more piece adds `&` and that piece |
| SearchPage.TerminatedIsJoined | packages/frontend/src/App.tsx:57-71 | the `&`-terminated text is the join plus one `&` |
| SearchPage.TrimmedIsJoined | packages/frontend/src/App.tsx:70-71 | after a prefix not ending in `&`, trimming one trailing `&` gives the prefix plus the `&`-join |
| SearchPage.StepTerminated | packages/frontend/src/App.tsx:58-69 | each conditional `url +=` step keeps the URL as the base plus the `&`-terminated texts appended so far |
| SearchPage.BaseUrlEndsInQuery | packages/frontend/src/App.tsx:57 | the base URL ends in `?`, so the trim never eats into it |
| SearchPage.PiecesMakeSearchUrl | packages/frontend/src/App.tsx:57-71 | the four steps followed by the trim give the base URL plus the `&`-join of the parameters |
| SearchPage.JoinEndsWithLast | packages/frontend/src/App.tsx:70-71 | a join ends with the last character of its last part |
| SearchPage.RenderLast | packages/frontend/src/App.tsx:59-68 | `key=value` ends with the last character of the value |
| SearchPage.LastValueClean | packages/frontend/src/App.tsx:58-69 | the last parameter sent carries a non-empty selection, or `true` |
| SearchPage.NoSelectionGivesBaseUrl | packages/frontend/src/App.tsx:57-71 | with nothing selected the URL is the base URL, ending in `?` |
| SearchPage.UrlHasNoTrailingSeparator | packages/frontend/src/App.tsx:70-71 | the URL never ends in `&` unless a selection does |
| SearchPage.QueryStringSplitsBack | packages/frontend/src/App.tsx:57-71 | splitting the query at `&` gives back the rendered parameters when no selection contains `&` |
| SearchPage.SearchView.constructor | packages/frontend/src/App.tsx:22-30 | nothing selected, no places, the form shown |
| SearchPage.SearchView.SearchUrl | packages/frontend/src/App.tsx:56-71 | the URL built by `+=` and trimming is the base URL plus the `&`-join of the parameters |
| SearchPage.SearchView.Search | packages/frontend/src/App.tsx:56-81 | on a reply the places are shown on the map with none selected; on failure nothing changes; selections are kept |
| SearchPage.SearchView.SearchAgain | packages/frontend/src/App.tsx:83-86 | the map is hidden and the selection cleared; all else is kept |
| AdminEvents.DaysOfWeekIndexedByWeekday | packages/frontend/src/components/AdminPage.tsx:29-37 | the table has seven entries, and the entry at `getDay()` has that value |
| AdminEvents.Without | packages/frontend/src/components/AdminPage.tsx:247 | the filter removes the day and keeps every other value |
| AdminEvents.WithoutAbsent | packages/frontend/src/components/AdminPage.tsx:247 | filtering out an absent day changes nothing |
| AdminEvents.WithoutAppended | packages/frontend/src/components/AdminPage.tsx:247-248 | filtering ignores an appended copy |
| AdminEvents.Toggle | packages/frontend/src/components/AdminPage.tsx:243-250 | the day's membership flips, other days keep theirs and their order, and an absent day goes to the end |
| AdminEvents.ToggleTwiceRestores | packages/frontend/src/components/AdminPage.tsx:243-250 | toggling an unselected day twice restores the list |
| AdminEvents.ToggleTwiceMovesToEnd | packages/frontend/src/components/AdminPage.tsx:243-250 | toggling a selected day twice moves it to the end |
| AdminEvents.RequestFor | packages/frontend/src/components/AdminPage.tsx:208-215 | the body for one day: `parseInt` of both ids (NaN sent as null), the day, the other fields as they are |
| AdminEvents.FormFor | packages/frontend/src/components/AdminPage.tsx:298-305 | the form an edit loads: ids as decimal text, the start's weekday as the only day, both times as `HH:MM`, a null description as `''` (EditedFormReschedules states what resubmitting it asks for) |
| AdminEvents.WithoutKeepsDistinct | packages/frontend/src/components/AdminPage.tsx:243-250 | filtering a day out keeps the list distinct weekdays |
| AdminEvents.ToggleKeepsDistinct | packages/frontend/src/components/AdminPage.tsx:243-250 | toggling a weekday keeps the selected days distinct weekdays in 0..6, as FanOutDatesEachDay requires |
| AdminEvents.Requests | packages/frontend/src/components/AdminPage.tsx:202-216 | one request per selected day, in order, with `parseInt` ids and the form's strings |
| AdminEvents.FanOutDatesEachDay | packages/frontend/src/components/AdminPage.tsx:202-216 | distinct selected weekdays give events on those weekdays, at the form's time, on distinct dates |
| AdminEvents.EditedFormReschedules | packages/frontend/src/components/AdminPage.tsx:295-305 | submitting an edited event's form asks again for its place, activity, weekday, and start and end times |
| AdminEvents.AdminPage.constructor | packages/frontend/src/components/AdminPage.tsx:65-77 | the form starts at its defaults with no event being edited |
| AdminEvents.AdminPage.ToggleDay | packages/frontend/src/components/AdminPage.tsx:243-250 | only the selected days change, by the toggle |
| AdminEvents.AdminPage.SubmitEvents | packages/frontend/src/components/AdminPage.tsx:192-241 | no days: nothing sent or changed; otherwise one request per day; the form resets iff every reply is ok |
| AdminEvents.AdminPage.EditEvent | packages/frontend/src/components/AdminPage.tsx:295-306 | the event is remembered, and the form is loaded with its start weekday as the only day |
| AdminEvents.AdminPage.CancelEdit | packages/frontend/src/components/AdminPage.tsx:308-331 | no event is being edited and the form is at its defaults |
| AdminSubmission.Replies | packages/frontend/src/components/AdminPage.tsx:202-220 | one reply per request, each what POST /api/events answers |
| AdminSubmission.FanOutWithoutTokenIsRejected | packages/frontend/src/components/AdminPage.tsx:203-216 | sent without a header, every request is answered 401, so a non-empty submission never resets the form |
| AdminSubmission.BearerHeader | packages/backend/dist/index.js:82 | `Bearer <token>` carries that token |
| AdminSubmission.FanOutWithAdminTokenCreates | packages/backend/dist/index.js:175-203 | with an Admin's token each day's event is created iff its save succeeds, and all replies are ok iff all saves succeed |
| EventModal.NumberOf | packages/frontend/src/components/EditEventModal.tsx:102-104 | `Number` keeps a number and reads a digit string as its value |
| EventModal.Prefilled | packages/frontend/src/components/EditEventModal.tsx:47-52 | the fields loaded from an event: both ids, the start's weekday, both times as `HH:MM`, the description (PrefilledRoundTrip states what saving them gives) |
| EventModal.PlaceSelectorDisabled | packages/frontend/src/components/EditEventModal.tsx:135 | the place select is disabled exactly when a Place Owner edits an existing event (ChoosePlace states its effect) |
| EventModal.Validate | packages/frontend/src/components/EditEventModal.tsx:94-109 | a payload iff all six fields are truthy, carrying the ids as numbers and the strings unchanged |
| EventModal.SundayNeverSubmitted | packages/frontend/src/components/EditEventModal.tsx:96-99 | day of week 0 is never submitted |
| EventModal.SundayEventCannotBeSaved | packages/frontend/src/components/EditEventModal.tsx:46-49 | an event starting on a Sunday, once loaded, cannot be saved |
| EventModal.PrefilledRoundTrip | packages/frontend/src/components/EditEventModal.tsx:46-51 | a loaded event not on a Sunday, with a description, is saved with its own place, activity, weekday, times and description |
| EventModal.ValidateChosen | packages/frontend/src/components/EditEventModal.tsx:94-109 | corrected check: a payload iff the ids are set, the day is in 0..6 and the strings are non-empty |
| EventModal.ChosenAcceptsEveryWeekday | packages/frontend/src/components/EditEventModal.tsx:96-99 | the corrected check saves a loaded event on any weekday, and agrees with the original on days 1..6 |
| EventModal.EditEventModal.constructor | packages/frontend/src/components/EditEventModal.tsx:33-38 | every field starts as `''` |
| EventModal.EditEventModal.Open | packages/frontend/src/components/EditEventModal.tsx:44-65 | closed: nothing changes; with an event: the fields are pre-filled from it; without one: all fields are cleared |
| EventModal.EditEventModal.ChoosePlace | packages/frontend/src/components/EditEventModal.tsx:130-135 | while a Place Owner edits an existing event the place cannot change; otherwise it becomes `Number(value)` |

## Left out

- Network and I/O are not modelled: `fetch` and `axios`, `alert`, `console`, `localStorage`, and express and CORS wiring. Replies and their success appear as parameters.
- `Promise.all` concurrency is not modelled. The fan-out is a sequence of requests, and the i-th reply's outcome is a parameter.
- ORM persistence and the SQL engine are not modelled. The query is a list of conditions over an abstract left join of place and event sequences. The activity join is folded into the event's `activityId`.
- Date handling leaves out time zones, daylight saving, `TimeClip`, and month and year calendars. Local time is a count of milliseconds with 86,400,000 per day, so `setDate` carries across month ends by adding whole days.
- `Number` and `parseInt` leave out whitespace, decimal points, exponents, hex and `Infinity`. A sign is read by both: `Number("-5")` is -5, so in `08:-05` the minute is -5, which `setHours` carries back into the hour.
- Request bodies with missing or mistyped fields are not modelled; the model's request carries every field. In the source a missing `startTime` or `endTime` makes `.split` throw inside the handler, answered 500. A missing `dayOfWeek` makes the offset NaN, so both dates are invalid, with no throw. A missing `placeId`, `activityId` or `description` is assigned as `undefined`. Missing PUT /api/places fields are assigned as `undefined` too.
- PlaceSearch.Holds: a `day` that `parseInt` reads as NaN keeps no row in the model. In the source the NaN is written into the SQL as `NaN`, which MySQL rejects as an unknown column; GET /api/places has no try/catch, so no reply is sent. The model does not capture that failed query.
- PlaceSearch.SqlNumber: MySQL compares `activity.id` with the string's full decimal value after leading blanks, so `3.5` matches no id and ` 3` matches 3. The model reads an optional sign and leading digits (3 and 0 for those).
- AdminEvents.AdminPage.EditEvent and EventModal.EditEventModal.Open: a listed event here always has its place and its activity. In the source both relations are nullable, GET /api/events left-joins them, and the admin page can post a NaN id as null; opening such an event reads `event.place.id` on null and throws a TypeError. The model does not capture that crash.
- `jwt.verify` is the parameter `verify`. The secret, token signing, bcrypt and the auth routes are not part of this model.
- PlaceSearch.Holds: the area comparison is exact string equality. MySQL's case-insensitive collation is not modelled.
- PlaceSearch.SearchPlaces: returns the set of place ids. It does not model the order of places or the nesting of events that `getMany` hydrates.
- AdminEvents.AdminPage.CancelEdit: models the event form only. Resetting the place and activity forms is outside this model.
- `handlePinClick`, the plain state setters, and the place and activity handlers of the admin page are not modelled.
- The second weekday table in the edit modal is not modelled. It is identical to `DAYS_OF_WEEK`.
- The edit modal's fetches of places and activities are not modelled.
- Editing an event in the admin page and submitting it POSTs new events. The page does not update the edited one, and the model keeps this as written.

## Findings

| source | as written | input that shows it | evidently intended | confidence | as-written member | corrected member |
|---|---|---|---|---|---|---|
| packages/frontend/src/components/EditEventModal.tsx:96 | `!dayOfWeek` rejects day 0, Sunday | an event whose start is a Sunday, opened for editing and saved | a day in 0..6 counts as chosen | high; not executed | EventModal.SundayNeverSubmitted | EventModal.ChosenAcceptsEveryWeekday |
| packages/frontend/src/components/AdminPage.tsx:203-207 | the event POST carries no Authorization header, and POST /api/events requires a token | any submission with one day selected: 401, and the form is kept | send `Bearer <token>` of the signed-in Admin | high; not executed | AdminSubmission.FanOutWithoutTokenIsRejected | AdminSubmission.FanOutWithAdminTokenCreates |
