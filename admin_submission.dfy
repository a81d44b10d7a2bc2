/** The admin page's event fan-out as the backend answers it: each
    per-day request goes through POST /api/events. */
module AdminSubmission {
  import opened Wrappers
  import opened JsText
  import opened Entities
  import Scheduling
  import Access
  import AdminEvents

  /** `response.ok`: a status in 200..299. */
  predicate Ok(status: int)
  {
    200 <= status < 300
  }

  /** The replies to the fan-out, all sent with the same Authorization
      header; `saved(i)` says whether the i-th save succeeds. */
  function Replies(header: Option<string>, verify: string -> Option<Access.AuthUser>,
                   reqs: seq<Scheduling.EventRequest>, now: int, saved: nat -> bool)
    : (replies: seq<Access.Reply<Scheduling.EventRecord>>)
    ensures |replies| == |reqs|
    ensures forall i :: 0 <= i < |reqs| ==> replies[i] == Access.PostEventRoute(header, verify, reqs[i], now, saved(i))
  {
    if reqs == [] then []
    else [Access.PostEventRoute(header, verify, reqs[0], now, saved(0))]
         + Replies(header, verify, reqs[1..], now, (i: nat) => saved(i + 1))
  }

  /** The header the admin page sends with its event POSTs: none. */
  const SentHeader: Option<string> := None

  /** As written, every request of the fan-out is answered 401, so with at
      least one day selected the replies are never all ok and the form is
      never reset. */
  lemma FanOutWithoutTokenIsRejected(form: AdminEvents.EventForm, verify: string -> Option<Access.AuthUser>,
                                     now: int, saved: nat -> bool)
    ensures var replies := Replies(SentHeader, verify, AdminEvents.Requests(form, form.selectedDays), now, saved);
      forall i :: 0 <= i < |replies| ==> replies[i] == Access.Reply(401, None)
    ensures var replies := Replies(SentHeader, verify, AdminEvents.Requests(form, form.selectedDays), now, saved);
      form.selectedDays != [] ==> !(forall i :: 0 <= i < |replies| ==> Ok(replies[i].status))
  {
    var reqs := AdminEvents.Requests(form, form.selectedDays);
    var replies := Replies(SentHeader, verify, reqs, now, saved);
    forall i | 0 <= i < |replies| ensures replies[i] == Access.Reply(401, None) {
      assert replies[i] == Access.PostEventRoute(None, verify, reqs[i], now, saved(i));
      assert Access.Authenticate(None, verify) == Access.Rejected(401);
    }
    if form.selectedDays != [] {
      assert !Ok(replies[0].status);
    }
  }

  /** The header the page evidently means to send: `Bearer <token>`. */
  function BearerHeader(token: string): (header: Option<string>)
    requires token != "" && ' ' !in token
    ensures Access.BearerToken(header) == Some(token)
  {
    Access.TokenIsSecondWord("Bearer", token, []);
    assert Join(["Bearer", token] + [], ' ') == "Bearer" + [' '] + token;
    Some("Bearer" + [' '] + token)
  }

  /** With an Admin's token in the header, each day's request is created
      (201 carrying the event the scheduler computes for that day) exactly
      when its save succeeds, and otherwise answered 500. */
  lemma FanOutWithAdminTokenCreates(form: AdminEvents.EventForm, token: string, id: int,
                                    verify: string -> Option<Access.AuthUser>, now: int, saved: nat -> bool)
    requires token != "" && ' ' !in token
    requires verify(token) == Some(Access.AuthUser(id, Access.AdminRole))
    ensures var reqs := AdminEvents.Requests(form, form.selectedDays);
      var replies := Replies(BearerHeader(token), verify, reqs, now, saved);
      forall i :: 0 <= i < |replies| ==>
        (if saved(i) then replies[i] == Access.Reply(201, Some(Scheduling.ScheduledEvent(reqs[i], now)))
         else replies[i] == Access.Reply(500, None))
    ensures var replies := Replies(BearerHeader(token), verify, AdminEvents.Requests(form, form.selectedDays), now, saved);
      (forall i :: 0 <= i < |replies| ==> Ok(replies[i].status)) <==> (forall i :: 0 <= i < |replies| ==> saved(i))
  {
    var reqs := AdminEvents.Requests(form, form.selectedDays);
    var replies := Replies(BearerHeader(token), verify, reqs, now, saved);
    forall i | 0 <= i < |replies|
      ensures if saved(i) then replies[i] == Access.Reply(201, Some(Scheduling.ScheduledEvent(reqs[i], now)))
              else replies[i] == Access.Reply(500, None)
    {
      assert Access.Authenticate(BearerHeader(token), verify) == Access.Authenticated(Access.AuthUser(id, Access.AdminRole));
    }
  }
}
