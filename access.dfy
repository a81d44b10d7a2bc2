/** Request gating on the backend: bearer-token extraction, the role
    allow-list middleware, and the ownership rule of PUT /api/places/:id.
    Status codes are those of section 15 of RFC 9110. */
module Access {
  import opened Wrappers
  import opened JsText
  import opened Entities
  import Scheduling

  const AdminRole := "Admin"
  const PlaceOwnerRole := "Place Owner"

  /** The token payload `jwt.verify` stores in `req.user`. */
  datatype AuthUser = AuthUser(id: int, role: string)

  /** A response: its status and, on success, what it carries. */
  datatype Reply<T> = Reply(status: int, payload: Option<T>)

  /** A string with the separator in it splits into at least two pieces. */
  lemma SplitAtSeparator(s: string, sep: char)
    ensures |Split(s, sep)| >= 2 <==> sep in s
  {
    var parts := Split(s, sep);
    if |parts| >= 2 {
      assert s == parts[0] + [sep] + Join(parts[1..], sep);
      assert s[|parts[0]|] == sep;
    }
  }

  /** `authHeader && authHeader.split(' ')[1]`: the second space-separated
      word of the header. A missing header, or a non-empty one without a
      space, has no token (`undefined`); an empty header short-circuits to
      the empty string, which is a token for the `== null` test. */
  function BearerToken(header: Option<string>): (token: Option<string>)
    ensures token.None? <==> header.None? || (header.value != "" && ' ' !in header.value)
    ensures token.Some? ==> ' ' !in token.value
  {
    match header
    case None => None
    case Some(h) =>
      if h == "" then Some("")
      else
        SplitAtSeparator(h, ' ');
        var words := Split(h, ' ');
        if |words| >= 2 then Some(words[1]) else None
  }

  /** Whatever the first word is (the scheme is never checked to be
      `Bearer`), the token is the second word, and later words are ignored. */
  lemma {:induction false} TokenIsSecondWord(scheme: string, token: string, rest: seq<string>)
    requires ' ' !in scheme && ' ' !in token
    requires forall i :: 0 <= i < |rest| ==> ' ' !in rest[i]
    ensures BearerToken(Some(Join([scheme, token] + rest, ' '))) == Some(token)
  {
    var words := [scheme, token] + rest;
    forall i | 0 <= i < |words| ensures ' ' !in words[i] {
      if i >= 2 { assert words[i] == rest[i - 2]; }
    }
    SplitOfJoin(words, ' ');
    var h := Join(words, ' ');
    assert h == scheme + [' '] + Join(words[1..], ' ');
    assert h[|scheme|] == ' ';
  }

  /** The outcome of `authenticateToken`. */
  datatype AuthOutcome = Rejected(status: int) | Authenticated(user: AuthUser)

  /** `authenticateToken`, with `jwt.verify` as the parameter `verify`
      (`None` when verification fails). */
  function Authenticate(header: Option<string>, verify: string -> Option<AuthUser>): (r: AuthOutcome)
    ensures r == Rejected(401) <==> BearerToken(header).None?
    ensures r == Rejected(403) <==> BearerToken(header).Some? && verify(BearerToken(header).value).None?
    ensures r.Authenticated? <==> BearerToken(header).Some? && verify(BearerToken(header).value).Some?
    ensures r.Authenticated? ==> Some(r.user) == verify(BearerToken(header).value)
  {
    match BearerToken(header)
    case None => Rejected(401)
    case Some(token) =>
      match verify(token)
      case None => Rejected(403)
      case Some(user) => Authenticated(user)
  }

  /** An empty Authorization header yields the empty token, which is not
      null: it goes to `jwt.verify`, fails there, and is answered 403. */
  lemma EmptyHeaderIsForbidden(verify: string -> Option<AuthUser>)
    requires verify("") == None
    ensures Authenticate(Some(""), verify) == Rejected(403)
  {
  }

  /** What the role gate does: answer 403, or pass the request on. */
  datatype GateOutcome = Forbidden | Next

  /** `authorizeRole(roles)`: a middleware fixed to this allow-list that lets
      a request through exactly when it carries a user whose role string is
      one of `roles` (exact, case-sensitive equality). */
  function AuthorizeRole(roles: seq<string>): (gate: Option<AuthUser> -> GateOutcome)
    ensures forall user :: gate(user) == Next <==> user.Some? && user.value.role in roles
  {
    (user: Option<AuthUser>) => if user.None? || user.value.role !in roles then Forbidden else Next
  }

  /** An empty allow-list turns every request away, and a request without a
      user is turned away whatever the list. */
  lemma GateDenials(roles: seq<string>, user: AuthUser)
    ensures AuthorizeRole([])(Some(user)) == Forbidden
    ensures AuthorizeRole(roles)(None) == Forbidden
  {
  }

  /** Role matching is exact: `admin` is not `Admin`. */
  lemma RoleMatchIsCaseSensitive(id: int)
    ensures AuthorizeRole([AdminRole])(Some(AuthUser(id, "admin"))) == Forbidden
  {
    assert "admin" != AdminRole by { assert "admin"[0] != AdminRole[0]; }
  }

  /** The editable fields of PUT /api/places/:id. */
  datatype PlaceFields = PlaceFields(
    name: string,
    address: string,
    area: string,
    latitude: real,
    longitude: real,
    description: Option<string>)

  /** How the PUT /api/places/:id handler ends once the gates have passed. */
  datatype UpdateOutcome = NotFound | NotOwner | Crashed | Updated(place: Place)

  /** The handler body, given the place the lookup found (with its user
      relation). A Place Owner editing a place whose user is null reads
      `place.user.id` on null, which throws and is answered with 500. */
  function UpdatePlace(user: AuthUser, found: Option<Place>, fields: PlaceFields): (r: UpdateOutcome)
    ensures r.NotFound? <==> found.None?
    ensures r.NotOwner? <==> found.Some? && user.role == PlaceOwnerRole
                             && found.value.ownerId.Some? && found.value.ownerId.value != user.id
    ensures r.Crashed? <==> found.Some? && user.role == PlaceOwnerRole && found.value.ownerId.None?
    ensures r.Updated? ==> found.Some? && r.place.id == found.value.id && r.place.ownerId == found.value.ownerId
    ensures r.Updated? ==> PlaceFields(r.place.name, r.place.address, r.place.area, r.place.latitude,
                                       r.place.longitude, r.place.description) == fields
  {
    match found
    case None => NotFound
    case Some(place) =>
      if user.role == PlaceOwnerRole && place.ownerId.None? then Crashed
      else if user.role == PlaceOwnerRole && place.ownerId.value != user.id then NotOwner
      else Updated(place.(name := fields.name, address := fields.address, area := fields.area,
                          latitude := fields.latitude, longitude := fields.longitude,
                          description := fields.description))
  }

  /** An Admin is never refused by the ownership rule. */
  lemma AdminPassesOwnership(id: int, found: Option<Place>, fields: PlaceFields)
    ensures var r := UpdatePlace(AuthUser(id, AdminRole), found, fields);
      r.NotFound? || r.Updated?
  {
    assert AdminRole != PlaceOwnerRole by { assert |AdminRole| != |PlaceOwnerRole|; }
  }

  /** The request carries a verified user whose role passes the
      `authorizeRole(['Admin', 'Place Owner'])` gate of PUT /api/places/:id. */
  predicate MayEditPlaces(header: Option<string>, verify: string -> Option<AuthUser>)
  {
    && Authenticate(header, verify).Authenticated?
    && Authenticate(header, verify).user.role in [AdminRole, PlaceOwnerRole]
  }

  /** An Admin, or the Place Owner who owns the place, gets 200 with the
      updated place whenever the place is found and saved. */
  lemma OwnerOrAdminUpdates(header: Option<string>, verify: string -> Option<AuthUser>,
                            lookedUp: bool, found: Option<Place>, fields: PlaceFields)
    requires Authenticate(header, verify).Authenticated? && lookedUp && found.Some?
    requires var user := Authenticate(header, verify).user;
      user.role == AdminRole || (user.role == PlaceOwnerRole && found.value.ownerId == Some(user.id))
    ensures PutPlaceRoute(header, verify, lookedUp, found, fields, true).status == 200
    ensures PutPlaceRoute(header, verify, lookedUp, found, fields, true).payload.value.id == found.value.id
  {
    assert AdminRole != PlaceOwnerRole by { assert |AdminRole| != |PlaceOwnerRole|; }
  }

  /** PUT /api/places/:id end to end: token, gate for Admin and Place Owner,
      then the handler. `lookedUp` says whether the lookup of `:id` succeeded
      and `found` is what it returned; `saved` says whether the repository
      save succeeded. A failed lookup or save is caught and answered 500. */
  function PutPlaceRoute(header: Option<string>, verify: string -> Option<AuthUser>,
                         lookedUp: bool, found: Option<Place>, fields: PlaceFields, saved: bool): (r: Reply<Place>)
    ensures r.status in {200, 401, 403, 404, 500}
    ensures r.status == 401 <==> BearerToken(header).None?
    ensures r.status == 200 <==> r.payload.Some?
    ensures r.status == 200 <==> && MayEditPlaces(header, verify) && lookedUp && saved
                                 && UpdatePlace(Authenticate(header, verify).user, found, fields).Updated?
    ensures r.status == 404 <==> MayEditPlaces(header, verify) && lookedUp && found.None?
    ensures r.status == 403 <==> || Authenticate(header, verify) == Rejected(403)
                                 || (Authenticate(header, verify).Authenticated? && !MayEditPlaces(header, verify))
                                 || (&& MayEditPlaces(header, verify) && lookedUp
                                     && UpdatePlace(Authenticate(header, verify).user, found, fields).NotOwner?)
    ensures r.status == 500 <==> && MayEditPlaces(header, verify)
                                 && (|| !lookedUp
                                     || UpdatePlace(Authenticate(header, verify).user, found, fields).Crashed?
                                     || (UpdatePlace(Authenticate(header, verify).user, found, fields).Updated? && !saved))
    ensures r.status == 200 ==> r.payload.value == UpdatePlace(Authenticate(header, verify).user, found, fields).place
    ensures r.status == 200 ==> var user := Authenticate(header, verify).user;
      && found.Some? && r.payload.value.id == found.value.id
      && (user.role == AdminRole || (user.role == PlaceOwnerRole && found.value.ownerId == Some(user.id)))
  {
    match Authenticate(header, verify)
    case Rejected(status) => Reply(status, None)
    case Authenticated(user) =>
      if AuthorizeRole([AdminRole, PlaceOwnerRole])(Some(user)) == Forbidden then Reply(403, None)
      else if !lookedUp then Reply(500, None)
      else
        match UpdatePlace(user, found, fields)
        case NotFound => Reply(404, None)
        case NotOwner => Reply(403, None)
        case Crashed => Reply(500, None)
        case Updated(place) => if saved then Reply(200, Some(place)) else Reply(500, None)
  }

  /** POST /api/events end to end: token, gate for Admin only, then the
      scheduling handler; `saved` says whether the repository save succeeded. */
  function PostEventRoute(header: Option<string>, verify: string -> Option<AuthUser>,
                          body: Scheduling.EventRequest, now: int, saved: bool): (r: Reply<Scheduling.EventRecord>)
    ensures r.status in {201, 401, 403, 500}
    ensures r.status == 401 <==> BearerToken(header).None?
    ensures r.status == 201 <==> r.payload.Some?
    ensures r.status == 201 <==> Authenticate(header, verify).Authenticated?
                                 && Authenticate(header, verify).user.role == AdminRole && saved
    ensures r.status == 403 <==> || Authenticate(header, verify) == Rejected(403)
                                 || (Authenticate(header, verify).Authenticated?
                                     && Authenticate(header, verify).user.role != AdminRole)
    ensures r.status == 500 <==> Authenticate(header, verify).Authenticated?
                                 && Authenticate(header, verify).user.role == AdminRole && !saved
    ensures r.status == 201 ==> r.payload.value == Scheduling.ScheduledEvent(body, now)
  {
    match Authenticate(header, verify)
    case Rejected(status) => Reply(status, None)
    case Authenticated(user) =>
      if AuthorizeRole([AdminRole])(Some(user)) == Forbidden then Reply(403, None)
      else if saved then Reply(201, Some(Scheduling.ScheduledEvent(body, now)))
      else Reply(500, None)
  }

  /** A verified Place Owner is refused event creation with 403, before any
      event is built. */
  lemma PlaceOwnerCannotCreateEvents(header: Option<string>, verify: string -> Option<AuthUser>,
                                     body: Scheduling.EventRequest, now: int, saved: bool)
    requires Authenticate(header, verify).Authenticated?
    requires Authenticate(header, verify).user.role == PlaceOwnerRole
    ensures PostEventRoute(header, verify, body, now, saved) == Reply(403, None)
  {
    assert AdminRole != PlaceOwnerRole by { assert |AdminRole| != |PlaceOwnerRole|; }
  }
}
