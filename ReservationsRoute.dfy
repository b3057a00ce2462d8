/** The reservations route: listing the reservations a user may see, and booking one
    on a block, with a best-effort mirror of the booking onto both calendars. */
module ReservationsRoute {
  import opened Base
  import opened Store
  import opened Ordering
  import GC = GoogleCalendar

  // ---------------------------------------------------------------------------
  // GET: visibility, status and order

  datatype ListResponse = ListUnauthorized | ReservationList(rows: seq<Reservation>)

  function ReservationStart(r: Reservation): int
  {
    r.startTime
  }

  /** The user may see `r`: an admin asking for all, or the creator, or a participant. */
  predicate Visible(r: Reservation, user: SessionUser, filter: Option<string>)
  {
    || (filter == Some("all") && user.role == Admin)
    || r.creatorId == Some(user.id)
    || exists p :: p in r.participants && p.userId == Some(user.id)
  }

  /** The confirmed reservations the user may see, in table order, with their multiplicities. */
  function VisibleConfirmed(rows: seq<Reservation>, user: SessionUser, filter: Option<string>): (r: seq<Reservation>)
    ensures forall x :: multiset(r)[x] == if x.status == Confirmed && Visible(x, user, filter) then multiset(rows)[x] else 0
  {
    if rows == [] then []
    else
      var rest := VisibleConfirmed(rows[1..], user, filter);
      assert rows == [rows[0]] + rows[1..];
      assert multiset(rows) == multiset{rows[0]} + multiset(rows[1..]);
      if rows[0].status == Confirmed && Visible(rows[0], user, filter) then [rows[0]] + rest else rest
  }

  /** The GET response: 401 without a session, else the visible confirmed reservations by ascending start. */
  function ListReservations(rows: seq<Reservation>, session: Option<SessionUser>, filter: Option<string>): (resp: ListResponse)
    ensures session.None? <==> resp == ListUnauthorized
    ensures resp.ReservationList? ==> SortedBy(resp.rows, ReservationStart)
    ensures resp.ReservationList? ==>
              forall x :: multiset(resp.rows)[x] ==
                if x.status == Confirmed && Visible(x, session.value, filter) then multiset(rows)[x] else 0
  {
    match session
    case None => ListUnauthorized
    case Some(user) => ReservationList(SortBy(VisibleConfirmed(rows, user, filter), ReservationStart))
  }

  /** A reservation is listed iff it is confirmed, stored, and visible to the caller. */
  lemma ListedMembers(rows: seq<Reservation>, user: SessionUser, filter: Option<string>, x: Reservation)
    ensures x in ListReservations(rows, Some(user), filter).rows <==>
            x in rows && x.status == Confirmed && Visible(x, user, filter)
  {
    var listed := ListReservations(rows, Some(user), filter).rows;
    assert x in listed <==> multiset(listed)[x] > 0;
    assert x in rows <==> multiset(rows)[x] > 0;
  }

  /** An admin asking for all sees every confirmed reservation. */
  lemma AdminSeesAllConfirmed(rows: seq<Reservation>, user: SessionUser, x: Reservation)
    requires user.role == Admin
    requires x in rows && x.status == Confirmed
    ensures x in ListReservations(rows, Some(user), Some("all")).rows
  {
    ListedMembers(rows, user, Some("all"), x);
  }

  /** Anyone else sees only reservations they created or take part in. */
  lemma OthersSeeOnlyTheirOwn(rows: seq<Reservation>, user: SessionUser, filter: Option<string>, x: Reservation)
    requires filter != Some("all") || user.role != Admin
    requires x in ListReservations(rows, Some(user), filter).rows
    ensures x.creatorId == Some(user.id) || exists p :: p in x.participants && p.userId == Some(user.id)
  {
    ListedMembers(rows, user, filter, x);
  }

  // ---------------------------------------------------------------------------
  // POST: validation

  /** A member of the parsed JSON body: missing, of the expected type, or of another type. */
  datatype JsonField<T> = Absent | Value(v: T) | WrongType

  /** The request body: not JSON at all, JSON that is not an object, or an object's relevant members.
      `blockId` is the primary key the string names. */
  datatype RequestBody =
    | InvalidJson
    | NotAnObject
    | Fields(blockId: JsonField<BlockId>, startTime: JsonField<string>, endTime: JsonField<string>,
             title: JsonField<string>, agenda: JsonField<string>)

  /** The validated request (`parsed.data`), with the datetimes as instants. */
  datatype CreateInput = CreateInput(
    blockId: BlockId, startTime: Time, endTime: Time, title: Option<string>, agenda: Option<string>)

  function OptionalOf(f: JsonField<string>): (r: Option<string>)
    requires !f.WrongType?
    ensures r.Some? <==> f.Value?
    ensures r.Some? ==> r.value == f.v
  {
    if f.Value? then Some(f.v) else None
  }

  /** A string member that is present and that `parseDate` reads as an ISO datetime. */
  predicate IsDateTime(f: JsonField<string>, parseDate: string -> Option<Time>)
  {
    f.Value? && parseDate(f.v).Some?
  }

  /** The schema: `blockId` a string, both times ISO datetimes, `title` and `agenda` absent or strings. */
  function Validate(body: RequestBody, parseDate: string -> Option<Time>): (r: Option<CreateInput>)
    requires !body.InvalidJson?
    ensures body.NotAnObject? ==> r.None?
    ensures body.Fields? ==>
              (r.Some? <==> body.blockId.Value? && IsDateTime(body.startTime, parseDate) && IsDateTime(body.endTime, parseDate)
                            && !body.title.WrongType? && !body.agenda.WrongType?)
    ensures r.Some? ==>
              && r.value.blockId == body.blockId.v
              && Some(r.value.startTime) == parseDate(body.startTime.v)
              && Some(r.value.endTime) == parseDate(body.endTime.v)
              && r.value.title == OptionalOf(body.title)
              && r.value.agenda == OptionalOf(body.agenda)
  {
    match body
    case NotAnObject => None
    case Fields(blockId, startTime, endTime, title, agenda) =>
      if blockId.Value? && IsDateTime(startTime, parseDate) && IsDateTime(endTime, parseDate)
         && !title.WrongType? && !agenda.WrongType?
      then Some(CreateInput(blockId.v, parseDate(startTime.v).value, parseDate(endTime.v).value,
                            OptionalOf(title), OptionalOf(agenda)))
      else None
  }

  /** How a client writes an optional member: left out when there is nothing to send. */
  function MemberOf(o: Option<string>): JsonField<string>
  {
    if o.Some? then Value(o.value) else Absent
  }

  /** The body a client sends for `input`, with its datetimes written as `start` and `end`. */
  function BodyOf(input: CreateInput, start: string, end: string): RequestBody
  {
    Fields(Value(input.blockId), Value(start), Value(end), MemberOf(input.title), MemberOf(input.agenda))
  }

  /** Any request the schema can describe is accepted when sent, and parses back to itself. */
  lemma ValidateRoundTrip(input: CreateInput, start: string, end: string, parseDate: string -> Option<Time>)
    requires parseDate(start) == Some(input.startTime) && parseDate(end) == Some(input.endTime)
    ensures Validate(BodyOf(input, start, end), parseDate) == Some(input)
  {
  }

  /** A body the schema accepts is the body of what it parses to: validation loses nothing. */
  lemma ValidateFaithful(body: RequestBody, parseDate: string -> Option<Time>)
    requires !body.InvalidJson? && Validate(body, parseDate).Some?
    ensures body == BodyOf(Validate(body, parseDate).value, body.startTime.v, body.endTime.v)
  {
  }

  // ---------------------------------------------------------------------------
  // POST: the stored reservation

  /** The block with primary key `id` (`findUnique`). */
  function FindBlock(rows: seq<AvailableBlock>, id: BlockId): (r: Option<AvailableBlock>)
    ensures r.Some? ==> r.value in rows && r.value.id == id
    ensures r.None? ==> forall x :: x in rows ==> x.id != id
  {
    if rows == [] then None
    else if rows[0].id == id then Some(rows[0])
    else
      assert forall x :: x in rows ==> x == rows[0] || x in rows[1..];
      FindBlock(rows[1..], id)
  }

  /** The name shown for a user: their name, or the given fallback when it is missing or empty. */
  function NameOr(user: Option<User>, fallback: string): (r: string)
    ensures user.Some? && Truthy(user.value.name) ==> r == user.value.name.value
    ensures !(user.Some? && Truthy(user.value.name)) ==> r == fallback
  {
    if user.Some? && Truthy(user.value.name) then user.value.name.value else fallback
  }

  const MEMBER_FALLBACK: string := "メンバー"
  const ADMIN_FALLBACK: string := "管理者"

  /** `title || "<name>との予約"`: a supplied non-empty title, else one naming the booker. */
  function ReservationTitle(title: Option<string>, user: Option<User>): (t: string)
    ensures t != ""
    ensures Truthy(title) ==> t == title.value
    ensures !Truthy(title) ==> t == NameOr(user, MEMBER_FALLBACK) + "との予約"
  {
    if Truthy(title) then title.value else NameOr(user, MEMBER_FALLBACK) + "との予約"
  }

  /** The row `reservation.create` inserts for `creator`. */
  function NewReservation(id: ReservationId, creator: UserId, input: CreateInput, user: Option<User>,
                          status: ReservationStatus): Reservation
  {
    Reservation(id, input.blockId, Some(creator), OneOnOne, ReservationTitle(input.title, user), input.agenda,
                status, input.startTime, input.endTime, None, [Participant(Some(creator))])
  }

  /** The booking is one-on-one, made by the caller, who is its only participant. */
  lemma NewReservationShape(id: ReservationId, creator: UserId, input: CreateInput, user: Option<User>,
                            status: ReservationStatus)
    ensures var r := NewReservation(id, creator, input, user, status);
            && r.kind == OneOnOne && r.creatorId == Some(creator)
            && |r.participants| == 1 && r.participants[0].userId == r.creatorId
            && (forall p :: p in r.participants ==> p.userId == Some(creator))
            && r.title != "" && r.googleEventId == None
  {
    var r := NewReservation(id, creator, input, user, status);
    assert forall p :: p in r.participants ==> p == r.participants[0];
  }

  /** A confirmed booking is listed to the one who made it, whatever the filter. */
  lemma BookingVisibleToCreator(rows: seq<Reservation>, user: SessionUser, filter: Option<string>,
                                r: Reservation)
    requires r.status == Confirmed && r.creatorId == Some(user.id)
    ensures r in ListReservations(rows + [r], Some(user), filter).rows
  {
    ListedMembers(rows + [r], user, filter, r);
  }

  // ---------------------------------------------------------------------------
  // POST: the calendar mirror

  /** How a `createCalendarEvent` call ended: it threw, or it gave the response's id. */
  datatype CalendarCall = Threw | Returned(responseId: Option<string>)

  /** The id written back to the reservation: the inserted event's id, when the call gave a non-empty one. */
  function MirroredEventId(call: CalendarCall): (r: Option<EventId>)
    ensures call.Threw? ==> r.None?
    ensures call.Returned? ==> r == GC.InsertedEventId(call.responseId)
    ensures r != Some("")
  {
    match call
    case Threw => None
    case Returned(id) => GC.InsertedEventId(id)
  }

  /** `agenda ? "議題: " + agenda : undefined`. */
  function AgendaDescription(agenda: Option<string>): (d: Option<string>)
    ensures d.Some? <==> Truthy(agenda)
    ensures d.Some? ==> d.value == "議題: " + agenda.value
  {
    if Truthy(agenda) then Some("議題: " + agenda.value) else None
  }

  /** `[email]` when the email is non-empty, else nothing. */
  function InviteOf(user: Option<User>): (r: Option<seq<string>>)
    ensures r.Some? <==> user.Some? && Truthy(user.value.email)
    ensures r.Some? ==> r.value == [user.value.email.value]
  {
    if user.Some? && Truthy(user.value.email) then Some([user.value.email.value]) else None
  }

  /** The event put on the admin's calendar: names the booker and invites them. */
  function AdminEvent(input: CreateInput, user: Option<User>): GC.EventRequest
  {
    GC.EventRequest("【予約】" + NameOr(user, MEMBER_FALLBACK) + "との面談", AgendaDescription(input.agenda),
                    input.startTime, input.endTime, InviteOf(user))
  }

  /** The event put on the booker's calendar: names the admin and invites them. */
  function MemberEvent(input: CreateInput, admin: Option<User>): GC.EventRequest
  {
    GC.EventRequest("【予約】" + NameOr(admin, ADMIN_FALLBACK) + "との面談", AgendaDescription(input.agenda),
                    input.startTime, input.endTime, InviteOf(admin))
  }

  /** Both mirror events cover exactly the booked interval and carry the same description. */
  lemma MirrorEventsMatchBooking(input: CreateInput, user: Option<User>, admin: Option<User>)
    ensures var a := GC.InsertBody(AdminEvent(input, user));
            var m := GC.InsertBody(MemberEvent(input, admin));
            && a.start.dateTime == input.startTime && a.end.dateTime == input.endTime
            && m.start.dateTime == input.startTime && m.end.dateTime == input.endTime
            && a.description == m.description
            && (a.description.Some? <==> Truthy(input.agenda))
            && (a.attendees.Some? <==> user.Some? && Truthy(user.value.email))
            && (m.attendees.Some? <==> admin.Some? && Truthy(admin.value.email))
            && (a.attendees.Some? ==> GC.Emails(a.attendees.value) == [user.value.email.value])
            && (m.attendees.Some? ==> GC.Emails(m.attendees.value) == [admin.value.email.value])
  {
  }

  /** The events the handler asks the calendar to create, with the owner of each calendar. */
  datatype MirrorRequests = MirrorRequests(
    adminId: UserId, adminEvent: GC.EventRequest, memberId: UserId, memberEvent: GC.EventRequest)

  datatype PostResponse = PostUnauthorized | ServerError | BadRequest | NotFound | Created(reservation: Reservation)

  /** POST: 401 without a session, 500 on a body that is not JSON, 400 on a body the schema refuses,
      404 on an unknown block; otherwise the reservation is stored and mirrored. `adminCall` is how the
      insertion on the admin's calendar ends when the admin has credentials; the booker's own
      insertion is requested and its outcome is ignored. */
  method Post(db: Database, session: Option<SessionUser>, body: RequestBody, parseDate: string -> Option<Time>,
              defaultStatus: ReservationStatus, adminCall: CalendarCall)
    returns (resp: PostResponse, mirrors: Option<MirrorRequests>)
    requires db.Valid()
    modifies db
    ensures db.Valid()
    ensures db.users == old(db.users) && db.blocks == old(db.blocks) && db.nextBlockId == old(db.nextBlockId)
    ensures mirrors.Some? <==> resp.Created?
    ensures session.None? ==> resp == PostUnauthorized
    ensures session.Some? && body.InvalidJson? ==> resp == ServerError
    ensures session.Some? && !body.InvalidJson? && Validate(body, parseDate).None? ==> resp == BadRequest
    ensures session.Some? && !body.InvalidJson? && Validate(body, parseDate).Some? ==>
              (resp == NotFound <==> FindBlock(old(db.blocks), Validate(body, parseDate).value.blockId).None?)
    ensures (&& session.Some? && !body.InvalidJson? && Validate(body, parseDate).Some?
             && FindBlock(old(db.blocks), Validate(body, parseDate).value.blockId).Some?) ==> resp.Created?
    ensures !resp.Created? ==>
              db.reservations == old(db.reservations) && db.nextReservationId == old(db.nextReservationId)
    ensures resp.Created? ==>
              && session.Some? && !body.InvalidJson? && Validate(body, parseDate).Some?
              && var input := Validate(body, parseDate).value;
                 var block := FindBlock(old(db.blocks), input.blockId).value;
                 var r := NewReservation(old(db.nextReservationId), session.value.id, input,
                                         Lookup(old(db.users), session.value.id), defaultStatus);
                 var call := if GC.HasCredentials(old(db.users), block.adminId) then adminCall else Threw;
                 && resp == Created(r)
                 && db.reservations == old(db.reservations) + [r.(googleEventId := MirroredEventId(call))]
                 && db.nextReservationId == old(db.nextReservationId) + 1
                 && mirrors == Some(MirrorRequests(
                      block.adminId, AdminEvent(input, Lookup(old(db.users), session.value.id)),
                      session.value.id, MemberEvent(input, Lookup(old(db.users), block.adminId))))
  {
    if session.None? {
      return PostUnauthorized, None;
    }
    var uid := session.value.id;
    if body.InvalidJson? {
      return ServerError, None;
    }
    var parsed := Validate(body, parseDate);
    if parsed.None? {
      return BadRequest, None;
    }
    var input := parsed.value;
    var block := FindBlock(db.blocks, input.blockId);
    if block.None? {
      return NotFound, None;
    }
    var adminId := block.value.adminId;
    var user := Lookup(db.users, uid);
    var reservation := NewReservation(db.nextReservationId, uid, input, user, defaultStatus);
    db.reservations := db.reservations + [reservation];
    db.nextReservationId := db.nextReservationId + 1;

    var adminEvent := AdminEvent(input, user);
    var call := if GC.HasCredentials(db.users, adminId) then adminCall else Threw;
    var eventId := MirroredEventId(call);
    if eventId.Some? {
      db.reservations := db.reservations[|db.reservations| - 1 := reservation.(googleEventId := eventId)];
    }
    var memberEvent := MemberEvent(input, Lookup(db.users, adminId));
    assert db.reservations == old(db.reservations) + [reservation.(googleEventId := eventId)];
    resp := Created(reservation);
    mirrors := Some(MirrorRequests(adminId, adminEvent, uid, memberEvent));
  }
}
