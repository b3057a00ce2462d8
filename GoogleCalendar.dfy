/** The calendar service: the credential check every call starts with, the sync pass,
    the busy-time listing, and the request bodies of event insertion and patching.
    The remote calendar is not modelled: what a call returns is a parameter. */
module GoogleCalendar {
  import opened Base
  import opened Text
  import opened Store
  import opened CalendarSync
  import SyncReconciliation

  /** What listing the calendar's events gave: a response (its `items` may be missing), or a failure. */
  datatype Listing = Listed(items: Option<seq<CalendarEvent>>) | ListFailed

  datatype CalendarError = NoCredentials | CalendarUnavailable

  datatype SyncResult = Synced(synced: nat, removed: nat) | SyncFailed(error: CalendarError)

  /** `response.data.items || []`. */
  function EventsOf(listing: Listing): seq<CalendarEvent>
    requires listing.Listed?
  {
    if listing.items.Some? then listing.items.value else []
  }

  /** A client can be built for the user: the row exists and holds both tokens. */
  predicate HasCredentials(users: map<UserId, User>, userId: UserId)
  {
    userId in users && Truthy(users[userId].accessToken) && Truthy(users[userId].refreshToken)
  }

  // ---------------------------------------------------------------------------
  // syncAvailableBlocks

  /** One sync pass for `adminId`: upsert a block per tagged event, then delete the admin's
      blocks whose event is gone, and report how many ids were processed and how many removed. */
  method SyncAvailableBlocks(db: Database, adminId: UserId, listing: Listing) returns (r: SyncResult)
    requires db.Valid()
    modifies db
    ensures db.Valid()
    ensures db.users == old(db.users) && db.reservations == old(db.reservations)
    ensures db.nextReservationId == old(db.nextReservationId)
    ensures !HasCredentials(old(db.users), adminId) ==>
              r == SyncFailed(NoCredentials) && db.blocks == old(db.blocks) && db.nextBlockId == old(db.nextBlockId)
    ensures HasCredentials(old(db.users), adminId) && listing.ListFailed? ==>
              r == SyncFailed(CalendarUnavailable) && db.blocks == old(db.blocks) && db.nextBlockId == old(db.nextBlockId)
    ensures HasCredentials(old(db.users), adminId) && listing.Listed? ==>
              var o := Sync(Table(old(db.blocks), old(db.nextBlockId)), adminId, EventsOf(listing));
              r == Synced(o.synced, o.removed) && db.blocks == o.table.rows && db.nextBlockId == o.table.nextId
  {
    if !HasCredentials(db.users, adminId) {
      return SyncFailed(NoCredentials);
    }
    if listing.ListFailed? {
      return SyncFailed(CalendarUnavailable);
    }
    var events := EventsOf(listing);
    ghost var t0 := Table(db.blocks, db.nextBlockId);
    var existing := AdminEventIds(db.blocks, adminId);
    var processed: set<EventId> := {};
    var i := 0;
    while i < |events|
      invariant 0 <= i <= |events|
      invariant processed == ProcessedIds(events[..i])
      invariant Table(db.blocks, db.nextBlockId) == UpsertAll(t0, adminId, events[..i])
      invariant db.users == old(db.users) && db.reservations == old(db.reservations)
      invariant db.nextReservationId == old(db.nextReservationId)
    {
      var ev := events[i];
      i := i + 1;
      assert events[..i][..i - 1] == events[..i - 1];
      if !Truthy(ev.id) || !TimedStart(ev) || !TimedEnd(ev) {
        continue;
      }
      if !(ev.summary.Some? && Contains(ev.summary.value, AVAILABLE_KEYWORD)) {
        continue;
      }
      processed := processed + {ev.id.value};
      var u := Upsert(Table(db.blocks, db.nextBlockId), adminId, ev.id.value, FieldsOf(ev));
      db.blocks, db.nextBlockId := u.rows, u.nextId;
    }
    assert events[..i] == events;
    var stale := existing - Present(processed);
    if |stale| > 0 {
      db.blocks := DeleteStale(db.blocks, adminId, stale);
    }
    SyncReconciliation.SyncKeepsInvariants(t0, adminId, events);
    r := Synced(|processed|, |stale|);
  }

  // ---------------------------------------------------------------------------
  // getBusyTimes

  datatype BusyTime = BusyTime(start: Time, end: Time)

  datatype BusyResult = Busy(times: seq<BusyTime>) | BusyFailed(error: CalendarError)

  /** `dateTime || date` of an event's start or end. */
  function Bound(t: Option<EventDateTime>): (r: Option<Time>)
    ensures t.None? ==> r.None?
    ensures t.Some? && t.value.dateTime.Some? ==> r == t.value.dateTime
    ensures t.Some? && t.value.dateTime.None? ==> r == t.value.date
  {
    match t
    case None => None
    case Some(d) => if d.dateTime.Some? then d.dateTime else d.date
  }

  /** The event is one the listing skips: it offers time, or it was cancelled. */
  predicate NotBusy(ev: CalendarEvent)
  {
    (ev.summary.Some? && Contains(ev.summary.value, AVAILABLE_KEYWORD)) || ev.status == Some("cancelled")
  }

  /** The busy interval an event contributes, if any. */
  function BusyOf(ev: CalendarEvent): (r: Option<BusyTime>)
    ensures r.Some? <==> !NotBusy(ev) && Bound(ev.start).Some? && Bound(ev.end).Some?
    ensures r.Some? ==> r.value.start == Bound(ev.start).value && r.value.end == Bound(ev.end).value
  {
    if NotBusy(ev) then None
    else if Bound(ev.start).Some? && Bound(ev.end).Some? then Some(BusyTime(Bound(ev.start).value, Bound(ev.end).value))
    else None
  }

  /** The busy intervals of a listing, in listing order. */
  function BusyTimes(events: seq<CalendarEvent>): (r: seq<BusyTime>)
    ensures |r| <= |events|
  {
    if events == [] then []
    else
      var ev := events[|events| - 1];
      BusyTimes(events[..|events| - 1]) + if BusyOf(ev).Some? then [BusyOf(ev).value] else []
  }

  /** Listing two parts is listing each, one after the other. */
  lemma {:induction false} BusyTimesAppend(a: seq<CalendarEvent>, b: seq<CalendarEvent>)
    ensures BusyTimes(a + b) == BusyTimes(a) + BusyTimes(b)
  {
    if b != [] {
      var b' := b[..|b| - 1];
      assert (a + b)[..|a + b| - 1] == a + b';
      var ev := b[|b| - 1];
      assert (a + b)[|a + b| - 1] == ev;
      var tail := if BusyOf(ev).Some? then [BusyOf(ev).value] else [];
      assert BusyTimes(a + b) == BusyTimes(a + b') + tail;
      assert BusyTimes(b) == BusyTimes(b') + tail;
      BusyTimesAppend(a, b');
    } else {
      assert a + b == a;
    }
  }

  /** An interval is listed iff some event of the listing contributes it. */
  lemma {:induction false} BusyTimesMembers(events: seq<CalendarEvent>)
    ensures forall x :: x in BusyTimes(events) <==> exists j :: 0 <= j < |events| && BusyOf(events[j]) == Some(x)
  {
    if events != [] {
      var init := events[..|events| - 1];
      BusyTimesMembers(init);
      forall x ensures x in BusyTimes(events) <==> exists j :: 0 <= j < |events| && BusyOf(events[j]) == Some(x) {
        if x in BusyTimes(events) {
          if x in BusyTimes(init) {
            var j :| 0 <= j < |init| && BusyOf(init[j]) == Some(x);
            assert events[j] == init[j];
          } else {
            assert BusyOf(events[|events| - 1]) == Some(x);
          }
        }
        if exists j :: 0 <= j < |events| && BusyOf(events[j]) == Some(x) {
          var j :| 0 <= j < |events| && BusyOf(events[j]) == Some(x);
          if j < |init| {
            assert events[j] == init[j];
          }
        }
      }
    }
  }

  /** The time an admin offers never counts against them, and neither does a cancelled event. */
  lemma OfferedTimeIsNotBusy(ev: CalendarEvent)
    requires Tagged(ev) || ev.status == Some("cancelled")
    ensures BusyTimes([ev]) == []
  {
    assert [ev][..0] == [];
  }

  /** The busy intervals of the user's calendar. */
  method GetBusyTimes(users: map<UserId, User>, userId: UserId, listing: Listing) returns (r: BusyResult)
    ensures !HasCredentials(users, userId) ==> r == BusyFailed(NoCredentials)
    ensures HasCredentials(users, userId) && listing.ListFailed? ==> r == BusyFailed(CalendarUnavailable)
    ensures HasCredentials(users, userId) && listing.Listed? ==> r == Busy(BusyTimes(EventsOf(listing)))
  {
    if !HasCredentials(users, userId) {
      return BusyFailed(NoCredentials);
    }
    if listing.ListFailed? {
      return BusyFailed(CalendarUnavailable);
    }
    var events := EventsOf(listing);
    var busy: seq<BusyTime> := [];
    for i := 0 to |events|
      invariant busy == BusyTimes(events[..i])
    {
      var ev := events[i];
      assert events[..i + 1][..i] == events[..i];
      if ev.summary.Some? && Contains(ev.summary.value, AVAILABLE_KEYWORD) {
        continue;
      }
      if ev.status == Some("cancelled") {
        continue;
      }
      var start := Bound(ev.start);
      var end := Bound(ev.end);
      if start.Some? && end.Some? {
        busy := busy + [BusyTime(start.value, end.value)];
      }
    }
    assert events[..|events|] == events;
    return Busy(busy);
  }

  // ---------------------------------------------------------------------------
  // createCalendarEvent and updateCalendarEvent: the request bodies

  /** The time zone every inserted event is pinned to. */
  const TIME_ZONE: string := "Asia/Tokyo"

  datatype Attendee = Attendee(email: string)

  /** The parameters of `createCalendarEvent`. */
  datatype EventRequest = EventRequest(
    summary: string,
    description: Option<string>,
    startTime: Time,
    endTime: Time,
    attendeeEmails: Option<seq<string>>)

  datatype EventTime = EventTime(dateTime: Time, timeZone: string)

  /** The body sent to `events.insert`. */
  datatype EventBody = EventBody(
    summary: string,
    description: Option<string>,
    start: EventTime,
    end: EventTime,
    attendees: Option<seq<Attendee>>)

  /** The body sent to `events.patch`: only the fields that are present are changed. */
  datatype EventPatch = EventPatch(
    summary: Option<string>,
    description: Option<string>,
    attendees: Option<seq<Attendee>>)

  /** `emails.map((email) => ({ email }))`. */
  function AttendeesOf(emails: seq<string>): (r: seq<Attendee>)
    ensures |r| == |emails|
    ensures forall i :: 0 <= i < |r| ==> r[i].email == emails[i]
  {
    if emails == [] then [] else [Attendee(emails[0])] + AttendeesOf(emails[1..])
  }

  /** The addresses of a list of attendees. */
  function Emails(attendees: seq<Attendee>): (r: seq<string>)
    ensures |r| == |attendees|
  {
    if attendees == [] then [] else [attendees[0].email] + Emails(attendees[1..])
  }

  /** The attendee list gives back exactly the addresses it was built from. */
  lemma {:induction false} EmailsOfAttendees(emails: seq<string>)
    ensures Emails(AttendeesOf(emails)) == emails
  {
    if emails != [] {
      EmailsOfAttendees(emails[1..]);
      assert AttendeesOf(emails)[1..] == AttendeesOf(emails[1..]);
    }
  }

  /** The insertion body: every parameter carried over, times pinned to Tokyo. */
  function InsertBody(p: EventRequest): (b: EventBody)
    ensures b.summary == p.summary && b.description == p.description
    ensures b.start == EventTime(p.startTime, TIME_ZONE) && b.end == EventTime(p.endTime, TIME_ZONE)
    ensures b.attendees.Some? <==> p.attendeeEmails.Some?
    ensures b.attendees.Some? ==> Emails(b.attendees.value) == p.attendeeEmails.value
  {
    if p.attendeeEmails.Some? then EmailsOfAttendees(p.attendeeEmails.value); EventBody(p.summary, p.description, EventTime(p.startTime, TIME_ZONE), EventTime(p.endTime, TIME_ZONE), Some(AttendeesOf(p.attendeeEmails.value)))
    else EventBody(p.summary, p.description, EventTime(p.startTime, TIME_ZONE), EventTime(p.endTime, TIME_ZONE), None)
  }

  /** `response.data.id || null`: the id of the inserted event, an empty one read as none. */
  function InsertedEventId(responseId: Option<string>): (r: Option<EventId>)
    ensures r.Some? <==> Truthy(responseId)
    ensures r.Some? ==> r == responseId
    ensures r != Some("")
  {
    if Truthy(responseId) then responseId else None
  }

  /** The patch body: a summary or description only when non-empty, attendees whenever a list is given. */
  method BuildPatch(summary: Option<string>, description: Option<string>, attendeeEmails: Option<seq<string>>)
    returns (event: EventPatch)
    ensures event.summary == (if Truthy(summary) then summary else None)
    ensures event.description == (if Truthy(description) then description else None)
    ensures event.attendees.Some? <==> attendeeEmails.Some?
    ensures event.attendees.Some? ==> Emails(event.attendees.value) == attendeeEmails.value
  {
    event := EventPatch(None, None, None);
    if Truthy(summary) {
      event := event.(summary := summary);
    }
    if Truthy(description) {
      event := event.(description := description);
    }
    if attendeeEmails.Some? {
      EmailsOfAttendees(attendeeEmails.value);
      event := event.(attendees := Some(AttendeesOf(attendeeEmails.value)));
    }
  }
}
