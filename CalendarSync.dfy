/** The reconciliation that `syncAvailableBlocks` performs, as functions on the block table:
    which events count, how a block is derived from one, the upsert keyed by remote event id,
    and the removal of the admin's blocks whose event was not seen. */
module CalendarSync {
  import opened Base
  import opened Text
  import opened Store

  /** The tag an admin puts in an event's title to offer that time for booking. */
  const AVAILABLE_KEYWORD: string := "[予約可]"

  /** An event's `start` or `end`: a timed `dateTime`, or an all-day `date`. */
  datatype EventDateTime = EventDateTime(dateTime: Option<Time>, date: Option<Time>)

  /** A remote calendar event, with the fields the core reads. */
  datatype CalendarEvent = CalendarEvent(
    id: Option<EventId>,
    summary: Option<string>,
    status: Option<string>,
    start: Option<EventDateTime>,
    end: Option<EventDateTime>)

  /** The columns of a block that an event determines. */
  datatype BlockFields = BlockFields(title: Option<string>, startTime: Time, endTime: Time)

  /** The block table together with its primary-key counter. */
  datatype Table = Table(rows: seq<AvailableBlock>, nextId: nat)

  datatype SyncOutcome = SyncOutcome(table: Table, synced: nat, removed: nat)

  // ---------------------------------------------------------------------------
  // One event

  /** The event has a start `dateTime`. */
  predicate TimedStart(ev: CalendarEvent)
  {
    ev.start.Some? && ev.start.value.dateTime.Some?
  }

  /** The event has an end `dateTime`. */
  predicate TimedEnd(ev: CalendarEvent)
  {
    ev.end.Some? && ev.end.value.dateTime.Some?
  }

  /** The sync pass processes an event iff it has an id, timed start and end, and a tagged summary. */
  predicate Tagged(ev: CalendarEvent)
  {
    && Truthy(ev.id)
    && TimedStart(ev)
    && TimedEnd(ev)
    && ev.summary.Some? && Contains(ev.summary.value, AVAILABLE_KEYWORD)
  }

  /** A block's title: the summary without its first tag, trimmed; `None` when nothing is left. */
  function NormalizeTitle(summary: string): (r: Option<string>)
    ensures r.None? <==> AllSpace(RemoveFirst(summary, AVAILABLE_KEYWORD))
    ensures r.Some? ==> r.value != [] && !IsJsSpace(r.value[0]) && !IsJsSpace(r.value[|r.value| - 1])
    ensures r.Some? ==> r.value == Trim(RemoveFirst(summary, AVAILABLE_KEYWORD))
  {
    var t := Trim(RemoveFirst(summary, AVAILABLE_KEYWORD));
    if t == "" then None else Some(t)
  }

  /** A title that was only the tag and white space becomes `None`. */
  lemma TagOnlyTitleIsNone(pad1: string, pad2: string)
    requires AllSpace(pad1) && AllSpace(pad2)
    ensures NormalizeTitle(pad1 + AVAILABLE_KEYWORD + pad2) == None
  {
    var s := pad1 + AVAILABLE_KEYWORD + pad2;
    assert OccursAt(s, AVAILABLE_KEYWORD, |pad1|) by {
      assert s[|pad1|..|pad1| + |AVAILABLE_KEYWORD|] == AVAILABLE_KEYWORD;
    }
    forall j | 0 <= j < |pad1| ensures !OccursAt(s, AVAILABLE_KEYWORD, j) {
      assert s[j] == pad1[j];
      assert s[j] != AVAILABLE_KEYWORD[0];
    }
    var i := IndexOf(s, AVAILABLE_KEYWORD).value;
    assert i == |pad1|;
    var r := RemoveFirst(s, AVAILABLE_KEYWORD);
    assert r == s[..i] + s[i + |AVAILABLE_KEYWORD|..];
    assert s[..i] == pad1;
    assert s[i + |AVAILABLE_KEYWORD|..] == pad2;
    assert r == pad1 + pad2;
    assert AllSpace(r) by {
      forall k | 0 <= k < |r| ensures IsJsSpace(r[k]) {
        if k < |pad1| { assert r[k] == pad1[k]; } else { assert r[k] == pad2[k - |pad1|]; }
      }
    }
  }

  /** The block columns a tagged event determines; start and end are copied as they are. */
  function FieldsOf(ev: CalendarEvent): (f: BlockFields)
    requires Tagged(ev)
    ensures f.startTime == ev.start.value.dateTime.value && f.endTime == ev.end.value.dateTime.value
    ensures f.title == NormalizeTitle(ev.summary.value)
  {
    BlockFields(NormalizeTitle(ev.summary.value), ev.start.value.dateTime.value, ev.end.value.dateTime.value)
  }

  function WithFields(x: AvailableBlock, f: BlockFields): AvailableBlock
  {
    x.(title := f.title, startTime := f.startTime, endTime := f.endTime)
  }

  // ---------------------------------------------------------------------------
  // A list of events

  /** `processedEventIds` after the loop: the ids of the tagged events. */
  function ProcessedIds(events: seq<CalendarEvent>): set<EventId>
  {
    if events == [] then {}
    else
      var ev := events[|events| - 1];
      ProcessedIds(events[..|events| - 1]) + if Tagged(ev) then {ev.id.value} else {}
  }

  /** The fields of the last tagged event with id `e`: the values the upserts leave behind. */
  function LastFields(events: seq<CalendarEvent>, e: EventId): Option<BlockFields>
  {
    if events == [] then None
    else
      var ev := events[|events| - 1];
      if Tagged(ev) && ev.id.value == e then Some(FieldsOf(ev))
      else LastFields(events[..|events| - 1], e)
  }

  /** An id is processed iff some tagged event of the listing carries it. */
  lemma {:induction false} ProcessedIdsMembers(events: seq<CalendarEvent>)
    ensures forall e :: e in ProcessedIds(events) <==>
              exists i :: 0 <= i < |events| && Tagged(events[i]) && events[i].id.value == e
  {
    if events != [] {
      var init := events[..|events| - 1];
      ProcessedIdsMembers(init);
      assert forall i :: 0 <= i < |init| ==> init[i] == events[i];
    }
  }

  lemma {:induction false} LastFieldsProcessed(events: seq<CalendarEvent>, e: EventId)
    ensures LastFields(events, e).Some? <==> e in ProcessedIds(events)
  {
    if events != [] {
      LastFieldsProcessed(events[..|events| - 1], e);
    }
  }

  /** Appending one event: how the processed ids and the last fields change. */
  lemma SnocEvent(init: seq<CalendarEvent>, ev: CalendarEvent)
    ensures ProcessedIds(init + [ev]) == ProcessedIds(init) + if Tagged(ev) then {ev.id.value} else {}
    ensures forall e :: LastFields(init + [ev], e) == if Tagged(ev) && ev.id.value == e then Some(FieldsOf(ev)) else LastFields(init, e)
  {
    assert (init + [ev])[..|init + [ev]| - 1] == init;
  }

  /** An existing block after the pass: its columns from the last tagged event with its id, if any. */
  function Refresh(x: AvailableBlock, events: seq<CalendarEvent>): (y: AvailableBlock)
    ensures y.id == x.id && y.adminId == x.adminId && y.googleEventId == x.googleEventId
  {
    match x.googleEventId
    case None => x
    case Some(e) =>
      match LastFields(events, e)
      case None => x
      case Some(f) => WithFields(x, f)
  }

  // ---------------------------------------------------------------------------
  // The table operations

  /** The remote event ids held by `rows` (as nullable values). */
  function EventIdsOf(rows: seq<AvailableBlock>): set<Option<EventId>>
  {
    set x | x in rows :: x.googleEventId
  }

  /** `existingEventIds`: the remote event ids of the admin's blocks. */
  function AdminEventIds(rows: seq<AvailableBlock>, adminId: UserId): set<Option<EventId>>
  {
    set x | x in rows && x.adminId == adminId :: x.googleEventId
  }

  /** The processed ids as nullable values. */
  function Present(ids: set<EventId>): set<Option<EventId>>
  {
    set e | e in ids :: Some(e)
  }

  /** The block holding remote event `e`, searched from index `i`. */
  function FindByEvent(rows: seq<AvailableBlock>, e: EventId, i: nat): (r: Option<nat>)
    requires i <= |rows|
    decreases |rows| - i
    ensures r.Some? ==> i <= r.value < |rows| && rows[r.value].googleEventId == Some(e)
    ensures r.None? ==> forall j :: i <= j < |rows| ==> rows[j].googleEventId != Some(e)
  {
    if i == |rows| then None
    else if rows[i].googleEventId == Some(e) then Some(i)
    else FindByEvent(rows, e, i + 1)
  }

  /** `upsert` keyed by `googleEventId`: update the block holding `e`, or create one for `adminId`. */
  function Upsert(t: Table, adminId: UserId, e: EventId, f: BlockFields): Table
  {
    match FindByEvent(t.rows, e, 0)
    case Some(j) => Table(t.rows[j := WithFields(t.rows[j], f)], t.nextId)
    case None => Table(t.rows + [AvailableBlock(t.nextId, adminId, Some(e), f.title, f.startTime, f.endTime)], t.nextId + 1)
  }

  /** After an upsert the id is held; existing rows keep their key, admin and remote id; and at most one
      row is added, only when no row held the id, with the next key and for this admin. */
  lemma UpsertKeepsKeys(t: Table, adminId: UserId, e: EventId, f: BlockFields)
    ensures var r := Upsert(t, adminId, e, f);
            && Some(e) in EventIdsOf(r.rows)
            && |t.rows| <= |r.rows| <= |t.rows| + 1 && r.nextId == t.nextId + (|r.rows| - |t.rows|)
            && (forall i :: 0 <= i < |t.rows| ==>
                  && r.rows[i].id == t.rows[i].id && r.rows[i].adminId == t.rows[i].adminId
                  && r.rows[i].googleEventId == t.rows[i].googleEventId)
            && (|r.rows| > |t.rows| ==>
                  && Some(e) !in EventIdsOf(t.rows)
                  && r.rows[|t.rows|].id == t.nextId && r.rows[|t.rows|].adminId == adminId)
  {
    var r := Upsert(t, adminId, e, f);
    var found := FindByEvent(t.rows, e, 0);
    if found.Some? {
      assert r.rows[found.value] in r.rows;
    } else {
      assert r.rows[|t.rows|] in r.rows;
    }
  }

  /** The table after the loop has upserted every tagged event, in list order. */
  function UpsertAll(t: Table, adminId: UserId, events: seq<CalendarEvent>): Table
  {
    if events == [] then t
    else
      var ev := events[|events| - 1];
      var u := UpsertAll(t, adminId, events[..|events| - 1]);
      if Tagged(ev) then Upsert(u, adminId, ev.id.value, FieldsOf(ev)) else u
  }

  /** The block is one `deleteMany` removes: the admin's, holding a non-null id of `stale`. */
  predicate Removed(x: AvailableBlock, adminId: UserId, stale: set<Option<EventId>>)
  {
    x.adminId == adminId && x.googleEventId.Some? && x.googleEventId in stale
  }

  /** `deleteMany` of the admin's blocks whose remote event id is in `stale`. */
  function DeleteStale(rows: seq<AvailableBlock>, adminId: UserId, stale: set<Option<EventId>>): (r: seq<AvailableBlock>)
    ensures forall x :: x in r <==> x in rows && !Removed(x, adminId, stale)
    ensures stale == {} ==> r == rows
    ensures EventIdsUnique(rows) ==> EventIdsUnique(r)
  {
    if rows == [] then []
    else
      var rest := DeleteStale(rows[1..], adminId, stale);
      assert rows == [rows[0]] + rows[1..];
      assert forall x :: x in rows <==> x == rows[0] || x in rows[1..];
      if Removed(rows[0], adminId, stale) then rest
      else
        assert EventIdsUnique(rows) ==> EventIdsUnique([rows[0]] + rest) by {
          if EventIdsUnique(rows) {
            assert EventIdsUnique(rows[1..]);
            forall i, j | 0 <= i < j < |[rows[0]] + rest| && ([rows[0]] + rest)[i].googleEventId.Some?
              ensures ([rows[0]] + rest)[i].googleEventId != ([rows[0]] + rest)[j].googleEventId
            {
              if i == 0 {
                var y := rest[j - 1];
                assert y in rows[1..];
                var k :| 0 <= k < |rows[1..]| && rows[1..][k] == y;
                assert rows[k + 1] == y;
              }
            }
          }
        }
        [rows[0]] + rest
  }

  /** The whole pass over a listed event set: upserts, then the removal of unseen ids. */
  function Sync(t: Table, adminId: UserId, events: seq<CalendarEvent>): SyncOutcome
  {
    var existing := AdminEventIds(t.rows, adminId);
    var processed := ProcessedIds(events);
    var u := UpsertAll(t, adminId, events);
    var stale := existing - Present(processed);
    SyncOutcome(Table(DeleteStale(u.rows, adminId, stale), u.nextId), |processed|, |stale|)
  }
}
