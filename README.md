# Booking core: slots, calendar sync and reservations, in Dafny

This project models the server-side core of a booking system in which admins offer
time by tagging events `[予約可]` on their Google Calendar and members book
30-minute slots of that time.

- **Slot derivation** (`Slots`, the blocks route). Every availability block
  that starts at or after now is taken in ascending start order. Each is cut
  into whole 30-minute slots, and a partial trailing slot is dropped. Each slot
  carries the block's id, its admin, and the block's confirmed reservations that
  overlap the slot under the half-open test `rStart < slotEnd && rEnd > slotStart`.
- **Availability sync** (`CalendarSync` for the table operations,
  `SyncReconciliation` for the proofs, `GoogleCalendar.SyncAvailableBlocks` for
  the loop).
  - Events the admin tagged are upserted into the block table, keyed by their
    remote event id.
  - The admin's blocks whose event id was not seen in the pass are then deleted.
  - The pass reports `synced` (distinct processed ids) and `removed` (the size
    of the deletion list).
- **Busy times and request bodies** (`GoogleCalendar`):
  - the busy-interval listing;
  - the body of an event insertion, and the id read back from it;
  - the conditional patch body of an event update.
- **Reservations** (`ReservationsRoute`).
  - GET lists the confirmed reservations visible to the caller, by ascending
    start.
  - POST validates the body, stores a one-on-one reservation made by the
    caller, and mirrors it onto both calendars on a best-effort basis.

Modelling choices:

- **Instants** are integer milliseconds, and `SLOT = 30 * 60 * 1000`.
- **Tables** are sequences in insertion order. A query's `orderBy` is an
  insertion sort that keeps table order among equal keys.
- **Primary keys** of blocks and reservations are naturals handed out by
  counters in `Store.Database`. A request's `blockId` string is represented by
  the key it names. A string that names no block is an unused key.
- **The calendar is never called.**
  - What `events.list` gave is an input (`GoogleCalendar.Listing`).
  - How an insertion ended is an input (`ReservationsRoute.CalendarCall`).
  - The events the handler asks to create are outputs
    (`ReservationsRoute.MirrorRequests`).
- **ISO datetime validity and parsing** are one abstract parameter,
  `parseDate: string -> Option<Time>`.
- **The reservation `status`** that a create leaves to the schema default is a
  parameter. The schema is not part of this model.
- **Credentials.** Every calendar call first needs the user's row with both
  tokens present (`GoogleCalendar.HasCredentials`). Otherwise:
  - the sync pass fails with no change;
  - the admin-side insertion of a booking counts as thrown.
- **The model follows the handlers as written:**
  - the default title is `<name>との予約`;
  - a booking is always `ONE_ON_ONE`;
  - bookings need a session;
  - slot derivation applies no busy-time filtering, because the blocks route
    never calls `getBusyTimes`.
- **Null remote event ids in the admin's snapshot.**
  - A block whose `googleEventId` is null puts `None` into the admin's
    pre-sync id set.
  - `removed` then counts it, but the deletion never removes it: `IN` never
    matches NULL.
  - The idempotence and removal-count lemmas therefore assume that none of the
    admin's blocks lacks an id.

## Model

| member | source | states |
|---|---|---|
| `Text.IndexOf` | apps/web/services/google-calendar.ts:79 | the first index at which the marker occurs, or none when it occurs nowhere (`includes`) |
| `Text.RemoveFirst` | apps/web/services/google-calendar.ts:86 | `replace(marker, "")` leaves a summary without the marker unchanged and otherwise shortens it by exactly the marker's length |
| `Text.RemoveFirstRestores` | apps/web/services/google-calendar.ts:86 | putting the marker back at its first index restores the summary: only that one occurrence was cut |
| `Text.Trim` | apps/web/services/google-calendar.ts:86 | `trim()` gives an infix of the input whose removed prefix and suffix are all JavaScript white space, whose ends are not white space, and which is empty iff the input is all white space |
| `Ordering.SortBy` | apps/web/app/api/reservations/route.ts:74 | `orderBy: { startTime: "asc" }` returns a permutation of its input in ascending key order |
| `Ordering.SortByMembers` | apps/web/app/api/blocks/route.ts:45 | sorting keeps the length and exactly the same members |
| `Slots.FutureBlocks` | apps/web/app/api/blocks/route.ts:13-16 | a block is selected iff it is stored and starts at or after now |
| `Slots.SelectedBlocks` | apps/web/app/api/blocks/route.ts:13-46 | the walked blocks are the future blocks, as a permutation, in ascending start order |
| `Slots.BlockReservations` | apps/web/app/api/blocks/route.ts:26-29 | a block's included reservations are exactly its CONFIRMED ones |
| `Slots.Overlapping` | apps/web/app/api/blocks/route.ts:59-63 | a reservation is attached to a slot iff `rStart < slotEnd && rEnd > slotStart` |
| `Slots.OverlappingConcat` | apps/web/app/api/blocks/route.ts:59-63 | the filter keeps the reservations' original order: the filter of a concatenation is the concatenation of the filters |
| `Slots.AdminOf` | apps/web/app/api/blocks/route.ts:18-25 | definition: a slot's `admin` is the admin's user row reduced to id, name, email and image, or null when the row is missing; used by `BlockSlotsShape` |
| `Slots.ParticipantUser` | apps/web/app/api/blocks/route.ts:31-41 | definition: a participant's `user` is their row reduced to id, name and email, or null for a guest; its meaning is proved in `SummaryShowsParticipants` |
| `Slots.SummaryShowsParticipants` | apps/web/app/api/blocks/route.ts:70-75 | with users keyed by id, a slot reservation's participant `j` is null exactly when participant `j` is a guest or has no user row, and is otherwise that user, with the user's own id, name and email. The reduction `Summarize`/`SummarizeAll` keeps id, type, title and the participants in order |
| `Slots.SlotAt` | apps/web/app/api/blocks/route.ts:66-76 | definition: the slot pushed at `t`, lasting 30 minutes, with the block's id and admin and the overlapping reservations reduced; its placement is proved in `BlockSlotsShape` |
| `Slots.SlotsFrom` | apps/web/app/api/blocks/route.ts:54-78 | definition: the walk from `t`, which stops when `t` reaches the end or the next slot would pass it; counted by `SlotsFromCount` and indexed by `SlotsFromAt` |
| `Slots.BlockSlots` | apps/web/app/api/blocks/route.ts:49-81 | definition: the walk from the block's start; shaped by `BlockSlotsShape` and computed by the loop of `WalkBlock` |
| `Slots.SlotsFromCount` | apps/web/app/api/blocks/route.ts:54-78 | a walk from `t` emits `(end - t) / 30min` slots when `end > t` and none otherwise |
| `Slots.SlotsFromAt` | apps/web/app/api/blocks/route.ts:54-78 | the `i`-th slot of a walk from `t` starts at `t + i * 30min` and ends no later than the block |
| `Slots.BlockSlotsShape` | apps/web/app/api/blocks/route.ts:49-79 | a block of length L gives `floor(L / 30min)` slots, none if L <= 0. Each slot lasts exactly 30 minutes, lies inside the block, carries the block's id and admin, and carries exactly the overlapping reservations |
| `Slots.BlockSlotsContiguous` | apps/web/app/api/blocks/route.ts:78 | each slot starts where the previous one ends, so starts strictly increase |
| `Slots.SlotCountExamples` | apps/web/app/api/blocks/route.ts:54-56 | 90 minutes give 3 slots, 100 minutes also 3, an empty block none |
| `Slots.FlatSlots` | apps/web/app/api/blocks/route.ts:49 | definition: `flatMap` over the blocks in order, each with its confirmed reservations; `FlatSlotsOrigin` proves where every slot comes from |
| `Slots.DerivedSlots` | apps/web/app/api/blocks/route.ts:13-82 | definition: the slots of the selected future blocks; `DerivedSlotsFromFutureBlocks` proves their origin and `Get` returns them |
| `Slots.FlatSlotsOrigin` | apps/web/app/api/blocks/route.ts:49-82 | every slot of the concatenated lists is a well-placed slot of one of the walked blocks |
| `Slots.DerivedSlotsFromFutureBlocks` | apps/web/app/api/blocks/route.ts:13-82 | every returned slot is a well-placed slot of a stored block that starts at or after now |
| `Slots.WalkBlock` | apps/web/app/api/blocks/route.ts:50-81 | the `while` loop emits exactly the block's slot list, `floor(L / 30min)` of them |
| `Slots.Get` | apps/web/app/api/blocks/route.ts:5-85 | 401 iff there is no session user; otherwise the per-block slot lists of the future blocks, concatenated in ascending start order |
| `CalendarSync.NormalizeTitle` | apps/web/services/google-calendar.ts:86 | the title is the trimmed summary with the first marker removed, and none iff that is all white space. A kept title has no white space at either end |
| `CalendarSync.TagOnlyTitleIsNone` | apps/web/services/google-calendar.ts:86 | a summary holding only the marker and white space gives a null title |
| `CalendarSync.Tagged` | apps/web/services/google-calendar.ts:78-79 | definition: an event is processed iff it has a non-empty id, a start and an end `dateTime`, and a summary containing the marker; decides `UpsertSkipped` and `ProcessedIdsMembers` |
| `CalendarSync.ProcessedIds` | apps/web/services/google-calendar.ts:75-81 | definition: `processedEventIds` after the loop; characterised by `ProcessedIdsMembers` |
| `CalendarSync.ProcessedIdsMembers` | apps/web/services/google-calendar.ts:75-81 | an id is processed iff some tagged event of the listing carries it |
| `CalendarSync.LastFieldsProcessed` | apps/web/services/google-calendar.ts:77-81 | an id has last tagged fields (the values its upserts leave behind) iff it is in `processedEventIds` |
| `CalendarSync.Refresh` | apps/web/services/google-calendar.ts:84-89 | an upserted existing block keeps its id, admin and remote id |
| `CalendarSync.FindByEvent` | apps/web/services/google-calendar.ts:84 | the upsert's `where` finds the block holding the event id, or reports that none does |
| `CalendarSync.Upsert` | apps/web/services/google-calendar.ts:83-97 | definition: the upsert keyed by `googleEventId`, whose title, start and end are `FieldsOf` the tagged event (title normalised, times copied); its effect is stated by `UpsertKeepsKeys`, `UpsertFound` and `UpsertCreated` |
| `CalendarSync.UpsertKeepsKeys` | apps/web/services/google-calendar.ts:83-97 | after an upsert the event id is held. Existing blocks keep their key, admin and remote id. At most one block is added, only when no block held the id, and it has the next key and belongs to the syncing admin |
| `CalendarSync.UpsertAll` | apps/web/services/google-calendar.ts:77-98 | definition: the loop's upserts in listing order; its result is characterised by `UpsertAllShaped` |
| `CalendarSync.AdminEventIds` | apps/web/services/google-calendar.ts:68-72 | definition: `existingEventIds`, the set of the admin's blocks' remote ids, null included; used by `Sync` and `SyncRemovedCount` |
| `CalendarSync.DeleteStale` | apps/web/services/google-calendar.ts:106-111 | a block is kept iff it is not one of the admin's blocks holding a non-null stale id. An empty stale set deletes nothing, and the unique index survives |
| `CalendarSync.Sync` | apps/web/services/google-calendar.ts:67-117 | definition: the whole pass on the table. It runs the upserts, then deletes the admin's ids that were not processed, and reports `synced` and `removed`. Its properties are the `SyncReconciliation.Sync*` lemmas, and `SyncAvailableBlocks` is proved to compute it |
| `SyncReconciliation.UpsertSkipped` | apps/web/services/google-calendar.ts:78-79 | the skip step of `UpsertAllShaped`: an event without id, timed start, timed end or marker leaves the table shaped for the longer listing |
| `SyncReconciliation.UpsertFound` | apps/web/services/google-calendar.ts:83-89 | the found step of `UpsertAllShaped`: upserting an event whose id a block already holds leaves the table shaped for the longer listing |
| `SyncReconciliation.UpsertCreated` | apps/web/services/google-calendar.ts:90-96 | the created step of `UpsertAllShaped`: upserting an id no block holds leaves the table shaped for the longer listing, the appended block being a fresh-keyed block of this admin |
| `SyncReconciliation.UpsertAllShaped` | apps/web/services/google-calendar.ts:77-98 | after the loop, each old block is refreshed in place from the last tagged event with its id. New blocks are this admin's, with fresh keys, and hold processed ids that no old block held. Every processed id is held, and the unique index holds |
| `SyncReconciliation.SyncKeepsInvariants` | apps/web/services/google-calendar.ts:49-118 | a pass keeps remote event ids unique and hands out only fresh keys |
| `SyncReconciliation.SyncOldBlocks` | apps/web/services/google-calendar.ts:67-112 | an old block survives, refreshed, iff it is not one of this admin's blocks whose non-null id was missing from the listing |
| `SyncReconciliation.SyncMirrorsEvents` | apps/web/services/google-calendar.ts:77-98 | every processed id is held by a surviving block carrying the last fields of that event. The block belongs to the admin when no block held the id before |
| `SyncReconciliation.SyncNewBlocks` | apps/web/services/google-calendar.ts:90-112 | blocks created by the pass are never deleted in it: every appended block survives, belongs to the admin and mirrors an id no old block held |
| `SyncReconciliation.SyncSparesOthers` | apps/web/services/google-calendar.ts:106-111 | other admins' blocks are never deleted |
| `SyncReconciliation.SyncAdminIds` | apps/web/services/google-calendar.ts:67-112 | provided no block of the admin had a null remote id before the pass, every block of the admin afterwards holds a processed id |
| `SyncReconciliation.SyncSettled` | apps/web/services/google-calendar.ts:77-98 | after a pass every block already carries the fields the same listing would give it, and every processed id is held |
| `SyncReconciliation.SyncIdempotent` | apps/web/services/google-calendar.ts:49-118 | provided no block of the admin had a null remote id before the pass, a second pass over the same listing leaves the table and key counter unchanged, with `removed == 0` and the same `synced` |
| `SyncReconciliation.DeleteCount` | apps/web/services/google-calendar.ts:105-111 | when every stale id is held by one of the admin's blocks, the deletion removes one block per stale id |
| `SyncReconciliation.SyncRemovedCount` | apps/web/services/google-calendar.ts:101-116 | provided no block of the admin had a null remote id before the pass, `removed` is the number of blocks the pass deleted |
| `GoogleCalendar.SyncAvailableBlocks` | apps/web/services/google-calendar.ts:49-118 | fails with no change without credentials or on a failed listing. Otherwise the loop leaves exactly the reconciled table and returns `{synced, removed}`. The table invariants are kept and other tables are untouched |
| `GoogleCalendar.HasCredentials` | apps/web/services/google-calendar.ts:16-18 | definition: a client is built only for a user row with both tokens present; decides the failure cases of `SyncAvailableBlocks`, `GetBusyTimes` and `Post` |
| `GoogleCalendar.EventsOf` | apps/web/services/google-calendar.ts:65 | definition: `response.data.items` of a listing, the empty list when they are missing; the input of `SyncAvailableBlocks` and `GetBusyTimes` |
| `GoogleCalendar.BusyTimes` | apps/web/services/google-calendar.ts:211-228 | definition: the busy intervals of the listing in order. An event contributes one exactly when `BusyOf` gives one: no marker, not cancelled, and both bounds, each the `dateTime` or else the `date` (`Bound`). Characterised by `BusyTimesAppend`, `BusyTimesMembers` and `OfferedTimeIsNotBusy` |
| `GoogleCalendar.BusyTimesAppend` | apps/web/services/google-calendar.ts:211-228 | the listing preserves input order: the intervals of a concatenation are the concatenated intervals |
| `GoogleCalendar.BusyTimesMembers` | apps/web/services/google-calendar.ts:211-228 | an interval is listed iff some event of the listing is busy with it |
| `GoogleCalendar.OfferedTimeIsNotBusy` | apps/web/services/google-calendar.ts:212-216 | an event the sync pass would process, and a cancelled event, add no busy time |
| `GoogleCalendar.GetBusyTimes` | apps/web/services/google-calendar.ts:192-231 | fails without credentials or on a failed listing; otherwise the loop returns exactly the busy intervals of the listing |
| `GoogleCalendar.AttendeesOf` | apps/web/services/google-calendar.ts:143 | one attendee per email, in order, each carrying that email |
| `GoogleCalendar.EmailsOfAttendees` | apps/web/services/google-calendar.ts:170 | reading the emails back from the attendees gives the list they were built from |
| `GoogleCalendar.InsertBody` | apps/web/services/google-calendar.ts:132-144 | the insertion body carries every parameter, pins both times to Asia/Tokyo, and has attendees iff an email list was given |
| `GoogleCalendar.InsertedEventId` | apps/web/services/google-calendar.ts:152 | an empty id is never returned: the result is null when the response id is missing or empty, and otherwise that id |
| `GoogleCalendar.BuildPatch` | apps/web/services/google-calendar.ts:166-171 | the patch sets summary and description only when non-empty. It sets attendees iff an email list is given, even an empty one, with exactly those emails |
| `ReservationsRoute.VisibleConfirmed` | apps/web/app/api/reservations/route.ts:27-41 | a reservation is kept, with its multiplicity, iff it is CONFIRMED and either the filter is admin `all` or the caller created it or takes part in it |
| `ReservationsRoute.ListReservations` | apps/web/app/api/reservations/route.ts:17-78 | 401 iff there is no session; otherwise exactly the visible confirmed reservations, sorted by ascending start |
| `ReservationsRoute.ListedMembers` | apps/web/app/api/reservations/route.ts:27-40 | a reservation is listed iff it is stored, CONFIRMED and visible to the caller |
| `ReservationsRoute.AdminSeesAllConfirmed` | apps/web/app/api/reservations/route.ts:28-29 | an ADMIN asking for `all` sees every confirmed reservation |
| `ReservationsRoute.OthersSeeOnlyTheirOwn` | apps/web/app/api/reservations/route.ts:30-35 | anyone else sees only reservations they created or take part in |
| `ReservationsRoute.Visible` | apps/web/app/api/reservations/route.ts:27-35 | definition: the `where` clause. An admin asking for `all` sees everything, anyone else their created or joined reservations; used by `VisibleConfirmed` and `ListedMembers` |
| `ReservationsRoute.ValidateRoundTrip` | apps/web/app/api/reservations/route.ts:9-15 | a body holding the string key, two datetimes the parser reads, and strings or nothing for title and agenda is accepted by the schema (`Validate`, with `OptionalOf` for the optional members) and parses back to exactly that request |
| `ReservationsRoute.ValidateFaithful` | apps/web/app/api/reservations/route.ts:9-15 | an accepted body is the body of what it parses to: validation drops and invents nothing. A missing optional member stays missing |
| `ReservationsRoute.FindBlock` | apps/web/app/api/reservations/route.ts:100-111 | the block with the requested key, or none when no stored block has it |
| `ReservationsRoute.ReservationTitle` | apps/web/app/api/reservations/route.ts:131 | the supplied title when non-empty, else `<name or メンバー>との予約` naming the booker (`NameOr`). It is never empty |
| `ReservationsRoute.NewReservation` | apps/web/app/api/reservations/route.ts:124-137 | definition: the created row, with block, times and agenda from the input and the schema's default status; its shape is proved by `NewReservationShape` |
| `ReservationsRoute.NewReservationShape` | apps/web/app/api/reservations/route.ts:124-137 | a created reservation is ONE_ON_ONE and made by the caller, who is its only participant. Its title is non-empty and it has no remote id yet |
| `ReservationsRoute.BookingVisibleToCreator` | apps/web/app/api/reservations/route.ts:124-137 | a confirmed booking is listed to its creator by GET, whatever the filter |
| `ReservationsRoute.MirroredEventId` | apps/web/app/api/reservations/route.ts:159-172 | the id written back is never empty: none when the call threw or gave a missing or empty id, otherwise the inserted event's id |
| `ReservationsRoute.AdminEvent` | apps/web/app/api/reservations/route.ts:156-165 | definition: the admin-side insertion. It names the booker (or `メンバー`), describes the agenda, keeps the booked times and invites the booker's email; its properties are in `MirrorEventsMatchBooking` |
| `ReservationsRoute.MemberEvent` | apps/web/app/api/reservations/route.ts:179-188 | definition: the booker-side insertion. It names the admin (or `管理者`), describes the agenda, keeps the booked times and invites the admin's email; its properties are in `MirrorEventsMatchBooking` |
| `ReservationsRoute.MirrorEventsMatchBooking` | apps/web/app/api/reservations/route.ts:155-191 | both mirror events cover the booked interval and carry the same description, which exists iff the agenda is non-empty (`AgendaDescription`). The admin's event has attendees iff the booker has a non-empty email, and they are exactly that email. The same holds for the booker's event and the admin's email (`InviteOf`) |
| `ReservationsRoute.Post` | apps/web/app/api/reservations/route.ts:80-194 | error order 401, 500 (body not JSON), 400, 404, each changing nothing. Every authenticated, schema-valid request for an existing block gets 201 with the new reservation as created, stored with the next key. Its remote id is written only when the admin-side insertion returned a non-empty id, so a mirror failure alters neither the response nor the row |

## Left out

- **OAuth client construction and the token-refresh callback**
  (apps/web/services/google-calendar.ts:6-47). These are foreign-library calls.
  Only the credential check is modelled.
- **The calendar API calls themselves.**
  - `events.list`, `insert`, `patch` and `delete` are never made.
  - A listing, and the outcome of the admin-side insertion, are inputs.
  - The 30-day window and the `q` search of the listing are applied remotely.
    The listing is taken as given.
- **`deleteCalendarEvent`, and the call around the patch body in
  `updateCalendarEvent`.** Both are single remote calls.
- **The member-side insertion's outcome**, which the POST handler ignores. The
  model therefore has no parameter for it.
- **Relations included in responses.**
  - GET returns the reservation rows without the included block, admin,
    creator and participant users.
  - The 201 body is the row as created, without its participants' users.
  - The slot listing does include admins and participant users.
- **Date conversions.**
  - ISO datetime parsing is abstract.
  - `new Date(date)` of an all-day `date` is taken as an instant.
  - `toISOString` and the time-zone name are data only.
- **The schema default for `status`**, which is taken as a parameter.
- **Storage-layer rejections.**
  - Not modelled: foreign-key or unique-index failures, such as a session
    whose user row is gone.
  - Not modelled: a database write that fails after the calendar insertion
    succeeded.
- `CalendarSync.DeleteStale`: models a null id in the deletion list as matching
  no row, like SQL's `IN`. The driver's own treatment of such a list is not
  modelled.
- **Concurrency** between requests and between sync passes.
- **Other flows and files.** Not modelled:
  - the join, cancel and guest-booking flows;
  - the role and sync routes and the NextAuth wiring;
  - every UI component and page.
- **Character encoding.** Strings are sequences of Unicode scalar values, not
  UTF-16 code units. The marker and all white space the model trims lie in the
  Basic Multilingual Plane, so the two agree here.
