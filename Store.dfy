/** The rows of the tables the core reads and writes, and the database that holds them. */
module Store {
  import opened Base

  datatype Role = Admin | Member

  /** A row of the user table, restricted to the columns the core reads. */
  datatype User = User(
    id: UserId,
    name: Option<string>,
    email: Option<string>,
    image: Option<string>,
    role: Role,
    accessToken: Option<string>,
    refreshToken: Option<string>)

  /** The user of an authenticated session, with the role the session callback copied from the user table. */
  datatype SessionUser = SessionUser(id: UserId, role: Role)

  /** A window of bookable time, mirrored from one tagged event on an admin's calendar. */
  datatype AvailableBlock = AvailableBlock(
    id: BlockId,
    adminId: UserId,
    googleEventId: Option<EventId>,
    title: Option<string>,
    startTime: Time,
    endTime: Time)

  datatype ReservationType = OneOnOne | Group

  datatype ReservationStatus = Confirmed | Cancelled

  /** One attendee of a reservation: a user, or (`None`) a guest. */
  datatype Participant = Participant(userId: Option<UserId>)

  datatype Reservation = Reservation(
    id: ReservationId,
    blockId: BlockId,
    creatorId: Option<UserId>,
    kind: ReservationType,
    title: string,
    agenda: Option<string>,
    status: ReservationStatus,
    startTime: Time,
    endTime: Time,
    googleEventId: Option<EventId>,
    participants: seq<Participant>)

  /** The unique index on `googleEventId`: no remote event id is held by two blocks. */
  ghost predicate EventIdsUnique(rows: seq<AvailableBlock>)
  {
    forall i, j :: 0 <= i < j < |rows| && rows[i].googleEventId.Some? ==> rows[i].googleEventId != rows[j].googleEventId
  }

  /** Every primary key of the block table was handed out before `nextId`. */
  ghost predicate BlockIdsBelow(rows: seq<AvailableBlock>, nextId: nat)
  {
    forall i :: 0 <= i < |rows| ==> rows[i].id < nextId
  }

  /** Every primary key of the reservation table was handed out before `nextId`. */
  ghost predicate ReservationIdsBelow(rows: seq<Reservation>, nextId: nat)
  {
    forall i :: 0 <= i < |rows| ==> rows[i].id < nextId
  }

  /** The database: tables are kept in insertion order; new primary keys come from counters. */
  class Database {
    var users: map<UserId, User>
    var blocks: seq<AvailableBlock>
    var nextBlockId: nat
    var reservations: seq<Reservation>
    var nextReservationId: nat

    ghost predicate Valid()
      reads this
    {
      && EventIdsUnique(blocks)
      && BlockIdsBelow(blocks, nextBlockId)
      && ReservationIdsBelow(reservations, nextReservationId)
    }

    constructor (users: map<UserId, User>)
      ensures Valid()
      ensures this.users == users && blocks == [] && reservations == []
    {
      this.users := users;
      blocks := [];
      nextBlockId := 0;
      reservations := [];
      nextReservationId := 0;
    }
  }
}
