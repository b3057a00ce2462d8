/** The slot listing of the blocks route: every future availability block is cut into
    30-minute slots, each carrying the block's confirmed reservations that overlap it. */
module Slots {
  import opened Base
  import opened Store
  import opened Ordering

  /** The admin of a block as the route exposes it (`select: { id, name, email, image }`). */
  datatype AdminView = AdminView(id: UserId, name: Option<string>, email: Option<string>, image: Option<string>)

  /** A participant's user as the route exposes it (`select: { id, name, email }`); a guest has none. */
  datatype PublicUser = PublicUser(id: UserId, name: Option<string>, email: Option<string>)

  /** A reservation reduced to what a slot shows of it. */
  datatype SlotReservation = SlotReservation(
    id: ReservationId,
    kind: ReservationType,
    title: string,
    participants: seq<Option<PublicUser>>)

  datatype Slot = Slot(
    blockId: BlockId,
    admin: Option<AdminView>,
    startTime: Time,
    endTime: Time,
    reservations: seq<SlotReservation>)

  datatype BlocksResponse = Unauthorized | SlotList(slots: seq<Slot>)

  // ---------------------------------------------------------------------------
  // The query: future blocks, ascending start, each with its confirmed reservations

  function StartOf(b: AvailableBlock): int
  {
    b.startTime
  }

  /** The blocks that start at or after `now` (`where: { startTime: { gte: now } }`), in table order. */
  function FutureBlocks(rows: seq<AvailableBlock>, now: Time): (r: seq<AvailableBlock>)
    ensures |r| <= |rows|
    ensures forall b :: b in r <==> b in rows && b.startTime >= now
  {
    if rows == [] then []
    else
      var rest := FutureBlocks(rows[1..], now);
      assert forall b :: b in rows <==> b == rows[0] || b in rows[1..] by {
        assert rows == [rows[0]] + rows[1..];
      }
      if rows[0].startTime >= now then [rows[0]] + rest else rest
  }

  /** The blocks the route walks: the future ones, in ascending `startTime`. */
  function SelectedBlocks(rows: seq<AvailableBlock>, now: Time): (r: seq<AvailableBlock>)
    ensures SortedBy(r, StartOf)
    ensures multiset(r) == multiset(FutureBlocks(rows, now))
    ensures forall b :: b in r <==> b in rows && b.startTime >= now
  {
    var future := FutureBlocks(rows, now);
    SortByMembers(future, StartOf);
    SortBy(future, StartOf)
  }

  /** A block's reservations, as included by the query: status CONFIRMED, in table order. */
  function BlockReservations(table: seq<Reservation>, blockId: BlockId): (r: seq<Reservation>)
    ensures |r| <= |table|
    ensures forall x :: x in r <==> x in table && x.blockId == blockId && x.status == Confirmed
  {
    if table == [] then []
    else
      var rest := BlockReservations(table[1..], blockId);
      assert forall x :: x in table <==> x == table[0] || x in table[1..] by {
        assert table == [table[0]] + table[1..];
      }
      if table[0].blockId == blockId && table[0].status == Confirmed then [table[0]] + rest else rest
  }

  // ---------------------------------------------------------------------------
  // One slot

  /** The half-open overlap test of a reservation with the slot `[slotStart, slotEnd)`. */
  predicate Overlaps(r: Reservation, slotStart: Time, slotEnd: Time)
  {
    r.startTime < slotEnd && r.endTime > slotStart
  }

  /** The reservations of `rs` that overlap `[slotStart, slotEnd)`, in their order in `rs`. */
  function Overlapping(rs: seq<Reservation>, slotStart: Time, slotEnd: Time): (r: seq<Reservation>)
    ensures |r| <= |rs|
    ensures forall x :: x in r <==> x in rs && Overlaps(x, slotStart, slotEnd)
  {
    if rs == [] then []
    else
      var rest := Overlapping(rs[1..], slotStart, slotEnd);
      assert forall x :: x in rs <==> x == rs[0] || x in rs[1..] by {
        assert rs == [rs[0]] + rs[1..];
      }
      if Overlaps(rs[0], slotStart, slotEnd) then [rs[0]] + rest else rest
  }

  /** Keeping the overlapping ones of a concatenation keeps them block by block, so order is preserved. */
  lemma {:induction false} OverlappingConcat(a: seq<Reservation>, b: seq<Reservation>, slotStart: Time, slotEnd: Time)
    ensures Overlapping(a + b, slotStart, slotEnd) == Overlapping(a, slotStart, slotEnd) + Overlapping(b, slotStart, slotEnd)
  {
    if a == [] {
      assert a + b == b;
    } else {
      assert (a + b)[0] == a[0];
      assert (a + b)[1..] == a[1..] + b;
      OverlappingConcat(a[1..], b, slotStart, slotEnd);
    }
  }

  function AdminOf(users: map<UserId, User>, adminId: UserId): Option<AdminView>
  {
    match Lookup(users, adminId)
    case None => None
    case Some(u) => Some(AdminView(u.id, u.name, u.email, u.image))
  }

  /** `p.user` of the query: the participant's user row, or `None` for a guest. */
  function ParticipantUser(users: map<UserId, User>, p: Participant): Option<PublicUser>
  {
    if p.userId.Some? && p.userId.value in users then
      var u := users[p.userId.value];
      Some(PublicUser(u.id, u.name, u.email))
    else None
  }

  /** A reservation reduced to id, type, title and its participants' users. */
  function Summarize(users: map<UserId, User>, r: Reservation): (s: SlotReservation)
    ensures s.id == r.id && s.kind == r.kind && s.title == r.title
    ensures |s.participants| == |r.participants|
    ensures forall i :: 0 <= i < |r.participants| ==> s.participants[i] == ParticipantUser(users, r.participants[i])
  {
    SlotReservation(r.id, r.kind, r.title,
      seq(|r.participants|, i requires 0 <= i < |r.participants| => ParticipantUser(users, r.participants[i])))
  }

  /** With users keyed by their id: a participant is shown as nobody exactly when they are a guest
      or their user row is gone, and otherwise as that very user. */
  lemma SummaryShowsParticipants(users: map<UserId, User>, r: Reservation, j: int)
    requires forall k :: k in users ==> users[k].id == k
    requires 0 <= j < |r.participants|
    ensures var shown := Summarize(users, r).participants[j];
            var p := r.participants[j];
            && (shown.None? <==> p.userId.None? || p.userId.value !in users)
            && (shown.Some? ==> shown.value.id == p.userId.value
                                && shown.value.name == users[p.userId.value].name
                                && shown.value.email == users[p.userId.value].email)
  {
  }

  function SummarizeAll(users: map<UserId, User>, rs: seq<Reservation>): (r: seq<SlotReservation>)
    ensures |r| == |rs|
    ensures forall i :: 0 <= i < |rs| ==> r[i] == Summarize(users, rs[i])
  {
    seq(|rs|, i requires 0 <= i < |rs| => Summarize(users, rs[i]))
  }

  /** The slot of block `b` that starts at `t`. */
  function SlotAt(b: AvailableBlock, rs: seq<Reservation>, users: map<UserId, User>, t: Time): Slot
  {
    Slot(b.id, AdminOf(users, b.adminId), t, t + SLOT, SummarizeAll(users, Overlapping(rs, t, t + SLOT)))
  }

  // ---------------------------------------------------------------------------
  // The walk over one block

  /** The slots the walk emits for block `b` once it has reached `t`. */
  function SlotsFrom(b: AvailableBlock, rs: seq<Reservation>, users: map<UserId, User>, t: Time): seq<Slot>
    decreases b.endTime - t
  {
    if !(t < b.endTime) then []
    else if t + SLOT > b.endTime then []
    else [SlotAt(b, rs, users, t)] + SlotsFrom(b, rs, users, t + SLOT)
  }

  /** All slots of block `b`, given the reservations attached to it. */
  function BlockSlots(b: AvailableBlock, rs: seq<Reservation>, users: map<UserId, User>): seq<Slot>
  {
    SlotsFrom(b, rs, users, b.startTime)
  }

  /** The walk from `t` emits one slot per whole 30 minutes left before the block ends. */
  lemma {:induction false} SlotsFromCount(b: AvailableBlock, rs: seq<Reservation>, users: map<UserId, User>, t: Time)
    decreases b.endTime - t
    ensures |SlotsFrom(b, rs, users, t)| == if b.endTime > t then (b.endTime - t) / SLOT else 0
  {
    if t < b.endTime && t + SLOT <= b.endTime {
      SlotsFromCount(b, rs, users, t + SLOT);
      var d := b.endTime - t;
      assert d / SLOT == 1 + (d - SLOT) / SLOT;
    }
  }

  /** The `i`-th slot of the walk from `t` starts `i` half-hours after `t`. */
  lemma {:induction false} SlotsFromAt(b: AvailableBlock, rs: seq<Reservation>, users: map<UserId, User>, t: Time, i: nat)
    requires i < |SlotsFrom(b, rs, users, t)|
    decreases i
    ensures SlotsFrom(b, rs, users, t)[i] == SlotAt(b, rs, users, t + i * SLOT)
    ensures t + i * SLOT + SLOT <= b.endTime
  {
    var slots := SlotsFrom(b, rs, users, t);
    assert slots == [SlotAt(b, rs, users, t)] + SlotsFrom(b, rs, users, t + SLOT);
    if i > 0 {
      SlotsFromAt(b, rs, users, t + SLOT, i - 1);
      assert slots[i] == SlotsFrom(b, rs, users, t + SLOT)[i - 1];
      assert (t + SLOT) + (i - 1) * SLOT == t + i * SLOT;
    }
  }

  /** A block of length `L` yields `L / 30min` slots (none when `L <= 0`); slot `i` starts
      `i` half-hours into the block, lasts 30 minutes, lies inside the block, carries the
      block's id and admin, and carries exactly the reservations overlapping it. */
  lemma BlockSlotsShape(b: AvailableBlock, rs: seq<Reservation>, users: map<UserId, User>)
    ensures var slots := BlockSlots(b, rs, users);
      && |slots| == (if b.endTime > b.startTime then (b.endTime - b.startTime) / SLOT else 0)
      && forall i :: 0 <= i < |slots| ==>
           && slots[i].startTime == b.startTime + i * SLOT
           && slots[i].endTime == slots[i].startTime + SLOT
           && b.startTime <= slots[i].startTime && slots[i].endTime <= b.endTime
           && slots[i].blockId == b.id
           && slots[i].admin == AdminOf(users, b.adminId)
           && slots[i].reservations == SummarizeAll(users, Overlapping(rs, slots[i].startTime, slots[i].endTime))
  {
    var slots := BlockSlots(b, rs, users);
    SlotsFromCount(b, rs, users, b.startTime);
    forall i | 0 <= i < |slots|
      ensures SlotShape(b, rs, users, slots[i], i)
    {
      BlockSlotAt(b, rs, users, i);
    }
  }

  /** Slot `i` of block `b`: where it lies and what it carries. */
  predicate SlotShape(b: AvailableBlock, rs: seq<Reservation>, users: map<UserId, User>, s: Slot, i: int)
  {
    && s.startTime == b.startTime + i * SLOT
    && s.endTime == s.startTime + SLOT
    && b.startTime <= s.startTime && s.endTime <= b.endTime
    && s.blockId == b.id
    && s.admin == AdminOf(users, b.adminId)
    && s.reservations == SummarizeAll(users, Overlapping(rs, s.startTime, s.endTime))
  }

  lemma BlockSlotAt(b: AvailableBlock, rs: seq<Reservation>, users: map<UserId, User>, i: nat)
    requires i < |BlockSlots(b, rs, users)|
    ensures SlotShape(b, rs, users, BlockSlots(b, rs, users)[i], i)
  {
    SlotsFromAt(b, rs, users, b.startTime, i);
    SlotAtShape(b, rs, users, BlockSlots(b, rs, users)[i], i);
  }

  lemma SlotAtShape(b: AvailableBlock, rs: seq<Reservation>, users: map<UserId, User>, s: Slot, i: nat)
    requires s == SlotAt(b, rs, users, b.startTime + i * SLOT) && b.startTime + i * SLOT + SLOT <= b.endTime
    ensures SlotShape(b, rs, users, s, i)
  {
  }

  /** Each slot of a block starts where the previous one ends. */
  lemma BlockSlotsContiguous(b: AvailableBlock, rs: seq<Reservation>, users: map<UserId, User>)
    ensures var slots := BlockSlots(b, rs, users);
      forall i :: 0 < i < |slots| ==> slots[i].startTime == slots[i - 1].endTime && slots[i - 1].startTime < slots[i].startTime
  {
    var slots := BlockSlots(b, rs, users);
    BlockSlotsShape(b, rs, users);
    forall i | 0 < i < |slots| ensures slots[i].startTime == slots[i - 1].endTime {
      assert slots[i - 1].startTime == b.startTime + (i - 1) * SLOT;
    }
  }

  /** 10:00-11:30 gives three slots, 10:00-11:40 also three, and 10:00-10:00 none. */
  lemma SlotCountExamples(rs: seq<Reservation>, users: map<UserId, User>)
    ensures |BlockSlots(AvailableBlock(0, "admin", None, None, 36000000, 41400000), rs, users)| == 3
    ensures |BlockSlots(AvailableBlock(0, "admin", None, None, 36000000, 42000000), rs, users)| == 3
    ensures BlockSlots(AvailableBlock(0, "admin", None, None, 36000000, 36000000), rs, users) == []
  {
    BlockSlotsShape(AvailableBlock(0, "admin", None, None, 36000000, 41400000), rs, users);
    BlockSlotsShape(AvailableBlock(0, "admin", None, None, 36000000, 42000000), rs, users);
  }

  // ---------------------------------------------------------------------------
  // All blocks

  /** The per-block slot lists of `blocks`, concatenated in the order of `blocks`. */
  function FlatSlots(blocks: seq<AvailableBlock>, table: seq<Reservation>, users: map<UserId, User>): seq<Slot>
  {
    if blocks == [] then []
    else
      var last := blocks[|blocks| - 1];
      FlatSlots(blocks[..|blocks| - 1], table, users) + BlockSlots(last, BlockReservations(table, last.id), users)
  }

  /** The slot list the route returns to an authenticated caller. */
  function DerivedSlots(rows: seq<AvailableBlock>, table: seq<Reservation>, users: map<UserId, User>, now: Time): seq<Slot>
  {
    FlatSlots(SelectedBlocks(rows, now), table, users)
  }

  /** A slot is well placed in block `b`: 30 minutes long, inside `b`, labelled with `b`,
      carrying the confirmed reservations of `b` that overlap it. */
  ghost predicate SlotOfBlock(s: Slot, b: AvailableBlock, table: seq<Reservation>, users: map<UserId, User>)
  {
    && s.blockId == b.id
    && s.admin == AdminOf(users, b.adminId)
    && s.endTime == s.startTime + SLOT
    && b.startTime <= s.startTime && s.endTime <= b.endTime
    && s.reservations == SummarizeAll(users, Overlapping(BlockReservations(table, b.id), s.startTime, s.endTime))
  }

  /** Every slot of the concatenation comes from one of the blocks. */
  lemma {:induction false} FlatSlotsOrigin(blocks: seq<AvailableBlock>, table: seq<Reservation>, users: map<UserId, User>)
    ensures forall k :: 0 <= k < |FlatSlots(blocks, table, users)| ==>
      exists b :: b in blocks && SlotOfBlock(FlatSlots(blocks, table, users)[k], b, table, users)
  {
    if blocks != [] {
      var init := blocks[..|blocks| - 1];
      var last := blocks[|blocks| - 1];
      FlatSlotsOrigin(init, table, users);
      var front := FlatSlots(init, table, users);
      var tail := BlockSlots(last, BlockReservations(table, last.id), users);
      BlockSlotsShape(last, BlockReservations(table, last.id), users);
      var all := FlatSlots(blocks, table, users);
      assert all == front + tail;
      forall k | 0 <= k < |all|
        ensures exists b :: b in blocks && SlotOfBlock(all[k], b, table, users)
      {
        if k < |front| {
          assert all[k] == front[k];
          var b :| b in init && SlotOfBlock(front[k], b, table, users);
          assert b in blocks;
          assert SlotOfBlock(all[k], b, table, users);
        } else {
          assert all[k] == tail[k - |front|];
          assert SlotOfBlock(all[k], last, table, users);
        }
      }
      assert forall k :: 0 <= k < |all| ==> exists b :: b in blocks && SlotOfBlock(all[k], b, table, users);
    } else {
      assert FlatSlots(blocks, table, users) == [];
    }
  }

  /** Every returned slot lies in a block that starts at or after `now`. */
  lemma DerivedSlotsFromFutureBlocks(rows: seq<AvailableBlock>, table: seq<Reservation>, users: map<UserId, User>, now: Time)
    ensures forall k :: 0 <= k < |DerivedSlots(rows, table, users, now)| ==>
      exists b :: b in rows && b.startTime >= now && SlotOfBlock(DerivedSlots(rows, table, users, now)[k], b, table, users)
  {
    var selected := SelectedBlocks(rows, now);
    var all := DerivedSlots(rows, table, users, now);
    FlatSlotsOrigin(selected, table, users);
    assert all == FlatSlots(selected, table, users);
    forall k | 0 <= k < |all|
      ensures exists b :: b in rows && b.startTime >= now && SlotOfBlock(all[k], b, table, users)
    {
      var b :| b in selected && SlotOfBlock(all[k], b, table, users);
      assert b in rows && b.startTime >= now;
    }
  }

  // ---------------------------------------------------------------------------
  // The route

  /** The 30-minute walk over one block, as the route's `while` loop does it. */
  method WalkBlock(b: AvailableBlock, rs: seq<Reservation>, users: map<UserId, User>) returns (slots: seq<Slot>)
    ensures slots == BlockSlots(b, rs, users)
    ensures |slots| == if b.endTime > b.startTime then (b.endTime - b.startTime) / SLOT else 0
  {
    var startTime := b.startTime;
    var endTime := b.endTime;
    slots := [];
    while startTime < endTime
      invariant endTime == b.endTime
      invariant slots + SlotsFrom(b, rs, users, startTime) == BlockSlots(b, rs, users)
      decreases endTime - startTime
    {
      var slotEnd := startTime + SLOT;
      if slotEnd > endTime {
        break;
      }
      var slotReservations := Overlapping(rs, startTime, slotEnd);
      var slot := Slot(b.id, AdminOf(users, b.adminId), startTime, slotEnd, SummarizeAll(users, slotReservations));
      assert slot == SlotAt(b, rs, users, startTime);
      assert SlotsFrom(b, rs, users, startTime) == [slot] + SlotsFrom(b, rs, users, startTime + SLOT);
      assert slots + SlotsFrom(b, rs, users, startTime) == (slots + [slot]) + SlotsFrom(b, rs, users, startTime + SLOT);
      slots := slots + [slot];
      startTime := startTime + SLOT;
    }
    assert SlotsFrom(b, rs, users, startTime) == [];
    assert slots == BlockSlots(b, rs, users);
    SlotsFromCount(b, rs, users, b.startTime);
  }

  /** `GET` of the blocks route: 401 without a session user, else the slots of every future block. */
  method Get(db: Database, session: Option<SessionUser>, now: Time) returns (resp: BlocksResponse)
    ensures session.None? <==> resp == Unauthorized
    ensures session.Some? ==> resp == SlotList(DerivedSlots(db.blocks, db.reservations, db.users, now))
  {
    if session.None? {
      return Unauthorized;
    }
    var blocks := SelectedBlocks(db.blocks, now);
    var slots := [];
    for k := 0 to |blocks|
      invariant slots == FlatSlots(blocks[..k], db.reservations, db.users)
    {
      var blockSlots := WalkBlock(blocks[k], BlockReservations(db.reservations, blocks[k].id), db.users);
      assert blocks[..k + 1][..k] == blocks[..k];
      slots := slots + blockSlots;
    }
    assert blocks[..|blocks|] == blocks;
    return SlotList(slots);
  }
}
