/** What one sync pass does to the block table, proved about `CalendarSync.Sync`:
    every tagged event ends up mirrored by exactly one block carrying its last fields,
    the admin's blocks for vanished events are removed and nothing else is,
    and a second pass over the same listing changes nothing. */
module SyncReconciliation {
  import opened Base
  import opened Store
  import opened CalendarSync

  /** Block `x` mirrors event id `e`: it holds `e` and the fields of the last tagged event with that id. */
  ghost predicate Mirrors(x: AvailableBlock, e: EventId, events: seq<CalendarEvent>)
  {
    x.googleEventId == Some(e) && LastFields(events, e) == Some(BlockFields(x.title, x.startTime, x.endTime))
  }

  /** Row `x` at index `i` of the upserted table was created by the pass. */
  ghost predicate NewRow(t: Table, x: AvailableBlock, i: int, adminId: UserId, events: seq<CalendarEvent>)
  {
    && x.id == t.nextId + (i - |t.rows|)
    && x.adminId == adminId
    && x.googleEventId.Some?
    && x.googleEventId.value in ProcessedIds(events)
    && x.googleEventId !in EventIdsOf(t.rows)
    && Refresh(x, events) == x
  }

  /** `u` is what the upserts of `events` make of `t`: old rows refreshed in place, new rows appended. */
  ghost predicate Shaped(t: Table, u: Table, adminId: UserId, events: seq<CalendarEvent>)
  {
    && |t.rows| <= |u.rows|
    && u.nextId == t.nextId + (|u.rows| - |t.rows|)
    && EventIdsUnique(u.rows)
    && (forall i :: 0 <= i < |t.rows| ==> u.rows[i] == Refresh(t.rows[i], events))
    && (forall i :: |t.rows| <= i < |u.rows| ==> NewRow(t, u.rows[i], i, adminId, events))
    && (forall e :: e in ProcessedIds(events) ==> Some(e) in EventIdsOf(u.rows))
  }

  // ---------------------------------------------------------------------------
  // Small facts

  lemma InEventIds(rows: seq<AvailableBlock>, i: int)
    requires 0 <= i < |rows|
    ensures rows[i].googleEventId in EventIdsOf(rows)
  {
    assert rows[i] in rows;
  }

  lemma HolderOf(rows: seq<AvailableBlock>, v: Option<EventId>) returns (i: nat)
    requires v in EventIdsOf(rows)
    ensures i < |rows| && rows[i].googleEventId == v
  {
    var x :| x in rows && x.googleEventId == v;
    i :| i < |rows| && rows[i] == x;
  }

  /** An event whose id `x` does not hold leaves `x`'s refresh alone. */
  lemma RefreshUnaffected(x: AvailableBlock, init: seq<CalendarEvent>, ev: CalendarEvent)
    requires !Tagged(ev) || x.googleEventId != Some(ev.id.value)
    ensures Refresh(x, init + [ev]) == Refresh(x, init)
  {
    SnocEvent(init, ev);
  }

  /** A tagged event with `x`'s id overwrites `x`'s columns. */
  lemma RefreshHit(x: AvailableBlock, init: seq<CalendarEvent>, ev: CalendarEvent)
    requires Tagged(ev) && x.googleEventId == Some(ev.id.value)
    ensures Refresh(x, init + [ev]) == WithFields(x, FieldsOf(ev))
  {
    SnocEvent(init, ev);
  }

  /** Refreshing twice is refreshing once. */
  lemma RefreshIdempotent(x: AvailableBlock, events: seq<CalendarEvent>)
    ensures Refresh(Refresh(x, events), events) == Refresh(x, events)
  {
  }

  lemma RefreshedMirrors(x: AvailableBlock, events: seq<CalendarEvent>)
    requires Refresh(x, events) == x && x.googleEventId.Some? && x.googleEventId.value in ProcessedIds(events)
    ensures Mirrors(x, x.googleEventId.value, events)
  {
    LastFieldsProcessed(events, x.googleEventId.value);
  }

  // ---------------------------------------------------------------------------
  // The upserts

  lemma ShapedStart(t: Table, adminId: UserId)
    requires EventIdsUnique(t.rows)
    ensures Shaped(t, t, adminId, [])
  {
  }

  /** An event that is skipped leaves the shape as it was. */
  lemma UpsertSkipped(t: Table, u: Table, adminId: UserId, init: seq<CalendarEvent>, ev: CalendarEvent)
    requires Shaped(t, u, adminId, init) && !Tagged(ev)
    ensures Shaped(t, u, adminId, init + [ev])
  {
    SnocEvent(init, ev);
    forall x: AvailableBlock ensures Refresh(x, init + [ev]) == Refresh(x, init) {
      RefreshUnaffected(x, init, ev);
    }
  }

  /** An event whose id a block already holds updates that block in place. */
  lemma UpsertFound(t: Table, u: Table, adminId: UserId, init: seq<CalendarEvent>, ev: CalendarEvent, j: nat)
    requires Shaped(t, u, adminId, init) && Tagged(ev)
    requires FindByEvent(u.rows, ev.id.value, 0) == Some(j)
    ensures Shaped(t, Upsert(u, adminId, ev.id.value, FieldsOf(ev)), adminId, init + [ev])
  {
    var e := ev.id.value;
    var f := FieldsOf(ev);
    var events := init + [ev];
    SnocEvent(init, ev);
    var v := Upsert(u, adminId, e, f);
    assert v.rows == u.rows[j := WithFields(u.rows[j], f)];
    assert forall i :: 0 <= i < |v.rows| ==> v.rows[i].googleEventId == u.rows[i].googleEventId;
    assert forall i :: 0 <= i < |v.rows| && i != j ==> u.rows[i].googleEventId != Some(e);
    forall i | 0 <= i < |t.rows| ensures v.rows[i] == Refresh(t.rows[i], events) {
      if i == j {
        RefreshHit(t.rows[i], init, ev);
      } else {
        RefreshUnaffected(t.rows[i], init, ev);
      }
    }
    forall i | |t.rows| <= i < |v.rows| ensures NewRow(t, v.rows[i], i, adminId, events) {
      if i == j {
        RefreshHit(v.rows[i], init, ev);
      } else {
        RefreshUnaffected(u.rows[i], init, ev);
      }
    }
    forall e' | e' in ProcessedIds(events) ensures Some(e') in EventIdsOf(v.rows) {
      if e' == e {
        InEventIds(v.rows, j);
      } else {
        var k := HolderOf(u.rows, Some(e'));
        InEventIds(v.rows, k);
      }
    }
  }

  /** An event whose id no block holds appends a block for the admin with the next key. */
  lemma UpsertCreated(t: Table, u: Table, adminId: UserId, init: seq<CalendarEvent>, ev: CalendarEvent)
    requires Shaped(t, u, adminId, init) && Tagged(ev)
    requires FindByEvent(u.rows, ev.id.value, 0) == None
    ensures Shaped(t, Upsert(u, adminId, ev.id.value, FieldsOf(ev)), adminId, init + [ev])
  {
    var e := ev.id.value;
    var f := FieldsOf(ev);
    var events := init + [ev];
    SnocEvent(init, ev);
    var nw := AvailableBlock(u.nextId, adminId, Some(e), f.title, f.startTime, f.endTime);
    var v := Upsert(u, adminId, e, f);
    assert v.rows == u.rows + [nw];
    assert forall i :: 0 <= i < |u.rows| ==> u.rows[i].googleEventId != Some(e);
    forall i | 0 <= i < |t.rows| ensures v.rows[i] == Refresh(t.rows[i], events) {
      RefreshUnaffected(t.rows[i], init, ev);
    }
    forall x | x in t.rows ensures x.googleEventId != Some(e) {
      var k :| 0 <= k < |t.rows| && t.rows[k] == x;
      assert u.rows[k].googleEventId == x.googleEventId;
    }
    assert Some(e) !in EventIdsOf(t.rows);
    forall i | |t.rows| <= i < |v.rows| ensures NewRow(t, v.rows[i], i, adminId, events) {
      if i == |u.rows| {
        RefreshHit(nw, init, ev);
      } else {
        RefreshUnaffected(u.rows[i], init, ev);
      }
    }
    forall e' | e' in ProcessedIds(events) ensures Some(e') in EventIdsOf(v.rows) {
      if e' == e {
        InEventIds(v.rows, |u.rows|);
      } else {
        var k := HolderOf(u.rows, Some(e'));
        InEventIds(v.rows, k);
      }
    }
  }

  /** The upserts of a whole listing produce the shape. */
  lemma {:induction false} UpsertAllShaped(t: Table, adminId: UserId, events: seq<CalendarEvent>)
    requires EventIdsUnique(t.rows)
    ensures Shaped(t, UpsertAll(t, adminId, events), adminId, events)
  {
    if events == [] {
      ShapedStart(t, adminId);
    } else {
      var init := events[..|events| - 1];
      var ev := events[|events| - 1];
      assert events == init + [ev];
      UpsertAllShaped(t, adminId, init);
      var u := UpsertAll(t, adminId, init);
      if !Tagged(ev) {
        UpsertSkipped(t, u, adminId, init, ev);
      } else {
        match FindByEvent(u.rows, ev.id.value, 0)
        case Some(j) => UpsertFound(t, u, adminId, init, ev, j);
        case None => UpsertCreated(t, u, adminId, init, ev);
      }
    }
  }

  lemma ShapedKeysBelow(t: Table, u: Table, adminId: UserId, events: seq<CalendarEvent>)
    requires Shaped(t, u, adminId, events) && BlockIdsBelow(t.rows, t.nextId)
    ensures BlockIdsBelow(u.rows, u.nextId)
  {
  }

  // ---------------------------------------------------------------------------
  // The whole pass

  /** The pass keeps the unique index on remote event ids and hands out fresh keys only. */
  lemma SyncKeepsInvariants(t: Table, adminId: UserId, events: seq<CalendarEvent>)
    requires EventIdsUnique(t.rows) && BlockIdsBelow(t.rows, t.nextId)
    ensures var o := Sync(t, adminId, events);
            EventIdsUnique(o.table.rows) && BlockIdsBelow(o.table.rows, o.table.nextId) && t.nextId <= o.table.nextId
  {
    var u := UpsertAll(t, adminId, events);
    UpsertAllShaped(t, adminId, events);
    ShapedKeysBelow(t, u, adminId, events);
    var o := Sync(t, adminId, events);
    forall i | 0 <= i < |o.table.rows| ensures o.table.rows[i].id < o.table.nextId {
      assert o.table.rows[i] in o.table.rows;
      var k :| 0 <= k < |u.rows| && u.rows[k] == o.table.rows[i];
    }
  }

  /** The stale set: the admin's existing ids, less the processed ones. */
  lemma StaleMembers(t: Table, adminId: UserId, events: seq<CalendarEvent>, x: AvailableBlock)
    requires x.adminId == adminId && x.googleEventId.Some? && x.googleEventId in AdminEventIds(t.rows, adminId)
    ensures x.googleEventId in AdminEventIds(t.rows, adminId) - Present(ProcessedIds(events))
            <==> x.googleEventId.value !in ProcessedIds(events)
  {
  }

  /** An old block survives, refreshed, unless it is the admin's and its id was not seen again. */
  lemma SyncOldBlocks(t: Table, adminId: UserId, events: seq<CalendarEvent>)
    requires EventIdsUnique(t.rows)
    ensures var o := Sync(t, adminId, events);
            forall i :: 0 <= i < |t.rows| ==>
              (Refresh(t.rows[i], events) in o.table.rows <==>
               !(t.rows[i].adminId == adminId && t.rows[i].googleEventId.Some?
                 && t.rows[i].googleEventId.value !in ProcessedIds(events)))
  {
    var u := UpsertAll(t, adminId, events);
    UpsertAllShaped(t, adminId, events);
    var o := Sync(t, adminId, events);
    forall i | 0 <= i < |t.rows|
      ensures Refresh(t.rows[i], events) in o.table.rows <==>
              !(t.rows[i].adminId == adminId && t.rows[i].googleEventId.Some?
                && t.rows[i].googleEventId.value !in ProcessedIds(events))
    {
      var y := Refresh(t.rows[i], events);
      assert y == u.rows[i] && y in u.rows;
      if t.rows[i].adminId == adminId {
        assert t.rows[i] in t.rows;
        if y.googleEventId.Some? {
          StaleMembers(t, adminId, events, y);
        }
      }
    }
  }

  /** Every tagged event is mirrored by a surviving block with its last fields; a new one is the admin's. */
  lemma SyncMirrorsEvents(t: Table, adminId: UserId, events: seq<CalendarEvent>)
    requires EventIdsUnique(t.rows)
    ensures var o := Sync(t, adminId, events);
            forall e :: e in ProcessedIds(events) ==>
              exists x :: x in o.table.rows && Mirrors(x, e, events)
                          && (Some(e) !in EventIdsOf(t.rows) ==> x.adminId == adminId)
  {
    var u := UpsertAll(t, adminId, events);
    UpsertAllShaped(t, adminId, events);
    var o := Sync(t, adminId, events);
    forall e | e in ProcessedIds(events)
      ensures exists x :: x in o.table.rows && Mirrors(x, e, events)
                          && (Some(e) !in EventIdsOf(t.rows) ==> x.adminId == adminId)
    {
      var k := HolderOf(u.rows, Some(e));
      var x := u.rows[k];
      if k < |t.rows| {
        RefreshIdempotent(t.rows[k], events);
        InEventIds(t.rows, k);
      }
      RefreshedMirrors(x, events);
      assert x in u.rows;
      assert x in o.table.rows;
    }
  }

  /** Blocks that did not exist before the pass are the admin's and mirror a tagged event. */
  lemma SyncNewBlocks(t: Table, adminId: UserId, events: seq<CalendarEvent>)
    requires EventIdsUnique(t.rows) && BlockIdsBelow(t.rows, t.nextId)
    ensures var o := Sync(t, adminId, events);
            forall x :: x in o.table.rows && t.nextId <= x.id ==>
              && x.adminId == adminId
              && x.googleEventId.Some? && x.googleEventId !in EventIdsOf(t.rows)
              && Mirrors(x, x.googleEventId.value, events)
    ensures var u := UpsertAll(t, adminId, events);
            forall i :: |t.rows| <= i < |u.rows| ==> u.rows[i] in Sync(t, adminId, events).table.rows
  {
    var u := UpsertAll(t, adminId, events);
    UpsertAllShaped(t, adminId, events);
    var o := Sync(t, adminId, events);
    var stale := AdminEventIds(t.rows, adminId) - Present(ProcessedIds(events));
    forall i | |t.rows| <= i < |u.rows| ensures u.rows[i] in o.table.rows {
      var x := u.rows[i];
      assert NewRow(t, x, i, adminId, events);
      assert x.googleEventId in Present(ProcessedIds(events));
      assert !Removed(x, adminId, stale);
    }
    forall x | x in o.table.rows && t.nextId <= x.id
      ensures && x.adminId == adminId
              && x.googleEventId.Some? && x.googleEventId !in EventIdsOf(t.rows)
              && Mirrors(x, x.googleEventId.value, events)
    {
      var k :| 0 <= k < |u.rows| && u.rows[k] == x;
      assert k >= |t.rows|;
      RefreshedMirrors(x, events);
    }
  }

  /** Blocks of other admins are never removed. */
  lemma SyncSparesOthers(t: Table, adminId: UserId, events: seq<CalendarEvent>, x: AvailableBlock)
    requires EventIdsUnique(t.rows)
    requires x in t.rows && x.adminId != adminId
    ensures Refresh(x, events) in Sync(t, adminId, events).table.rows
  {
    var i :| 0 <= i < |t.rows| && t.rows[i] == x;
    SyncOldBlocks(t, adminId, events);
  }

  /** What the admin's blocks hold after a pass, when none of them lacked a remote id. */
  lemma SyncAdminIds(t: Table, adminId: UserId, events: seq<CalendarEvent>)
    requires EventIdsUnique(t.rows)
    requires forall x :: x in t.rows && x.adminId == adminId ==> x.googleEventId.Some?
    ensures var o := Sync(t, adminId, events);
            forall x :: x in o.table.rows && x.adminId == adminId ==>
              x.googleEventId.Some? && x.googleEventId.value in ProcessedIds(events)
  {
    var u := UpsertAll(t, adminId, events);
    UpsertAllShaped(t, adminId, events);
    var o := Sync(t, adminId, events);
    forall x | x in o.table.rows && x.adminId == adminId
      ensures x.googleEventId.Some? && x.googleEventId.value in ProcessedIds(events)
    {
      var k :| 0 <= k < |u.rows| && u.rows[k] == x;
      if k < |t.rows| {
        assert t.rows[k] in t.rows;
        StaleMembers(t, adminId, events, x);
      }
    }
  }

  /** Every block after a pass already carries the fields the pass would give it. */
  lemma SyncSettled(t: Table, adminId: UserId, events: seq<CalendarEvent>)
    requires EventIdsUnique(t.rows)
    ensures var o := Sync(t, adminId, events);
            (forall x :: x in o.table.rows ==> Refresh(x, events) == x)
            && (forall e :: e in ProcessedIds(events) ==> Some(e) in EventIdsOf(o.table.rows))
  {
    var u := UpsertAll(t, adminId, events);
    UpsertAllShaped(t, adminId, events);
    var o := Sync(t, adminId, events);
    forall x | x in o.table.rows ensures Refresh(x, events) == x {
      var k :| 0 <= k < |u.rows| && u.rows[k] == x;
      if k < |t.rows| {
        RefreshIdempotent(t.rows[k], events);
      }
    }
    SyncMirrorsEvents(t, adminId, events);
    forall e | e in ProcessedIds(events) ensures Some(e) in EventIdsOf(o.table.rows) {
      var x :| x in o.table.rows && Mirrors(x, e, events) && (Some(e) !in EventIdsOf(t.rows) ==> x.adminId == adminId);
    }
  }

  /** An appended row holds a processed id that no old row held. */
  lemma AppendedIdUnseen(t: Table, u: Table, adminId: UserId, events: seq<CalendarEvent>, i: int)
    requires Shaped(t, u, adminId, events) && |t.rows| <= i < |u.rows|
    ensures u.rows[i].googleEventId.Some? && u.rows[i].googleEventId.value in ProcessedIds(events)
    ensures u.rows[i].googleEventId !in EventIdsOf(t.rows)
  {
  }

  /** When every processed id is held already, the upserts append nothing. */
  lemma NoNewRows(t: Table, u: Table, adminId: UserId, events: seq<CalendarEvent>)
    requires Shaped(t, u, adminId, events)
    requires forall e :: e in ProcessedIds(events) ==> Some(e) in EventIdsOf(t.rows)
    ensures |u.rows| == |t.rows|
  {
    if |u.rows| > |t.rows| {
      AppendedIdUnseen(t, u, adminId, events, |t.rows|);
      assert false;
    }
  }

  /** Running the pass again over the same listing changes nothing and removes nothing. */
  lemma SyncIdempotent(t: Table, adminId: UserId, events: seq<CalendarEvent>)
    requires EventIdsUnique(t.rows) && BlockIdsBelow(t.rows, t.nextId)
    requires forall x :: x in t.rows && x.adminId == adminId ==> x.googleEventId.Some?
    ensures var o1 := Sync(t, adminId, events);
            var o2 := Sync(o1.table, adminId, events);
            o2.table == o1.table && o2.removed == 0 && o2.synced == o1.synced
  {
    var o1 := Sync(t, adminId, events);
    var t1 := o1.table;
    SyncKeepsInvariants(t, adminId, events);
    SyncSettled(t, adminId, events);
    SyncAdminIds(t, adminId, events);
    var u2 := UpsertAll(t1, adminId, events);
    UpsertAllShaped(t1, adminId, events);
    NoNewRows(t1, u2, adminId, events);
    assert u2.rows == t1.rows by {
      forall i | 0 <= i < |t1.rows| ensures u2.rows[i] == t1.rows[i] {
        assert t1.rows[i] in t1.rows;
      }
    }
    var stale2 := AdminEventIds(t1.rows, adminId) - Present(ProcessedIds(events));
    assert stale2 == {} by {
      forall v | v in AdminEventIds(t1.rows, adminId) ensures v in Present(ProcessedIds(events)) {
        var x :| x in t1.rows && x.adminId == adminId && x.googleEventId == v;
      }
    }
  }

  // ---------------------------------------------------------------------------
  // The removal count

  /** An id no block holds does not change what the removal keeps. */
  lemma {:induction false} DeleteIgnoresUnheld(rows: seq<AvailableBlock>, adminId: UserId, stale: set<Option<EventId>>, v: Option<EventId>)
    requires v !in EventIdsOf(rows)
    ensures DeleteStale(rows, adminId, stale) == DeleteStale(rows, adminId, stale - {v})
  {
    if rows != [] {
      assert forall x :: x in rows[1..] ==> x in rows;
      assert v !in EventIdsOf(rows[1..]);
      InEventIds(rows, 0);
      DeleteIgnoresUnheld(rows[1..], adminId, stale, v);
    }
  }

  /** When each stale id is held by one of the admin's blocks, the removal drops one block per stale id. */
  lemma {:induction false} DeleteCount(rows: seq<AvailableBlock>, adminId: UserId, stale: set<Option<EventId>>)
    requires EventIdsUnique(rows)
    requires forall v :: v in stale ==> v.Some? && exists x :: x in rows && x.adminId == adminId && x.googleEventId == v
    ensures |rows| - |DeleteStale(rows, adminId, stale)| == |stale|
    decreases |rows|
  {
    if rows == [] {
      assert stale == {};
    } else {
      var head := rows[0];
      var rest := rows[1..];
      assert rows == [head] + rest;
      assert EventIdsUnique(rest);
      if Removed(head, adminId, stale) {
        var v := head.googleEventId;
        forall x | x in rest ensures x.googleEventId != v {
          var k :| 0 <= k < |rest| && rest[k] == x;
          assert rows[k + 1] == x;
        }
        assert v !in EventIdsOf(rest);
        var stale' := stale - {v};
        forall w | w in stale' ensures w.Some? && exists x :: x in rest && x.adminId == adminId && x.googleEventId == w {
          var x :| x in rows && x.adminId == adminId && x.googleEventId == w;
          assert x != head;
        }
        DeleteCount(rest, adminId, stale');
        DeleteIgnoresUnheld(rest, adminId, stale, v);
        assert DeleteStale(rows, adminId, stale) == DeleteStale(rest, adminId, stale);
      } else {
        forall w | w in stale ensures exists x :: x in rest && x.adminId == adminId && x.googleEventId == w {
          var x :| x in rows && x.adminId == adminId && x.googleEventId == w;
          assert x != head;
        }
        DeleteCount(rest, adminId, stale);
        assert DeleteStale(rows, adminId, stale) == [head] + DeleteStale(rest, adminId, stale);
      }
    }
  }

  /** `removed` is the number of blocks the pass deleted, when none of the admin's blocks lacked a remote id. */
  lemma SyncRemovedCount(t: Table, adminId: UserId, events: seq<CalendarEvent>)
    requires EventIdsUnique(t.rows)
    requires forall x :: x in t.rows && x.adminId == adminId ==> x.googleEventId.Some?
    ensures var o := Sync(t, adminId, events);
            o.removed == |UpsertAll(t, adminId, events).rows| - |o.table.rows|
  {
    var u := UpsertAll(t, adminId, events);
    UpsertAllShaped(t, adminId, events);
    var stale := AdminEventIds(t.rows, adminId) - Present(ProcessedIds(events));
    forall v | v in stale ensures v.Some? && exists x :: x in u.rows && x.adminId == adminId && x.googleEventId == v {
      var x :| x in t.rows && x.adminId == adminId && x.googleEventId == v;
      var k :| 0 <= k < |t.rows| && t.rows[k] == x;
      assert u.rows[k] in u.rows;
    }
    DeleteCount(u.rows, adminId, stale);
  }
}
