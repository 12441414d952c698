/** A whole run of the background generator over the lanes, as a function of the tables. */
module Generation {
  import opened Prelude
  import opened Calendar
  import opened Models
  import opened Grid
  import opened Tables
  import opened Scheduling

  /** `GenerateAll`'s loop: lane `k` is processed at `instants[k]`. */
  function GenerateLanes(db: Db, lanes: seq<Id>, instants: seq<Time>, first: Id, lookahead: nat, dur: int): Db
    requires dur > 0 && |instants| == |lanes|
    decreases |lanes|
  {
    if lanes == [] then db else
      GenerateLanes(GenerateLane(db, lanes[0], instants[0], first, lookahead, dur), lanes[1..], instants[1..],
                    first + Drawn(db, lanes[0], instants[0], lookahead, dur), lookahead, dur)
  }

  /** The first id not drawn by that loop. */
  function NextId(db: Db, lanes: seq<Id>, instants: seq<Time>, first: Id, lookahead: nat, dur: int): Id
    requires dur > 0 && |instants| == |lanes|
    decreases |lanes|
  {
    if lanes == [] then first else
      NextId(GenerateLane(db, lanes[0], instants[0], first, lookahead, dur), lanes[1..], instants[1..],
             first + Drawn(db, lanes[0], instants[0], lookahead, dur), lookahead, dur)
  }

  /** The loop, seen from its last turn. */
  lemma {:induction false} LastTurn(db: Db, lanes: seq<Id>, instants: seq<Time>, lane: Id, now: Time, first: Id, lookahead: nat, dur: int)
    requires dur > 0 && |instants| == |lanes|
    ensures var before := GenerateLanes(db, lanes, instants, first, lookahead, dur);
      var next := NextId(db, lanes, instants, first, lookahead, dur);
      && GenerateLanes(db, lanes + [lane], instants + [now], first, lookahead, dur)
         == GenerateLane(before, lane, now, next, lookahead, dur)
      && NextId(db, lanes + [lane], instants + [now], first, lookahead, dur)
         == next + Drawn(before, lane, now, lookahead, dur)
    decreases |lanes|
  {
    var ls, ts := lanes + [lane], instants + [now];
    var db1, first1 := GenerateLane(db, ls[0], ts[0], first, lookahead, dur), first + Drawn(db, ls[0], ts[0], lookahead, dur);
    Unroll(db, ls, ts, first, lookahead, dur);
    if lanes == [] {
      assert ls[1..] == [] && ts[1..] == [];
    } else {
      assert ls[1..] == lanes[1..] + [lane] && ts[1..] == instants[1..] + [now];
      Unroll(db, lanes, instants, first, lookahead, dur);
      LastTurn(db1, lanes[1..], instants[1..], lane, now, first1, lookahead, dur);
    }
  }

  /** The loop, seen from its first turn. */
  lemma Unroll(db: Db, lanes: seq<Id>, instants: seq<Time>, first: Id, lookahead: nat, dur: int)
    requires dur > 0 && |instants| == |lanes| && lanes != []
    ensures var db1 := GenerateLane(db, lanes[0], instants[0], first, lookahead, dur);
      var first1 := first + Drawn(db, lanes[0], instants[0], lookahead, dur);
      && GenerateLanes(db, lanes, instants, first, lookahead, dur) == GenerateLanes(db1, lanes[1..], instants[1..], first1, lookahead, dur)
      && NextId(db, lanes, instants, first, lookahead, dur) == NextId(db1, lanes[1..], instants[1..], first1, lookahead, dur)
  {
  }

  /** The slots of one lane. */
  function LaneSlots(slots: map<Id, Slot>, lane: Id): set<Slot> {
    set i | i in slots && slots[i].lane == lane :: slots[i]
  }

  predicate Clashes(occupied: set<Slot>, batch: seq<Slot>) {
    exists o, s :: o in occupied && s in batch && o.start == s.start
  }

  /** All or nothing. */
  function AfterBatch(occupied: set<Slot>, batch: seq<Slot>): set<Slot> {
    if Clashes(occupied, batch) then occupied else occupied + (set s | s in batch)
  }

  /** The batch a lane is due at an instant. */
  function DueBatch(db: Db, lane: Id, now: Time, lookahead: nat, dur: int): seq<Slot>
    requires dur > 0
  {
    if lane !in db.schedules then [] else BackgroundSlots(lane, db.schedules[lane], now, lookahead, dur)
  }

  /** Stored schedules belong to lanes and hold TIME values. */
  predicate SchedulesStored(db: Db) {
    forall l :: l in db.schedules ==>
      l in db.lanes && 0 <= db.schedules[l].hours.open <= MINUTES_PER_DAY && 0 <= db.schedules[l].hours.close <= MINUTES_PER_DAY
  }

  /** `after` has the rows of `before`, and other tables alike. */
  predicate Grows(before: Db, after: Db) {
    && after == before.(slots := after.slots)
    && forall i :: i in before.slots ==> i in after.slots && after.slots[i] == before.slots[i]
  }

  lemma DueClash(db: Db, lane: Id, now: Time, first: Id, lookahead: nat, dur: int)
    requires dur > 0 && SchedulesStored(db) && FreshFrom(db.slots, first) && lane in db.schedules
    ensures var due := DueBatch(db, lane, now, lookahead, dur);
      Fits(db, Numbered(first, due)) <==> !Clashes(LaneSlots(db.slots, lane), due)
  {
    var sch := db.schedules[lane];
    var due := DueBatch(db, lane, now, lookahead, dur);
    WindowFits(db, lane, BackgroundDays(sch.days), StoredHours(sch.hours), DayOf(now), lookahead, dur, first);
    TakenByLane(db, lane, due);
  }

  /** A start is taken exactly when one of the lane's slots has it. */
  lemma TakenByLane(db: Db, lane: Id, slots: seq<Slot>)
    ensures (forall s :: s in slots ==> !StartTaken(db.slots, lane, s.start)) <==> !Clashes(LaneSlots(db.slots, lane), slots)
  {
    forall s | s in slots
      ensures StartTaken(db.slots, lane, s.start) <==> exists o :: o in LaneSlots(db.slots, lane) && o.start == s.start
    {
      if StartTaken(db.slots, lane, s.start) {
        var i :| i in db.slots && db.slots[i].lane == lane && db.slots[i].start == s.start;
        assert db.slots[i] in LaneSlots(db.slots, lane);
      }
    }
  }

  /** One lane's turn: its own slots go through `AfterBatch`, no other lane's change. */
  lemma GenerateLaneEffect(db: Db, lane: Id, now: Time, first: Id, lookahead: nat, dur: int)
    requires dur > 0 && SchedulesStored(db) && FreshFrom(db.slots, first)
    ensures var after := GenerateLane(db, lane, now, first, lookahead, dur);
      && Grows(db, after) && SchedulesStored(after)
      && FreshFrom(after.slots, first + Drawn(db, lane, now, lookahead, dur))
      && LaneSlots(after.slots, lane) == AfterBatch(LaneSlots(db.slots, lane), DueBatch(db, lane, now, lookahead, dur))
      && (forall l :: l != lane ==> LaneSlots(after.slots, l) == LaneSlots(db.slots, l))
      && (Clashes(LaneSlots(db.slots, lane), DueBatch(db, lane, now, lookahead, dur)) ==> after == db)
  {
    if lane in db.schedules {
      var due := DueBatch(db, lane, now, lookahead, dur);
      var batch := Numbered(first, due);
      InsertSlotsExact(db, batch);
      DueClash(db, lane, now, first, lookahead, dur);
      if Fits(db, batch) {
        DueLane(db, lane, now, lookahead, dur);
        BatchAdded(db, lane, batch, due, first);
      }
    }
  }

  lemma DueLane(db: Db, lane: Id, now: Time, lookahead: nat, dur: int)
    requires dur > 0 && SchedulesStored(db)
    ensures forall s :: s in DueBatch(db, lane, now, lookahead, dur) ==> s.lane == lane
  {
    if lane in db.schedules {
      var sch := db.schedules[lane];
      forall s | s in DueBatch(db, lane, now, lookahead, dur) ensures s.lane == lane {
        InWindow(lane, BackgroundDays(sch.days), StoredHours(sch.hours), DayOf(now), lookahead, dur, s);
        DayGridInDay(lane, StoredHours(sch.hours), DayOf(s.start), dur, s);
      }
    }
  }

  lemma BatchAdded(db: Db, lane: Id, batch: seq<NewSlot>, due: seq<Slot>, first: Id)
    requires batch == Numbered(first, due) && Fits(db, batch) && FreshFrom(db.slots, first)
    requires forall s :: s in due ==> s.lane == lane
    ensures var slots := db.slots + BatchRows(batch);
      && (forall i :: i in db.slots ==> i in slots && slots[i] == db.slots[i])
      && FreshFrom(slots, first + |due|)
      && LaneSlots(slots, lane) == LaneSlots(db.slots, lane) + (set s | s in due)
      && (forall l :: l != lane ==> LaneSlots(slots, l) == LaneSlots(db.slots, l))
  {
    var rows := BatchRows(batch);
    BatchRowsApart(db, batch);
    NumberedRows(lane, batch, due, first);
    forall l ensures LaneSlots(db.slots + rows, l) == LaneSlots(db.slots, l) + LaneSlots(rows, l) {
      LaneSlotsUnion(db.slots, rows, l);
    }
  }

  lemma NumberedRows(lane: Id, batch: seq<NewSlot>, due: seq<Slot>, first: Id)
    requires batch == Numbered(first, due)
    requires forall s :: s in due ==> s.lane == lane
    ensures var rows := BatchRows(batch);
      && (forall id :: id in rows ==> first <= id < first + |due|)
      && LaneSlots(rows, lane) == (set s | s in due)
      && (forall l :: l != lane ==> LaneSlots(rows, l) == {})
  {
    var rows := BatchRows(batch);
    BatchRowsAt(batch);
    NumberedIds(batch, due, first);
    forall s | s in due ensures s in LaneSlots(rows, lane) {
      var k :| 0 <= k < |due| && due[k] == s;
      assert rows[batch[k].id] == s;
    }
  }

  lemma NumberedIds(batch: seq<NewSlot>, due: seq<Slot>, first: Id)
    requires batch == Numbered(first, due)
    ensures forall id :: id in BatchRows(batch) ==> first <= id < first + |due| && BatchRows(batch)[id] in due
  {
    var rows := BatchRows(batch);
    BatchRowsAt(batch);
    forall id | id in rows ensures first <= id < first + |due| && rows[id] in due {
      var k :| 0 <= k < |batch| && batch[k].id == id;
      assert due[k] in due;
    }
  }

  lemma LaneSlotsUnion(a: map<Id, Slot>, b: map<Id, Slot>, lane: Id)
    requires a.Keys !! b.Keys
    ensures LaneSlots(a + b, lane) == LaneSlots(a, lane) + LaneSlots(b, lane)
  {
    forall s | s in LaneSlots(a, lane) ensures s in LaneSlots(a + b, lane) {
      var i :| i in a && a[i].lane == lane && a[i] == s;
      assert i !in b.Keys;
      assert (a + b)[i] == s;
    }
    forall s | s in LaneSlots(b, lane) ensures s in LaneSlots(a + b, lane) {
      var i :| i in b && b[i].lane == lane && b[i] == s;
      assert (a + b)[i] == s;
    }
    forall s | s in LaneSlots(a + b, lane) ensures s in LaneSlots(a, lane) || s in LaneSlots(b, lane) {
      var i :| i in a + b && (a + b)[i].lane == lane && (a + b)[i] == s;
      assert i in b ==> b[i] == s;
      assert i !in b ==> a[i] == s;
    }
  }

  /**
   Lane independence: after a run over all lanes, each lane's slots are what its own due batch
   makes of its own earlier slots, whatever happened on the other lanes and in whatever order.
   */
  lemma {:induction false} LanesIndependent(db: Db, lanes: seq<Id>, instants: seq<Time>, first: Id, lookahead: nat, dur: int)
    requires dur > 0 && |instants| == |lanes| && SchedulesStored(db) && FreshFrom(db.slots, first)
    requires forall i, j :: 0 <= i < j < |lanes| ==> lanes[i] != lanes[j]
    ensures var after := GenerateLanes(db, lanes, instants, first, lookahead, dur);
      && Grows(db, after) && SchedulesStored(after)
      && (forall k :: 0 <= k < |lanes| ==>
            LaneSlots(after.slots, lanes[k]) == AfterBatch(LaneSlots(db.slots, lanes[k]), DueBatch(db, lanes[k], instants[k], lookahead, dur)))
      && (forall l :: l !in lanes ==> LaneSlots(after.slots, l) == LaneSlots(db.slots, l))
    decreases |lanes|
  {
    if lanes != [] {
      var next := GenerateLane(db, lanes[0], instants[0], first, lookahead, dur);
      var rest, times := lanes[1..], instants[1..];
      var first1 := first + Drawn(db, lanes[0], instants[0], lookahead, dur);
      GenerateLaneEffect(db, lanes[0], instants[0], first, lookahead, dur);
      LanesIndependent(next, rest, times, first1, lookahead, dur);
      var after := GenerateLanes(next, rest, times, first1, lookahead, dur);
      assert after == GenerateLanes(db, lanes, instants, first, lookahead, dur);
      forall k | 0 <= k < |lanes|
        ensures LaneSlots(after.slots, lanes[k])
             == AfterBatch(LaneSlots(db.slots, lanes[k]), DueBatch(db, lanes[k], instants[k], lookahead, dur))
      {
        if k > 0 {
          assert rest[k - 1] == lanes[k] && times[k - 1] == instants[k];
          assert next.schedules == db.schedules;
          assert LaneSlots(next.slots, lanes[k]) == LaneSlots(db.slots, lanes[k]);
        } else {
          assert lanes[0] !in rest;
        }
      }
      forall l | l !in lanes ensures LaneSlots(after.slots, l) == LaneSlots(db.slots, l) {
        assert l != lanes[0] && l !in rest;
      }
    }
  }

  /** A lane whose due batch is empty or clashes is left exactly as it was. */
  lemma {:induction false} NothingToDo(db: Db, lanes: seq<Id>, instants: seq<Time>, first: Id, lookahead: nat, dur: int)
    requires dur > 0 && |instants| == |lanes| && SchedulesStored(db) && FreshFrom(db.slots, first)
    requires forall k :: 0 <= k < |lanes| ==>
      var due := DueBatch(db, lanes[k], instants[k], lookahead, dur);
      due == [] || Clashes(LaneSlots(db.slots, lanes[k]), due)
    ensures GenerateLanes(db, lanes, instants, first, lookahead, dur) == db
    decreases |lanes|
  {
    if lanes != [] {
      GenerateLaneEffect(db, lanes[0], instants[0], first, lookahead, dur);
      var due := DueBatch(db, lanes[0], instants[0], lookahead, dur);
      assert due == [] || Clashes(LaneSlots(db.slots, lanes[0]), due);
      assert InsertSlots(db, Numbered(first, [])).Ok?;
      assert GenerateLane(db, lanes[0], instants[0], first, lookahead, dur) == db;
      var rest, times := lanes[1..], instants[1..];
      forall k | 0 <= k < |rest|
        ensures var d := DueBatch(db, rest[k], times[k], lookahead, dur);
                d == [] || Clashes(LaneSlots(db.slots, rest[k]), d)
      {
        assert rest[k] == lanes[k + 1] && times[k] == instants[k + 1];
      }
      NothingToDo(db, rest, times, first + Drawn(db, lanes[0], instants[0], lookahead, dur), lookahead, dur);
    }
  }

  /** The ids a run draws stay below the next one. */
  lemma {:induction false} NextIdFresh(db: Db, lanes: seq<Id>, instants: seq<Time>, first: Id, lookahead: nat, dur: int)
    requires dur > 0 && |instants| == |lanes| && SchedulesStored(db) && FreshFrom(db.slots, first)
    ensures FreshFrom(GenerateLanes(db, lanes, instants, first, lookahead, dur).slots,
                      NextId(db, lanes, instants, first, lookahead, dur))
    decreases |lanes|
  {
    if lanes != [] {
      GenerateLaneEffect(db, lanes[0], instants[0], first, lookahead, dur);
      NextIdFresh(GenerateLane(db, lanes[0], instants[0], first, lookahead, dur), lanes[1..], instants[1..],
                  first + Drawn(db, lanes[0], instants[0], lookahead, dur), lookahead, dur);
    }
  }

  /** A second run on the same UTC day leaves the whole database as it is. */
  lemma GenerateAllIdempotent(db: Db, lanes: seq<Id>, instants: seq<Time>, first: Id,
                              again: seq<Time>, first2: Id, day: int, lookahead: nat, dur: int)
    requires dur > 0 && |instants| == |again| == |lanes| && SchedulesStored(db) && FreshFrom(db.slots, first)
    requires forall i, j :: 0 <= i < j < |lanes| ==> lanes[i] != lanes[j]
    requires forall k :: 0 <= k < |lanes| ==> DayOf(instants[k]) == day && DayOf(again[k]) == day
    requires FreshFrom(GenerateLanes(db, lanes, instants, first, lookahead, dur).slots, first2)
    ensures var once := GenerateLanes(db, lanes, instants, first, lookahead, dur);
      GenerateLanes(once, lanes, again, first2, lookahead, dur) == once
  {
    var once := GenerateLanes(db, lanes, instants, first, lookahead, dur);
    LanesIndependent(db, lanes, instants, first, lookahead, dur);
    forall k | 0 <= k < |lanes|
      ensures var due := DueBatch(once, lanes[k], again[k], lookahead, dur);
              due == [] || Clashes(LaneSlots(once.slots, lanes[k]), due)
    {
      var due := DueBatch(db, lanes[k], instants[k], lookahead, dur);
      assert once.schedules == db.schedules;
      assert due == DueBatch(once, lanes[k], again[k], lookahead, dur);
      if due != [] && !Clashes(LaneSlots(db.slots, lanes[k]), due) {
        assert due[0] in due && due[0] in LaneSlots(once.slots, lanes[k]);
      }
    }
    NothingToDo(once, lanes, again, first2, lookahead, dur);
  }

  /** The same for the two passes as they draw their ids, one after the other. */
  lemma RepeatedPassIdle(db: Db, lanes: seq<Id>, instants: seq<Time>, first: Id, again: seq<Time>, day: int, lookahead: nat, dur: int)
    requires dur > 0 && |instants| == |again| == |lanes| && SchedulesStored(db) && FreshFrom(db.slots, first)
    requires forall i, j :: 0 <= i < j < |lanes| ==> lanes[i] != lanes[j]
    requires forall k :: 0 <= k < |lanes| ==> DayOf(instants[k]) == day && DayOf(again[k]) == day
    ensures var once := GenerateLanes(db, lanes, instants, first, lookahead, dur);
      GenerateLanes(once, lanes, again, NextId(db, lanes, instants, first, lookahead, dur), lookahead, dur) == once
  {
    NextIdFresh(db, lanes, instants, first, lookahead, dur);
    GenerateAllIdempotent(db, lanes, instants, first, again, NextId(db, lanes, instants, first, lookahead, dur), day, lookahead, dur);
  }
}
