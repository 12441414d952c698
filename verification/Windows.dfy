/** Days with slots, full days and holes in one lane's slot table, and what one batch does to them. */
module Windows {
  import opened Prelude
  import opened Calendar
  import opened Models
  import opened Grid
  import opened Tables
  import opened Scheduling

  predicate Present(slots: map<Id, Slot>, s: Slot) {
    exists i :: i in slots && slots[i] == s
  }

  ghost predicate HasSlotOn(slots: map<Id, Slot>, lane: Id, day: int) {
    exists i :: i in slots && slots[i].lane == lane && DayOf(slots[i].start) == day
  }

  /** Every slot of the day's grid is in the table. */
  ghost predicate DayFull(slots: map<Id, Slot>, lane: Id, hours: Hours, day: int, dur: int)
    requires dur > 0
  {
    forall s :: s in DayGrid(lane, hours, day, dur) ==> Present(slots, s)
  }

  /** A day the background generator lays a grid on. */
  predicate Due(sch: Schedule, day: int) {
    Weekday(day) in BackgroundDays(sch.days)
  }

  /** From today up to any due day that has a slot, every due day is full. */
  ghost predicate NoHoles(slots: map<Id, Slot>, lane: Id, sch: Schedule, today: int, dur: int)
    requires dur > 0
  {
    forall e, f :: today <= f <= e && Due(sch, e) && Due(sch, f) && HasSlotOn(slots, lane, e) ==> DayFull(slots, lane, LaneHours(sch), f, dur)
  }

  /** A due day that has a slot is full, past days included. */
  ghost predicate TouchedFull(slots: map<Id, Slot>, lane: Id, sch: Schedule, dur: int)
    requires dur > 0
  {
    forall d :: Due(sch, d) && HasSlotOn(slots, lane, d) ==> DayFull(slots, lane, LaneHours(sch), d, dur)
  }

  /** Every due day of a window is full. */
  ghost predicate WindowFull(slots: map<Id, Slot>, lane: Id, sch: Schedule, first: int, n: nat, dur: int)
    requires dur > 0
  {
    forall day :: first <= day < first + n && Due(sch, day) ==> DayFull(slots, lane, LaneHours(sch), day, dur)
  }

  ghost predicate WindowTouched(slots: map<Id, Slot>, lane: Id, sch: Schedule, first: int, n: nat) {
    exists day :: first <= day < first + n && Due(sch, day) && HasSlotOn(slots, lane, day)
  }

  /** The lane's hours hold at least one slot. */
  predicate RoomForSlot(hours: Hours, dur: int) {
    (hours.close - hours.open) * MINUTE >= dur
  }

  /** `after` has the rows of `before` and the `added` slots, nothing else. */
  ghost predicate Adds(before: map<Id, Slot>, after: map<Id, Slot>, added: seq<Slot>) {
    && (forall i :: i in before ==> i in after && after[i] == before[i])
    && (forall i :: i in after && i !in before ==> after[i] in added)
    && (forall s :: s in added ==> Present(after, s))
  }

  lemma BatchAdds(db: Db, batch: seq<NewSlot>, added: seq<Slot>)
    requires InsertSlots(db, batch).Ok?
    requires |batch| == |added| && forall i :: 0 <= i < |batch| ==> batch[i].slot == added[i]
    ensures Adds(db.slots, InsertSlots(db, batch).value.slots, added)
  {
    InsertSlotsExact(db, batch);
    BatchRowsAt(batch);
    BatchRowsApart(db, batch);
    var rows := BatchRows(batch);
    var after := db.slots + rows;
    forall i | i in after && i !in db.slots ensures after[i] in added {
      var k :| 0 <= k < |batch| && batch[k].id == i;
      assert added[k] in added;
    }
    forall s | s in added ensures Present(after, s) {
      var k :| 0 <= k < |added| && added[k] == s;
      assert after[batch[k].id] == s;
    }
  }

  lemma FullStaysFull(before: map<Id, Slot>, after: map<Id, Slot>, added: seq<Slot>, lane: Id, hours: Hours, day: int, dur: int)
    requires dur > 0 && Adds(before, after, added) && DayFull(before, lane, hours, day, dur)
    ensures DayFull(after, lane, hours, day, dur)
  {
    forall s | s in DayGrid(lane, hours, day, dur) ensures Present(after, s) {
      assert Present(before, s);
      var i :| i in before && before[i] == s;
      assert after[i] == s;
    }
  }

  /** A window batch fills each of its open days. */
  lemma BatchFillsDay(before: map<Id, Slot>, after: map<Id, Slot>, lane: Id, open: set<int>, hours: Hours, first: int, n: nat, dur: int, day: int)
    requires dur > 0 && WithinDay(hours) && Adds(before, after, WindowSlots(lane, open, hours, first, n, dur))
    requires first <= day < first + n && Weekday(day) in open
    ensures DayFull(after, lane, hours, day, dur)
  {
    forall s | s in DayGrid(lane, hours, day, dur) ensures Present(after, s) {
      DayGridInDay(lane, hours, day, dur, s);
      InWindow(lane, open, hours, first, n, dur, s);
    }
  }

  /** A day that has a slot of lane `l` afterwards had one before or is an open day of the batch's window. */
  lemma TouchedDays(before: map<Id, Slot>, after: map<Id, Slot>, lane: Id, open: set<int>, hours: Hours, first: int, n: nat,
                    dur: int, l: Id, day: int)
    requires dur > 0 && WithinDay(hours) && Adds(before, after, WindowSlots(lane, open, hours, first, n, dur))
    requires HasSlotOn(after, l, day)
    ensures HasSlotOn(before, l, day) || (l == lane && first <= day < first + n && Weekday(day) in open)
  {
    var i :| i in after && after[i].lane == l && DayOf(after[i].start) == day;
    if i in before {
      assert before[i] == after[i];
    } else {
      InWindow(lane, open, hours, first, n, dur, after[i]);
      DayGridInDay(lane, hours, DayOf(after[i].start), dur, after[i]);
    }
  }

  /** A batch on the lane's own hours. */
  lemma DueBatchKeeps(before: map<Id, Slot>, after: map<Id, Slot>, lane: Id, sch: Schedule, first: int, n: nat, dur: int, today: int)
    requires dur > 0 && WithinDay(LaneHours(sch)) && first <= today
    requires Adds(before, after, WindowSlots(lane, BackgroundDays(sch.days), LaneHours(sch), first, n, dur))
    requires TouchedFull(before, lane, sch, dur) && NoHoles(before, lane, sch, today, dur)
    ensures TouchedFull(after, lane, sch, dur) && NoHoles(after, lane, sch, today, dur)
  {
    var open, hours := BackgroundDays(sch.days), LaneHours(sch);
    forall e, f | f <= e && (today <= f || f == e) && Due(sch, e) && Due(sch, f) && HasSlotOn(after, lane, e)
      ensures DayFull(after, lane, hours, f, dur)
    {
      TouchedDays(before, after, lane, open, hours, first, n, dur, lane, e);
      if HasSlotOn(before, lane, e) {
        FullStaysFull(before, after, WindowSlots(lane, open, hours, first, n, dur), lane, hours, f, dur);
      } else {
        BatchFillsDay(before, after, lane, open, hours, first, n, dur, f);
      }
    }
  }

  /** A first window on hours `g` whose grid holds every slot of the lane's own. */
  lemma FirstBatchKeeps(before: map<Id, Slot>, after: map<Id, Slot>, lane: Id, g: Hours, sch: Schedule, first: int, n: nat, dur: int, today: int)
    requires dur > 0 && WithinDay(g) && first <= today && forall d :: !HasSlotOn(before, lane, d)
    requires Adds(before, after, WindowSlots(lane, InitialDays(sch.days), g, first, n, dur))
    requires forall d, s :: s in DayGrid(lane, LaneHours(sch), d, dur) ==> s in DayGrid(lane, g, d, dur)
    ensures TouchedFull(after, lane, sch, dur) && NoHoles(after, lane, sch, today, dur)
  {
    var open := InitialDays(sch.days);
    forall e, f | f <= e && (today <= f || f == e) && Due(sch, e) && Due(sch, f) && HasSlotOn(after, lane, e)
      ensures DayFull(after, lane, LaneHours(sch), f, dur)
    {
      TouchedDays(before, after, lane, open, g, first, n, dur, lane, e);
      DueDayInitial(sch.days, f);
      BatchFillsDay(before, after, lane, open, g, first, n, dur, f);
      forall s | s in DayGrid(lane, LaneHours(sch), f, dur) ensures Present(after, s) {
        assert s in DayGrid(lane, g, f, dur);
      }
    }
  }

  /** Slots on other lanes. */
  lemma OtherLaneKeeps(before: map<Id, Slot>, after: map<Id, Slot>, added: seq<Slot>, lane: Id, sch: Schedule, dur: int, today: int)
    requires dur > 0 && Adds(before, after, added) && forall s :: s in added ==> s.lane != lane
    requires TouchedFull(before, lane, sch, dur) && NoHoles(before, lane, sch, today, dur)
    ensures TouchedFull(after, lane, sch, dur) && NoHoles(after, lane, sch, today, dur)
  {
    forall e, f | f <= e && (today <= f || f == e) && Due(sch, e) && Due(sch, f) && HasSlotOn(after, lane, e)
      ensures DayFull(after, lane, LaneHours(sch), f, dur)
    {
      OtherLaneDays(before, after, added, lane, e);
      FullStaysFull(before, after, added, lane, LaneHours(sch), f, dur);
    }
  }

  lemma OtherLaneDays(before: map<Id, Slot>, after: map<Id, Slot>, added: seq<Slot>, lane: Id, day: int)
    requires Adds(before, after, added) && (forall s :: s in added ==> s.lane != lane) && HasSlotOn(after, lane, day)
    ensures HasSlotOn(before, lane, day)
  {
    var i :| i in after && after[i].lane == lane && DayOf(after[i].start) == day;
    assert before[i] == after[i];
  }

  /** Time passing opens no hole. */
  lemma LaterKeepsNoHoles(slots: map<Id, Slot>, lane: Id, sch: Schedule, today: int, later: int, dur: int)
    requires dur > 0 && NoHoles(slots, lane, sch, today, dur) && today <= later
    ensures NoHoles(slots, lane, sch, later, dur)
  {
  }

  /** A full day of hours that hold a slot has a slot, at its opening. */
  lemma FullHasSlot(slots: map<Id, Slot>, lane: Id, hours: Hours, day: int, dur: int)
    requires dur > 0 && WithinDay(hours) && RoomForSlot(hours, dur) && DayFull(slots, lane, hours, day, dur)
    ensures HasSlotOn(slots, lane, day)
    ensures DayGrid(lane, hours, day, dur) != [] && StartTaken(slots, lane, DayGrid(lane, hours, day, dur)[0].start)
  {
    var grid := DayGrid(lane, hours, day, dur);
    TileCount(lane, At(day, hours.open), At(day, hours.close), dur);
    assert At(day, hours.close) - At(day, hours.open) == (hours.close - hours.open) * MINUTE;
    assert grid[0] in grid;
    DayGridInDay(lane, hours, day, dur, grid[0]);
    assert Present(slots, grid[0]);
  }

  /** Where every touched due day is full, a start of the window is taken exactly when one of its due days has a slot. */
  lemma TakenExactly(slots: map<Id, Slot>, lane: Id, sch: Schedule, first: int, n: nat, dur: int)
    requires dur > 0 && WithinDay(LaneHours(sch)) && RoomForSlot(LaneHours(sch), dur) && TouchedFull(slots, lane, sch, dur)
    ensures var batch := WindowSlots(lane, BackgroundDays(sch.days), LaneHours(sch), first, n, dur);
      (exists s :: s in batch && StartTaken(slots, lane, s.start)) <==> WindowTouched(slots, lane, sch, first, n)
  {
    var open, hours := BackgroundDays(sch.days), LaneHours(sch);
    if WindowTouched(slots, lane, sch, first, n) {
      var day :| first <= day < first + n && Due(sch, day) && HasSlotOn(slots, lane, day);
      FullHasSlot(slots, lane, hours, day, dur);
      var s := DayGrid(lane, hours, day, dur)[0];
      DayGridInDay(lane, hours, day, dur, s);
      InWindow(lane, open, hours, first, n, dur, s);
      assert s in WindowSlots(lane, open, hours, first, n, dur) && StartTaken(slots, lane, s.start);
    }
    if s :| s in WindowSlots(lane, open, hours, first, n, dur) && StartTaken(slots, lane, s.start) {
      InWindow(lane, open, hours, first, n, dur, s);
      assert HasSlotOn(slots, lane, DayOf(s.start));
    }
  }
}
