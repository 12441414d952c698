/**
 The database: four tables under the migration's constraints, and the statements the
 repositories send to it. A failing statement changes nothing.
 */
module Tables {
  import opened Prelude
  import opened Calendar
  import opened Models
  import Ordering

  datatype Db = Db(
    users: set<Id>,
    lanes: seq<Id>,
    schedules: map<Id, Schedule>,
    slots: map<Id, Slot>,
    bookings: map<Id, Booking>)

  /** What the driver reports: no row, a PostgreSQL error code, or a broken connection. */
  datatype RawError = NoRows | Code(code: string) | Broken

  const UNIQUE_VIOLATION := "23505"
  const FOREIGN_KEY_VIOLATION := "23503"
  const CHECK_VIOLATION := "23514"
  const NOT_NULL_VIOLATION := "23502"
  const EXCLUSION_VIOLATION := "23P01"
  const INVALID_DATETIME := "22007"

  datatype RepoError = NotFound | Conflict | ForeignKey | Validation | Internal

  /** `wrapDBError`. */
  function WrapDBError(raw: RawError): RepoError {
    match raw
    case NoRows => NotFound
    case Code(code) =>
      if code == UNIQUE_VIOLATION || code == EXCLUSION_VIOLATION then Conflict
      else if code == FOREIGN_KEY_VIOLATION then ForeignKey
      else if code == CHECK_VIOLATION || code == NOT_NULL_VIOLATION then Validation
      else Internal
    case Broken => Internal
  }

  /** The classification by PostgreSQL's own codes. */
  lemma ErrorClasses(code: string)
    ensures WrapDBError(NoRows) == NotFound && WrapDBError(Broken) == Internal
    ensures WrapDBError(Code(code)) == Conflict <==> code == "23505" || code == "23P01"
    ensures WrapDBError(Code(code)) == ForeignKey <==> code == "23503"
    ensures WrapDBError(Code(code)) == Validation <==> code == "23514" || code == "23502"
    ensures WrapDBError(Code(code)) != NotFound
  {
    assert "23505"[4] == '5' && "23503"[4] == '3' && "23514"[4] == '4' && "23502"[4] == '2' && "23P01"[4] == '1';
  }

  // ---- Constraints ----

  /** unique_slot. */
  ghost predicate UniqueSlots(slots: map<Id, Slot>) {
    forall i, j :: i in slots && j in slots && slots[i].lane == slots[j].lane && slots[i].start == slots[j].start ==> i == j
  }

  /** unique_active_booking_per_slot. */
  ghost predicate UniqueActive(bookings: map<Id, Booking>) {
    forall i, j | i in bookings && j in bookings && bookings[i].status.Active? && bookings[j].status.Active? ::
      bookings[i].slot == bookings[j].slot ==> i == j
  }

  /** check_times, over two TIME columns. */
  predicate TimesInOrder(hours: Hours) {
    0 <= hours.open < hours.close <= MINUTES_PER_DAY
  }

  /** Every constraint of the migration. */
  ghost predicate Consistent(db: Db) {
    && (forall i, j :: 0 <= i < j < |db.lanes| ==> db.lanes[i] != db.lanes[j])
    && (forall l :: l in db.schedules ==> l in db.lanes && TimesInOrder(db.schedules[l].hours))
    && (forall i :: i in db.slots ==> db.slots[i].lane in db.lanes && db.slots[i].start < db.slots[i].end)
    && UniqueSlots(db.slots)
    && (forall b :: b in db.bookings ==> db.bookings[b].user in db.users && db.bookings[b].slot in db.slots)
    && UniqueActive(db.bookings)
  }

  // ---- Slots ----

  /** A row for the table, with the id it was given. */
  datatype NewSlot = NewSlot(id: Id, slot: Slot)

  predicate StartTaken(slots: map<Id, Slot>, lane: Id, start: Time) {
    exists i :: i in slots && slots[i].lane == lane && slots[i].start == start
  }

  function InsertSlot(db: Db, row: NewSlot): Result<Db, RawError> {
    if row.slot.end <= row.slot.start then Err(Code(CHECK_VIOLATION))
    else if row.id in db.slots || StartTaken(db.slots, row.slot.lane, row.slot.start) then Err(Code(UNIQUE_VIOLATION))
    else if row.slot.lane !in db.lanes then Err(Code(FOREIGN_KEY_VIOLATION))
    else Ok(db.(slots := db.slots[row.id := row.slot]))
  }

  /** The statements of a batch one after another, up to the first failure. */
  function InsertSlots(db: Db, batch: seq<NewSlot>): Result<Db, RawError>
    decreases |batch|
  {
    if batch == [] then Ok(db) else
      match InsertSlot(db, batch[0])
      case Err(e) => Err(e)
      case Ok(db1) => InsertSlots(db1, batch[1..])
  }

  function BatchRows(batch: seq<NewSlot>): map<Id, Slot> {
    if batch == [] then map[] else map[batch[0].id := batch[0].slot] + BatchRows(batch[1..])
  }

  /** Nothing in the batch violates a constraint against the table or against the rest of the batch. */
  ghost predicate Fits(db: Db, batch: seq<NewSlot>) {
    && (forall i :: 0 <= i < |batch| ==>
          var s := batch[i].slot;
          s.start < s.end && s.lane in db.lanes && batch[i].id !in db.slots && !StartTaken(db.slots, s.lane, s.start))
    && (forall i, j :: 0 <= i < j < |batch| ==>
          batch[i].id != batch[j].id
          && (batch[i].slot.lane != batch[j].slot.lane || batch[i].slot.start != batch[j].slot.start))
  }

  /** A batch goes in exactly when it fits, and then it adds exactly its rows. */
  lemma {:induction false} InsertSlotsExact(db: Db, batch: seq<NewSlot>)
    ensures InsertSlots(db, batch).Ok? <==> Fits(db, batch)
    ensures InsertSlots(db, batch).Ok? ==>
              InsertSlots(db, batch).value == db.(slots := db.slots + BatchRows(batch))
    decreases |batch|
  {
    if batch == [] {
      assert db.slots + BatchRows(batch) == db.slots;
    } else {
      var rest := batch[1..];
      match InsertSlot(db, batch[0])
      case Err(_) =>
        assert !Fits(db, batch);
      case Ok(db1) =>
        InsertSlotsExact(db1, rest);
        FitsStep(db, batch);
        if Fits(db1, rest) {
          BatchRowsApart(db1, rest);
          assert db1.slots + BatchRows(rest) == db.slots + BatchRows(batch);
        }
    }
  }

  lemma FitsStep(db: Db, batch: seq<NewSlot>)
    requires batch != [] && InsertSlot(db, batch[0]).Ok?
    ensures Fits(db, batch) <==> Fits(InsertSlot(db, batch[0]).value, batch[1..])
  {
    var db1, rest := InsertSlot(db, batch[0]).value, batch[1..];
    if Fits(db, batch) {
      forall i | 0 <= i < |rest|
        ensures var s := rest[i].slot;
                s.start < s.end && s.lane in db1.lanes && rest[i].id !in db1.slots && !StartTaken(db1.slots, s.lane, s.start)
      {
        assert rest[i] == batch[i + 1];
      }
    }
    if Fits(db1, rest) {
      forall i | 0 < i < |batch|
        ensures var s := batch[i].slot;
                s.start < s.end && s.lane in db.lanes && batch[i].id !in db.slots && !StartTaken(db.slots, s.lane, s.start)
                && batch[0].id != batch[i].id && (batch[0].slot.lane != s.lane || batch[0].slot.start != s.start)
      {
        assert batch[i] == rest[i - 1];
        StillTaken(db, batch[0], batch[i].slot.lane, batch[i].slot.start);
      }
      forall i, j | 0 <= i < j < |batch|
        ensures batch[i].id != batch[j].id
                && (batch[i].slot.lane != batch[j].slot.lane || batch[i].slot.start != batch[j].slot.start)
      {
        if i > 0 {
          assert batch[i] == rest[i - 1] && batch[j] == rest[j - 1];
        }
      }
    }
  }

  /** After a row is in, what was taken stays taken and so is the row's own start. */
  lemma StillTaken(db: Db, row: NewSlot, lane: Id, start: Time)
    requires InsertSlot(db, row).Ok?
    ensures StartTaken(InsertSlot(db, row).value.slots, lane, start) <==>
            StartTaken(db.slots, lane, start) || (row.slot.lane == lane && row.slot.start == start)
  {
    var after := InsertSlot(db, row).value.slots;
    if StartTaken(db.slots, lane, start) {
      var k :| k in db.slots && db.slots[k].lane == lane && db.slots[k].start == start;
      assert after[k] == db.slots[k];
    }
    assert after[row.id] == row.slot;
  }

  /** The rows of a batch, by position. */
  lemma {:induction false} BatchRowsAt(batch: seq<NewSlot>)
    requires forall i, j :: 0 <= i < j < |batch| ==> batch[i].id != batch[j].id
    ensures forall i :: 0 <= i < |batch| ==> batch[i].id in BatchRows(batch) && BatchRows(batch)[batch[i].id] == batch[i].slot
    ensures forall id :: id in BatchRows(batch) ==> exists i :: 0 <= i < |batch| && batch[i].id == id
  {
    if batch != [] {
      var rest := batch[1..];
      BatchRowsAt(rest);
      forall i | 0 <= i < |batch|
        ensures batch[i].id in BatchRows(batch) && BatchRows(batch)[batch[i].id] == batch[i].slot
      {
        if i > 0 {
          assert rest[i - 1] == batch[i];
        }
      }
      forall id | id in BatchRows(batch) ensures exists i :: 0 <= i < |batch| && batch[i].id == id {
        if id in BatchRows(rest) {
          var k :| 0 <= k < |rest| && rest[k].id == id;
          assert batch[k + 1].id == id;
        } else {
          assert batch[0].id == id;
        }
      }
    }
  }

  lemma BatchRowsApart(db: Db, batch: seq<NewSlot>)
    requires Fits(db, batch)
    ensures forall id :: id in BatchRows(batch) ==> id !in db.slots
  {
    BatchRowsAt(batch);
  }

  // ---- Schedules ----

  /** A TIME value in minutes; 1440 is 24:00:00, and `None` stands for a text the type does not take. */
  predicate IsTime(column: Option<int>) {
    column.Some? && 0 <= column.value <= MINUTES_PER_DAY
  }

  /** `INSERT INTO schedules`. */
  function InsertSchedule(db: Db, lane: Id, days: seq<int>, open: Option<int>, close: Option<int>): Result<Db, RawError> {
    if !IsTime(open) || !IsTime(close) then Err(Code(INVALID_DATETIME))
    else if open.value >= close.value then Err(Code(CHECK_VIOLATION))
    else if lane in db.schedules then Err(Code(UNIQUE_VIOLATION))
    else if lane !in db.lanes then Err(Code(FOREIGN_KEY_VIOLATION))
    else Ok(db.(schedules := db.schedules[lane := Schedule(days, Hours(open.value, close.value))]))
  }

  // ---- Bookings ----

  /** The slot has an entry in the partial unique index. */
  predicate Taken(bookings: map<Id, Booking>, slot: Id) {
    exists b :: b in bookings && bookings[b].slot == slot && bookings[b].status.Active?
  }

  /** `INSERT INTO bookings`; `id` and `now` are the column defaults. The index is checked before the references. */
  function InsertBooking(db: Db, id: Id, user: Id, slot: Id, now: Time): Result<Db, RawError> {
    if id in db.bookings || Taken(db.bookings, slot) then Err(Code(UNIQUE_VIOLATION))
    else if user !in db.users || slot !in db.slots then Err(Code(FOREIGN_KEY_VIOLATION))
    else Ok(db.(bookings := db.bookings[id := Booking(user, slot, Active, now)]))
  }

  /** `UPDATE bookings SET status = 'cancelled' WHERE id = …`: no error when there is no such row. */
  function CancelBooking(db: Db, id: Id): Db {
    if id in db.bookings
    then db.(bookings := db.bookings[id := db.bookings[id].(status := Cancelled)])
    else db
  }

  /** Both booking statements keep every constraint. */
  lemma BookingStatementsKeepConstraints(db: Db, id: Id, user: Id, slot: Id, now: Time)
    requires Consistent(db)
    ensures InsertBooking(db, id, user, slot, now).Ok? ==> Consistent(InsertBooking(db, id, user, slot, now).value)
    ensures Consistent(CancelBooking(db, id))
  {
  }

  // ---- The availability query ----

  /** The slots of one lane in the query window of one day. */
  function SlotsOn(slots: map<Id, Slot>, lane: Id, day: int): set<Id> {
    set i | i in slots && slots[i].lane == lane && InQueryWindow(slots[i].start, day)
  }

  /** `slots LEFT JOIN bookings ON slot_id = id AND status = 'active'`, restricted to one lane and day. */
  function JoinRows(db: Db, lane: Id, day: int): set<(Id, Option<Id>)> {
    (set i, b | i in SlotsOn(db.slots, lane, day) && b in db.bookings
                && db.bookings[b].slot == i && db.bookings[b].status.Active? :: (i, Some(b)))
    + (set i | i in SlotsOn(db.slots, lane, day) && !Taken(db.bookings, i) :: (i, None))
  }

  /** `WHERE b.id IS NULL`. */
  function FreeSlots(db: Db, lane: Id, day: int): set<Id> {
    set r | r in JoinRows(db, lane, day) && r.1.None? :: r.0
  }

  /** The anti-join keeps exactly the slots without an active booking. */
  lemma FreeSlotsExact(db: Db, lane: Id, day: int)
    ensures FreeSlots(db, lane, day) == set i | i in SlotsOn(db.slots, lane, day) && !Taken(db.bookings, i)
  {
    forall i | i in SlotsOn(db.slots, lane, day) && !Taken(db.bookings, i) ensures i in FreeSlots(db, lane, day) {
      assert (i, None) in JoinRows(db, lane, day);
    }
  }

  /** The sort keys of the free slots. */
  function FreeKeys(db: Db, lane: Id, day: int): map<Id, int> {
    map i | i in FreeSlots(db, lane, day) && i in db.slots :: db.slots[i].start
  }

  function SlotRows(slots: map<Id, Slot>, ids: seq<Id>): (r: seq<SlotRow>)
    requires forall i :: 0 <= i < |ids| ==> ids[i] in slots
    ensures |r| == |ids| && forall i :: 0 <= i < |r| ==> r[i] == SlotRow(ids[i], slots[ids[i]])
  {
    seq(|ids|, i requires 0 <= i < |ids| => SlotRow(ids[i], slots[ids[i]]))
  }

  /** `GetAvailableByLaneAndDate`: the free slots by start time. */
  function Available(db: Db, lane: Id, day: int): seq<SlotRow> {
    SlotRows(db.slots, Ordering.Sorted(FreeKeys(db, lane, day)))
  }

  /** The listing holds each free slot of the lane and day once, in strictly increasing start order, and nothing else. */
  lemma AvailableExact(db: Db, lane: Id, day: int)
    requires UniqueSlots(db.slots)
    ensures var r := Available(db, lane, day);
      && (forall i, j :: 0 <= i < j < |r| ==> r[i].slot.start < r[j].slot.start)
      && (forall i :: 0 <= i < |r| ==>
            r[i].id in db.slots && r[i].slot == db.slots[r[i].id] && r[i].slot.lane == lane
            && InQueryWindow(r[i].slot.start, day) && !Taken(db.bookings, r[i].id))
      && (forall id | id in db.slots && db.slots[id].lane == lane && InQueryWindow(db.slots[id].start, day) ::
            !Taken(db.bookings, id) ==> SlotRow(id, db.slots[id]) in r)
  {
    FreeSlotsExact(db, lane, day);
    var keys := FreeKeys(db, lane, day);
    var ids, r := Ordering.Sorted(keys), Available(db, lane, day);
    forall i, j | 0 <= i < j < |r| ensures r[i].slot.start < r[j].slot.start {
      assert Ordering.Less(keys, ids[i], ids[j]);
    }
    forall id | id in db.slots && db.slots[id].lane == lane && InQueryWindow(db.slots[id].start, day) && !Taken(db.bookings, id)
      ensures SlotRow(id, db.slots[id]) in r
    {
      assert id in keys;
      var k :| 0 <= k < |ids| && ids[k] == id;
      assert r[k] == SlotRow(id, db.slots[id]);
    }
  }

  /** The active bookings of the slots of one lane and day. */
  function ActiveOn(db: Db, lane: Id, day: int): set<Id> {
    set b | b in db.bookings && db.bookings[b].status.Active? && db.bookings[b].slot in SlotsOn(db.slots, lane, day)
  }

  /**
   Conservation: on every lane and day, available slots and active bookings together are as many as
   the slots, and the join has one row per slot.
   */
  lemma Conservation(db: Db, lane: Id, day: int)
    requires UniqueActive(db.bookings)
    ensures |Available(db, lane, day)| + |ActiveOn(db, lane, day)| == |SlotsOn(db.slots, lane, day)|
    ensures |JoinRows(db, lane, day)| == |SlotsOn(db.slots, lane, day)|
  {
    FreeCount(db, lane, day);
    TakenSlots(db, lane, day);
    BookedSlots(db.bookings, ActiveOn(db, lane, day));
    Split(SlotsOn(db.slots, lane, day), FreeSlots(db, lane, day));
    JoinRowsOnePerSlot(db, lane, day);
  }

  lemma FreeCount(db: Db, lane: Id, day: int)
    ensures |Available(db, lane, day)| == |FreeSlots(db, lane, day)|
    ensures FreeSlots(db, lane, day) <= SlotsOn(db.slots, lane, day)
  {
    FreeSlotsExact(db, lane, day);
    var keys := FreeKeys(db, lane, day);
    assert keys.Keys == FreeSlots(db, lane, day);
    Ordering.SortedLength(keys);
  }

  lemma Split(all: set<Id>, part: set<Id>)
    requires part <= all
    ensures |part| + |all - part| == |all|
  {
    assert all == part + (all - part);
  }

  lemma TakenSlots(db: Db, lane: Id, day: int)
    ensures SlotsOn(db.slots, lane, day) - FreeSlots(db, lane, day)
            == set b | b in ActiveOn(db, lane, day) :: db.bookings[b].slot
  {
    FreeSlotsExact(db, lane, day);
    forall i | i in SlotsOn(db.slots, lane, day) && Taken(db.bookings, i)
      ensures i in set b | b in ActiveOn(db, lane, day) :: db.bookings[b].slot
    {
      var b :| b in db.bookings && db.bookings[b].slot == i && db.bookings[b].status.Active?;
      assert b in ActiveOn(db, lane, day);
    }
  }

  /** Distinct active bookings are on distinct slots. */
  lemma {:induction false} BookedSlots(bookings: map<Id, Booking>, active: set<Id>)
    requires UniqueActive(bookings)
    requires forall b :: b in active ==> b in bookings && bookings[b].status.Active?
    ensures |set b | b in active :: bookings[b].slot| == |active|
    decreases active
  {
    var image := set b | b in active :: bookings[b].slot;
    if active == {} {
      assert image == {};
    } else {
      var a :| a in active;
      var rest := active - {a};
      BookedSlots(bookings, rest);
      var before := set b | b in rest :: bookings[b].slot;
      assert image == before + {bookings[a].slot};
      assert bookings[a].slot !in before;
    }
  }

  /** Thanks to the partial unique index the join neither drops nor repeats a slot. */
  lemma JoinRowsOnePerSlot(db: Db, lane: Id, day: int)
    requires UniqueActive(db.bookings)
    ensures |JoinRows(db, lane, day)| == |SlotsOn(db.slots, lane, day)|
  {
    var rows := JoinRows(db, lane, day);
    var all := SlotsOn(db.slots, lane, day);
    assert all == set r | r in rows :: r.0 by {
      forall i | i in all ensures i in set r | r in rows :: r.0 {
        if Taken(db.bookings, i) {
          var b :| b in db.bookings && db.bookings[b].slot == i && db.bookings[b].status.Active?;
          assert (i, Some(b)) in rows;
        } else {
          assert (i, None) in rows;
        }
      }
    }
    ProjectionSize(rows);
  }

  lemma {:induction false} ProjectionSize(rows: set<(Id, Option<Id>)>)
    requires forall p, q :: p in rows && q in rows && p.0 == q.0 ==> p == q
    ensures |set r | r in rows :: r.0| == |rows|
    decreases rows
  {
    var image := set r | r in rows :: r.0;
    if rows == {} {
      assert image == {};
    } else {
      var p :| p in rows;
      var rest := rows - {p};
      ProjectionSize(rest);
      var before := set r | r in rest :: r.0;
      assert image == before + {p.0};
      assert p.0 !in before;
    }
  }
}
