/**
 The repositories over one PostgreSQL database, the UUID source and the wall clock. A method's
 body is one statement or batch; `Restore` is a rollback to a state seen before.
 */
module Repository {
  import opened Prelude
  import opened Calendar
  import opened Models
  import opened Tables
  import opened Pagination
  import Ordering

  /** `uuid.New()`: never the same value twice. */
  class UuidSource {
    var next: Id

    constructor ()
      ensures next == 0
    {
      next := 0;
    }

    method New() returns (id: Id)
      modifies this
      ensures id == old(next) && next == old(next) + 1
    {
      id := next;
      next := next + 1;
    }
  }

  /** `time.Now().UTC()`: never goes back. */
  class Clock {
    var now: Time

    constructor (t: Time)
      ensures now == t
    {
      now := t;
    }

    method Now() returns (t: Time)
      modifies this
      ensures t == now && old(now) <= now
    {
      t :| t >= now;
      now := t;
    }
  }

  /** A user's active bookings on slots that start after `now`, by start time. */
  function UpcomingOf(db: Db, user: Id, now: Time): seq<BookingRow> {
    BookingRows(db.bookings, Ordering.Sorted(UpcomingKeys(db, user, now)))
  }

  function UpcomingKeys(db: Db, user: Id, now: Time): map<Id, int> {
    map b | b in db.bookings && IsUpcoming(db, b, user, now) :: db.slots[db.bookings[b].slot].start
  }

  /** The WHERE clause of the join of bookings and slots. */
  predicate IsUpcoming(db: Db, b: Id, user: Id, now: Time)
    requires b in db.bookings
  {
    && db.bookings[b].slot in db.slots
    && db.bookings[b].user == user && db.bookings[b].status.Active? && db.slots[db.bookings[b].slot].start > now
  }

  /** The join itself, in slot order. */
  function JoinedKeys(db: Db): map<Id, int> {
    map b | b in db.bookings && db.bookings[b].slot in db.slots :: db.slots[db.bookings[b].slot].start
  }

  /** All slots, in start order. */
  function StartKeys(slots: map<Id, Slot>): map<Id, int> {
    map i | i in slots :: slots[i].start
  }

  predicate RowsOf(slots: map<Id, Slot>, ids: seq<Id>, r: seq<SlotRow>) {
    |r| == |ids| && forall j :: 0 <= j < |r| ==> ids[j] in slots && r[j] == SlotRow(ids[j], slots[ids[j]])
  }

  predicate BookingRowsOf(bookings: map<Id, Booking>, ids: seq<Id>, r: seq<BookingRow>) {
    |r| == |ids| && forall j :: 0 <= j < |r| ==> ids[j] in bookings && r[j] == BookingRow(ids[j], bookings[ids[j]])
  }

  /** Scanning the slots in start order and keeping the free ones of a lane and day is the availability query. */
  lemma ScanFindsAvailable(db: Db, lane: Id, day: int, r: seq<SlotRow>)
    requires RowsOf(db.slots, Ordering.Keep(Ordering.Sorted(StartKeys(db.slots)), FreeSlots(db, lane, day)), r)
    ensures r == Available(db, lane, day)
  {
    Ordering.SortedKeep(StartKeys(db.slots), FreeSlots(db, lane, day));
    AvailableOfAll(db, lane, day);
  }

  lemma AvailableOfAll(db: Db, lane: Id, day: int)
    ensures Ordering.Restrict(StartKeys(db.slots), FreeSlots(db, lane, day)) == FreeKeys(db, lane, day)
  {
    FreeSlotsExact(db, lane, day);
    var p, q := Ordering.Restrict(StartKeys(db.slots), FreeSlots(db, lane, day)), FreeKeys(db, lane, day);
    assert p.Keys == q.Keys;
  }

  /** The bookings a user's listing keeps. */
  function UpcomingIds(db: Db, user: Id, now: Time): set<Id> {
    set b | b in db.bookings && IsUpcoming(db, b, user, now)
  }

  lemma ScanFindsUpcoming(db: Db, user: Id, now: Time, r: seq<BookingRow>)
    requires BookingRowsOf(db.bookings, Ordering.Keep(Ordering.Sorted(JoinedKeys(db)), UpcomingIds(db, user, now)), r)
    ensures r == UpcomingOf(db, user, now)
  {
    Ordering.SortedKeep(JoinedKeys(db), UpcomingIds(db, user, now));
    UpcomingOfJoin(db, user, now);
  }

  lemma UpcomingOfJoin(db: Db, user: Id, now: Time)
    ensures Ordering.Restrict(JoinedKeys(db), UpcomingIds(db, user, now)) == UpcomingKeys(db, user, now)
  {
    var p, q := Ordering.Restrict(JoinedKeys(db), UpcomingIds(db, user, now)), UpcomingKeys(db, user, now);
    assert p.Keys == q.Keys;
  }

  class Database {
    var users: set<Id>
    var lanes: seq<Id>
    var schedules: map<Id, Schedule>
    var slots: map<Id, Slot>
    var bookings: map<Id, Booking>

    constructor ()
      ensures State() == Db({}, [], map[], map[], map[])
    {
      users, lanes, schedules, slots, bookings := {}, [], map[], map[], map[];
    }

    /** The contents of all tables. */
    function State(): Db
      reads this
    {
      Db(users, lanes, schedules, slots, bookings)
    }

    method Restore(db: Db)
      modifies this
      ensures State() == db
    {
      users, lanes, schedules, slots, bookings := db.users, db.lanes, db.schedules, db.slots, db.bookings;
    }

    // ---- Lanes and schedules ----

    method HasLane(lane: Id) returns (r: Result<(), RepoError>)
      ensures r == if lane in lanes then Ok(()) else Err(NotFound)
    {
      r := if lane in lanes then Ok(()) else Err(WrapDBError(NoRows));
    }

    method GetAllLanes() returns (r: seq<Id>)
      ensures r == lanes
    {
      r := lanes;
    }

    method GetScheduleByLane(lane: Id) returns (r: Result<Schedule, RepoError>)
      ensures r == if lane in schedules then Ok(schedules[lane]) else Err(NotFound)
    {
      r := if lane in schedules then Ok(schedules[lane]) else Err(WrapDBError(NoRows));
    }

    method CreateScheduleRow(lane: Id, days: seq<int>, open: Option<int>, close: Option<int>) returns (r: Result<(), RepoError>)
      modifies this
      ensures match InsertSchedule(old(State()), lane, days, open, close)
        case Ok(db) => r == Ok(()) && State() == db
        case Err(e) => r == Err(WrapDBError(e)) && State() == old(State())
    {
      match InsertSchedule(State(), lane, days, open, close)
      case Err(e) =>
        r := Err(WrapDBError(e));
      case Ok(db) =>
        schedules := db.schedules;
        r := Ok(());
    }

    // ---- Slots ----

    /** All rows of the batch or none: it succeeds exactly when the whole batch fits. */
    method CreateSlots(batch: seq<NewSlot>) returns (r: Result<(), RepoError>)
      modifies this
      ensures r.Ok? <==> Fits(old(State()), batch)
      ensures r.Ok? ==> State() == old(State()).(slots := old(slots) + BatchRows(batch))
      ensures r.Err? ==> State() == old(State())
      ensures match InsertSlots(old(State()), batch)
        case Ok(db) => r == Ok(()) && State() == db
        case Err(e) => r == Err(WrapDBError(e))
    {
      InsertSlotsExact(State(), batch);
      if |batch| == 0 {
        return Ok(());
      }
      var before := State();
      for i := 0 to |batch|
        invariant InsertSlots(before, batch) == InsertSlots(State(), batch[i..])
      {
        assert batch[i..][1..] == batch[i + 1..];
        match InsertSlot(State(), batch[i])
        case Err(e) =>
          Restore(before);
          return Err(WrapDBError(e));
        case Ok(db) =>
          slots := db.slots;
      }
      r := Ok(());
    }

    method GetSlotByID(id: Id) returns (r: Result<Slot, RepoError>)
      ensures r == if id in slots then Ok(slots[id]) else Err(NotFound)
    {
      r := if id in slots then Ok(slots[id]) else Err(WrapDBError(NoRows));
    }

    /** The slots in start order, row by row through the anti-join. */
    method GetAvailableByLaneAndDate(lane: Id, date: Time) returns (r: seq<SlotRow>)
      ensures r == Available(State(), lane, DayOf(date))
    {
      r := ScanSlots(Ordering.Sorted(StartKeys(slots)), lane, date);
      ScanFindsAvailable(State(), lane, DayOf(date), r);
    }

    method ScanSlots(ids: seq<Id>, lane: Id, date: Time) returns (r: seq<SlotRow>)
      requires forall i :: 0 <= i < |ids| ==> ids[i] in slots
      ensures RowsOf(slots, Ordering.Keep(ids, FreeSlots(State(), lane, DayOf(date))), r)
    {
      ghost var free := FreeSlots(State(), lane, DayOf(date));
      r := [];
      for i := 0 to |ids|
        invariant RowsOf(slots, Ordering.Keep(ids[..i], free), r)
      {
        Ordering.KeepNext(ids, i, free);
        var selected := IsSelected(ids[i], lane, date);
        if selected {
          r := r + [SlotRow(ids[i], slots[ids[i]])];
        }
      }
      assert ids[..|ids|] == ids;
    }

    /** The row's WHERE clause. */
    method IsSelected(id: Id, lane: Id, date: Time) returns (selected: bool)
      requires id in slots
      ensures selected <==> id in FreeSlots(State(), lane, DayOf(date))
    {
      var startOfDay := Midnight(DayOf(date));
      var endOfDay := startOfDay + DAY;
      var taken := HasActiveBooking(id);
      selected := slots[id].lane == lane && startOfDay <= slots[id].start < endOfDay && !taken;
      FreeSlotsExact(State(), lane, DayOf(date));
    }

    /** The joined side: a scan of the bookings for an active one on the slot. */
    method HasActiveBooking(slot: Id) returns (taken: bool)
      ensures taken <==> Taken(bookings, slot)
    {
      var rest := bookings.Keys;
      taken := false;
      while rest != {} && !taken
        invariant rest <= bookings.Keys
        invariant taken ==> Taken(bookings, slot)
        invariant Taken(bookings, slot) ==> taken || exists b :: b in rest && bookings[b].slot == slot && bookings[b].status.Active?
        decreases rest
      {
        var b :| b in rest;
        taken := bookings[b].slot == slot && bookings[b].status.Active?;
        rest := rest - {b};
      }
    }

    // ---- Bookings ----

    method CreateBooking(id: Id, user: Id, slot: Id, now: Time) returns (r: Result<(), RepoError>)
      modifies this
      ensures match InsertBooking(old(State()), id, user, slot, now)
        case Ok(db) => r == Ok(()) && State() == db
        case Err(e) => r == Err(WrapDBError(e)) && State() == old(State())
    {
      match InsertBooking(State(), id, user, slot, now)
      case Err(e) =>
        r := Err(WrapDBError(e));
      case Ok(db) =>
        bookings := db.bookings;
        r := Ok(());
    }

    method GetBooking(id: Id) returns (r: Result<Booking, RepoError>)
      ensures r == if id in bookings then Ok(bookings[id]) else Err(NotFound)
    {
      r := if id in bookings then Ok(bookings[id]) else Err(WrapDBError(NoRows));
    }

    /** The row's status, whatever it was, becomes cancelled; no other row and no other column changes. */
    method Cancel(id: Id)
      modifies this
      ensures State() == CancelBooking(old(State()), id)
      ensures bookings.Keys == old(bookings).Keys
      ensures forall b :: b in bookings ==> bookings[b] == if b == id then old(bookings)[b].(status := Cancelled) else old(bookings)[b]
    {
      if id in bookings {
        bookings := bookings[id := bookings[id].(status := Cancelled)];
      }
    }

    /** The join of bookings and slots in slot order, row by row. */
    method GetActiveByUserID(user: Id, now: Time) returns (r: seq<BookingRow>)
      ensures r == UpcomingOf(State(), user, now)
    {
      r := ScanBookings(Ordering.Sorted(JoinedKeys(State())), user, now);
      ScanFindsUpcoming(State(), user, now, r);
    }

    method ScanBookings(ids: seq<Id>, user: Id, now: Time) returns (r: seq<BookingRow>)
      requires forall i :: 0 <= i < |ids| ==> ids[i] in bookings && bookings[ids[i]].slot in slots
      ensures BookingRowsOf(bookings, Ordering.Keep(ids, UpcomingIds(State(), user, now)), r)
    {
      ghost var upcoming := UpcomingIds(State(), user, now);
      r := [];
      for i := 0 to |ids|
        invariant BookingRowsOf(bookings, Ordering.Keep(ids[..i], upcoming), r)
      {
        Ordering.KeepNext(ids, i, upcoming);
        var booking := bookings[ids[i]];
        if booking.user == user && booking.status.Active? && slots[booking.slot].start > now {
          r := r + [BookingRow(ids[i], booking)];
        }
      }
      assert ids[..|ids|] == ids;
    }

    /** `SELECT COUNT(*)`. */
    method Count() returns (total: uint64)
      ensures total == ToUint64(|Listed(bookings)|)
    {
      ListedLength(bookings);
      total := ToUint64(|bookings|);
    }

    /** The ordered rows are scanned past the offset until the limit is reached. */
    method List(limit: uint64, page: uint64) returns (r: Result<BookingList, RepoError>)
      ensures r == GetList(Listed(bookings), limit, page)
    {
      var total := Count();
      var offset := ToUint64(page * limit);
      if offset >= TWO_63 || limit >= TWO_63 {
        return Err(WrapDBError(Code("22003")));
      }
      var result := Scan(offset, limit);
      r := Ok(BookingList(result, total));
    }

    method Scan(offset: nat, limit: nat) returns (result: seq<BookingRow>)
      ensures result == Slice(Listed(bookings), offset, limit)
    {
      var table := bookings;
      var ids := Ordering.Sorted(CreatedKeys(table));
      ghost var all := BookingRows(table, ids);
      result := [];
      for i := 0 to |ids|
        invariant result == Slice(all[..i], offset, limit)
      {
        SliceNext(all, i, offset, limit);
        if offset <= i && |result| < limit {
          result := result + [BookingRow(ids[i], table[ids[i]])];
        }
      }
      assert all[..|ids|] == all;
    }
  }

  /** The listing holds exactly the user's active bookings on future slots, by start time. */
  lemma UpcomingExact(db: Db, user: Id, now: Time)
    ensures var r := UpcomingOf(db, user, now);
      && (forall i :: 0 <= i < |r| ==> r[i].booking.slot in db.slots)
      && (forall i, j :: 0 <= i < j < |r| ==> r[i].id != r[j].id && db.slots[r[i].booking.slot].start <= db.slots[r[j].booking.slot].start)
      && (forall i :: 0 <= i < |r| ==> r[i].id in db.bookings && r[i].booking == db.bookings[r[i].id])
      && (forall i :: 0 <= i < |r| ==> r[i].booking.user == user && r[i].booking.status.Active?)
      && (forall i :: 0 <= i < |r| ==> db.slots[r[i].booking.slot].start > now)
      && (forall b :: b in db.bookings && db.bookings[b].user == user && db.bookings[b].status.Active?
            && db.bookings[b].slot in db.slots && db.slots[db.bookings[b].slot].start > now
            ==> BookingRow(b, db.bookings[b]) in r)
  {
    UpcomingInOrder(db, user, now);
    UpcomingRows(db, user, now);
    UpcomingComplete(db, user, now);
  }

  lemma UpcomingRows(db: Db, user: Id, now: Time)
    ensures var r := UpcomingOf(db, user, now);
      forall i :: 0 <= i < |r| ==> r[i].id in UpcomingKeys(db, user, now) && r[i].booking == db.bookings[r[i].id]
  {
  }

  lemma UpcomingComplete(db: Db, user: Id, now: Time)
    ensures forall b :: b in UpcomingKeys(db, user, now) ==> BookingRow(b, db.bookings[b]) in UpcomingOf(db, user, now)
  {
    var keys := UpcomingKeys(db, user, now);
    var ids, r := Ordering.Sorted(keys), UpcomingOf(db, user, now);
    forall b | b in keys ensures BookingRow(b, db.bookings[b]) in r {
      var k :| 0 <= k < |ids| && ids[k] == b;
      assert r[k] == BookingRow(b, db.bookings[b]);
    }
  }

  lemma UpcomingInOrder(db: Db, user: Id, now: Time)
    ensures var r := UpcomingOf(db, user, now);
      && (forall i :: 0 <= i < |r| ==> r[i].booking.slot in db.slots)
      && (forall i, j :: 0 <= i < j < |r| ==> r[i].id != r[j].id && db.slots[r[i].booking.slot].start <= db.slots[r[j].booking.slot].start)
  {
    var keys := UpcomingKeys(db, user, now);
    var ids, r := Ordering.Sorted(keys), UpcomingOf(db, user, now);
    forall i, j | 0 <= i < j < |r|
      ensures r[i].id != r[j].id && db.slots[r[i].booking.slot].start <= db.slots[r[j].booking.slot].start
    {
      assert Ordering.Less(keys, ids[i], ids[j]);
    }
  }
}
