/** `BookingService`: the create and cancel transactions with invalidation after commit. */
module BookingService {
  import opened Prelude
  import opened Calendar
  import opened Models
  import opened Tables
  import opened Repository
  import opened Cache
  import Availability

  datatype CreateError = SlotNotExisting | SlotIsUsed | CreateFailed(error: RepoError)

  datatype CancelError = BookingNotFound | Forbidden | CancelFailed(error: RepoError)

  /** The create transaction. */
  function CreateTx(db: Db, user: Id, slot: Id, id: Id, now: Time): Result<Db, CreateError> {
    if slot !in db.slots then Err(SlotNotExisting) else
      match InsertBooking(db, id, user, slot, now)
      case Ok(after) => Ok(after)
      case Err(e) => Err(if WrapDBError(e) == Conflict then SlotIsUsed else CreateFailed(WrapDBError(e)))
  }

  /** The cancel transaction: the tables after it, and whether the booking was cancelled already. */
  function CancelTx(db: Db, id: Id, user: Id): Result<(Db, bool), CancelError> {
    if id !in db.bookings then Err(BookingNotFound)
    else if db.bookings[id].user != user then Err(Forbidden)
    else if db.bookings[id].status.Cancelled? then Ok((db, true))
    else if db.bookings[id].slot !in db.slots then Err(CancelFailed(NotFound))
    else Ok((CancelBooking(db, id), false))
  }

  class Service {
    const db: Database
    const availability: Availability.Service

    constructor (db: Database, availability: Availability.Service)
      ensures this.db == db && this.availability == availability
    {
      this.db, this.availability := db, availability;
    }

    /** `id` is the id the database would generate, `now` the transaction's time. */
    method Create(user: Id, slot: Id, id: Id, now: Time) returns (r: Result<BookingRow, CreateError>)
      modifies db, availability.cache
      ensures match CreateTx(old(db.State()), user, slot, id, now)
        case Ok(after) =>
          && r == Ok(BookingRow(id, Booking(user, slot, Active, now))) && db.State() == after
          && availability.cache.entries == old(availability.cache.entries) - {SlotKey(old(db.slots)[slot])}
        case Err(e) =>
          r == Err(e) && db.State() == old(db.State()) && availability.cache.entries == old(availability.cache.entries)
    {
      var found := db.GetSlotByID(slot);
      if found.Err? {
        return Err(SlotNotExisting);
      }
      var created := db.CreateBooking(id, user, slot, now);
      if created.Err? {
        return Err(if created.error == Conflict then SlotIsUsed else CreateFailed(created.error));
      }
      availability.InvalidateSlotsCache(found.value.lane, SafeTruncate(found.value.start));
      r := Ok(BookingRow(id, Booking(user, slot, Active, now)));
    }

    method Cancel(id: Id, user: Id) returns (r: Result<BookingRow, CancelError>)
      modifies db, availability.cache
      ensures match CancelTx(old(db.State()), id, user)
        case Ok((after, already)) =>
          && r == Ok(BookingRow(id, old(db.bookings)[id].(status := Cancelled))) && db.State() == after
          && availability.cache.entries == if already then old(availability.cache.entries)
                else old(availability.cache.entries) - {SlotKey(old(db.slots)[old(db.bookings)[id].slot])}
        case Err(e) =>
          r == Err(e) && db.State() == old(db.State()) && availability.cache.entries == old(availability.cache.entries)
    {
      var booking := db.GetBooking(id);
      if booking.Err? {
        return Err(BookingNotFound);
      }
      if booking.value.user != user {
        return Err(Forbidden);
      }
      if booking.value.status.Cancelled? {
        return Ok(BookingRow(id, booking.value));
      }
      var slot := db.GetSlotByID(booking.value.slot);
      if slot.Err? {
        return Err(CancelFailed(slot.error));
      }
      db.Cancel(id);
      availability.InvalidateSlotsCache(slot.value.lane, SafeTruncate(slot.value.start));
      r := Ok(BookingRow(id, booking.value.(status := Cancelled)));
    }
  }

  /** `PostBookingsCreate`'s status code. */
  function CreateStatus<T>(r: Result<T, CreateError>): int {
    match r
    case Ok(_) => 201
    case Err(SlotNotExisting) => 404
    case Err(SlotIsUsed) => 409
    case Err(CreateFailed(_)) => 500
  }

  /** `PostBookingsBookingIdCancel`'s status code. */
  function CancelStatus<T>(r: Result<T, CancelError>): int {
    match r
    case Ok(_) => 200
    case Err(BookingNotFound) => 404
    case Err(Forbidden) => 403
    case Err(CancelFailed(_)) => 500
  }

  /**
   Without infrastructure failures: 404 exactly when the slot is absent, 409 exactly when it has an active
   booking, 500 for a free slot exactly when the user is absent, 201 otherwise, and then exactly one row,
   active and for this user and slot, has been added. The start of the slot plays no part: past slots are
   bookable.
   */
  lemma CreateOutcomeExact(db: Db, user: Id, slot: Id, id: Id, now: Time)
    requires Consistent(db) && id !in db.bookings
    ensures var r := CreateTx(db, user, slot, id, now);
      && (CreateStatus(r) == 404 <==> slot !in db.slots)
      && (CreateStatus(r) == 409 <==> exists b :: b in db.bookings && db.bookings[b].slot == slot && db.bookings[b].status.Active?)
      && (CreateStatus(r) == 500 <==> slot in db.slots && !Taken(db.bookings, slot) && user !in db.users)
      && (CreateStatus(r) == 201 <==> slot in db.slots && !Taken(db.bookings, slot) && user in db.users)
      && (r.Ok? ==> r.value == db.(bookings := db.bookings[id := Booking(user, slot, Active, now)]) && Consistent(r.value))
  {
    BookingStatementsKeepConstraints(db, id, user, slot, now);
  }

  /**
   Cancelling is refused exactly for an absent booking (404) or another user's (403); otherwise the
   booking ends up cancelled, no other row changes, and a second cancel changes nothing.
   */
  lemma CancelOutcomeExact(db: Db, id: Id, user: Id)
    requires Consistent(db)
    ensures var r := CancelTx(db, id, user);
      && (CancelStatus(r) == 404 <==> id !in db.bookings)
      && (CancelStatus(r) == 403 <==> id in db.bookings && db.bookings[id].user != user)
      && (CancelStatus(r) == 200 <==> id in db.bookings && db.bookings[id].user == user)
      && (r.Ok? ==> Consistent(r.value.0) && CancelTx(r.value.0, id, user) == Ok((r.value.0, true)))
      && (r.Ok? ==> r.value.0 == db.(bookings := db.bookings[id := db.bookings[id].(status := Cancelled)]))
  {
    BookingStatementsKeepConstraints(db, id, user, 0, 0);
    if id in db.bookings && db.bookings[id].status.Cancelled? {
      assert db.bookings[id := db.bookings[id].(status := Cancelled)] == db.bookings;
    }
  }

  /** After a cancel the slot can be booked again at once, by anyone, under a new id. */
  lemma CancelThenRebook(db: Db, id: Id, user: Id, other: Id, newId: Id, now: Time)
    requires Consistent(db) && id in db.bookings && db.bookings[id].user == user && db.bookings[id].status.Active?
    requires other in db.users && newId !in db.bookings
    ensures var cancelled := CancelTx(db, id, user).value.0;
      var again := CreateTx(cancelled, other, db.bookings[id].slot, newId, now);
      CreateStatus(again) == 201 && CancelTx(again.value, id, user) == Ok((again.value, true))
  {
    CancelOutcomeExact(db, id, user);
    var cancelled := CancelTx(db, id, user).value.0;
    assert !Taken(cancelled.bookings, db.bookings[id].slot);
    CreateOutcomeExact(cancelled, other, db.bookings[id].slot, newId, now);
  }
}
