/**
 A call that nobody interrupts does to the tables and to the cache what its service method does:
 there is such a sequence of steps, and every such sequence ends there. So the interleavings of the
 state machine are interleavings of those methods.
 */
module Solo {
  import opened Prelude
  import opened Calendar
  import opened Models
  import opened Tables
  import opened Scheduling
  import opened Cache
  import opened Engine
  import opened Execution
  import opened Generation
  import Availability
  import BookingService
  import Coherence
  import Grid

  /** A step of client `c` in which no infrastructure fails. */
  predicate Smooth(e: Event, c: Id) {
    e.Go? && e.client == c && e.choice.reached
  }

  /** `events` are smooth steps of client `c` alone, from inside a call in `s` to the first state, `t`, in which it is done. */
  predicate Completes(cfg: Config, s: State, c: Id, events: seq<Event>, t: State)
    requires cfg.duration > 0
    decreases |events|, 0
  {
    && events != [] && Smooth(events[0], c)
    && match Next(cfg, s, events[0])
       case None => false
       case Some(u) => Arrives(cfg, u, c, events[1..], t)
  }

  predicate Arrives(cfg: Config, s: State, c: Id, events: seq<Event>, t: State)
    requires cfg.duration > 0
    decreases |events|, 1
  {
    c in s.sessions && if s.sessions[c].pc.Idle? then events == [] && t == s else Completes(cfg, s, c, events, t)
  }

  /** Client `c` makes the call and nobody else acts until it is answered. */
  predicate Calls(cfg: Config, s: State, c: Id, request: Request, events: seq<Event>, t: State)
    requires cfg.duration > 0
  {
    && events != [] && events[0] == Call(c, request)
    && match Next(cfg, s, events[0])
       case None => false
       case Some(u) => Arrives(cfg, u, c, events[1..], t)
  }

  // ---- Putting steps together and taking them apart ----

  lemma Last(cfg: Config, s: State, c: Id, e: Event, t: State) returns (events: seq<Event>)
    requires cfg.duration > 0 && Smooth(e, c) && Next(cfg, s, e) == Some(t) && c in t.sessions && t.sessions[c].pc.Idle?
    ensures Completes(cfg, s, c, events, t)
  {
    events := [e];
    assert events[1..] == [];
  }

  lemma First(cfg: Config, s: State, c: Id, e: Event, u: State, rest: seq<Event>, t: State) returns (events: seq<Event>)
    requires cfg.duration > 0 && Smooth(e, c) && Next(cfg, s, e) == Some(u) && c in u.sessions && !u.sessions[c].pc.Idle?
    requires Completes(cfg, u, c, rest, t)
    ensures Completes(cfg, s, c, events, t)
  {
    events := [e] + rest;
    assert events[1..] == rest;
  }

  lemma Open(cfg: Config, s: State, c: Id, request: Request, p: Pc, rest: seq<Event>, t: State) returns (events: seq<Event>)
    requires cfg.duration > 0 && c in s.sessions && s.sessions[c].pc.Idle? && !p.Idle?
    requires Begin(cfg, s, c, request) == Enter(s, c, p) && Completes(cfg, Enter(s, c, p), c, rest, t)
    ensures Calls(cfg, s, c, request, events, t)
  {
    events := [Call(c, request)] + rest;
    assert events[1..] == rest;
  }

  /** After a step that ends the call nothing is left. */
  lemma EndsWith(cfg: Config, s: State, c: Id, events: seq<Event>, t: State, u: State)
    requires cfg.duration > 0 && Completes(cfg, s, c, events, t) && Next(cfg, s, events[0]) == Some(u)
    requires c in u.sessions && u.sessions[c].pc.Idle?
    ensures t == u
  {
  }

  lemma GoesOn(cfg: Config, s: State, c: Id, events: seq<Event>, t: State, u: State)
    requires cfg.duration > 0 && Completes(cfg, s, c, events, t) && Next(cfg, s, events[0]) == Some(u)
    requires c in u.sessions && !u.sessions[c].pc.Idle?
    ensures Completes(cfg, u, c, events[1..], t)
  {
  }

  lemma Opened(cfg: Config, s: State, c: Id, request: Request, p: Pc, events: seq<Event>, t: State)
    requires cfg.duration > 0 && c in s.sessions && !p.Idle? && Begin(cfg, s, c, request) == Enter(s, c, p)
    requires Calls(cfg, s, c, request, events, t)
    ensures s.sessions[c].pc.Idle? && Completes(cfg, Enter(s, c, p), c, events[1..], t)
  {
  }

  /** What a sequence of smooth steps, and what a call, executes. */
  lemma {:induction false} CompletesExec(cfg: Config, s: State, c: Id, events: seq<Event>, t: State)
    requires cfg.duration > 0 && Completes(cfg, s, c, events, t)
    ensures Exec(cfg, s, events) == Some(t) && forall e :: e in events ==> Smooth(e, c)
    decreases |events|
  {
    var u := Next(cfg, s, events[0]).value;
    if !u.sessions[c].pc.Idle? {
      CompletesExec(cfg, u, c, events[1..], t);
    }
    assert events == [events[0]] + events[1..];
  }

  lemma CallsExec(cfg: Config, s: State, c: Id, request: Request, events: seq<Event>, t: State)
    requires cfg.duration > 0 && Calls(cfg, s, c, request, events, t)
    ensures Exec(cfg, s, events) == Some(t) && events[0] == Call(c, request) && forall e :: e in events[1..] ==> Smooth(e, c)
  {
    var u := Next(cfg, s, events[0]).value;
    if !u.sessions[c].pc.Idle? {
      CompletesExec(cfg, u, c, events[1..], t);
    }
  }

  // ---- Create ----

  /** What the create call leaves behind. */
  function AfterCreate(s: State, c: Id, user: Id, slot: Id, id: Id): (t: State)
    requires c in s.sessions
    ensures c in t.sessions && t.sessions[c].pc.Idle?
  {
    match BookingService.CreateTx(s.db, user, slot, id, s.now)
    case Ok(after) =>
      Reply(s.(db := after, cache := if slot in s.db.slots then s.cache - {SlotKey(s.db.slots[slot])} else s.cache), c, BookingMade(id))
    case Err(SlotNotExisting) => Reply(s, c, SlotMissing)
    case Err(SlotIsUsed) => Reply(s, c, SlotTaken)
    case Err(CreateFailed(_)) => Reply(s, c, Failed)
  }

  /** Nobody is inside a booking transaction that holds a lock. */
  predicate Unlocked(s: State) {
    forall d :: d in s.sessions ==> !s.sessions[d].pc.CreateCommit? && !s.sessions[d].pc.CancelCommit?
  }

  lemma CreateAlone(cfg: Config, s: State, c: Id, user: Id, slot: Id, id: Id) returns (events: seq<Event>)
    requires cfg.cached && cfg.duration > 0 && Unlocked(s) && c in s.sessions && s.sessions[c].pc.Idle? && id !in s.db.bookings
    ensures Calls(cfg, s, c, CreateBooking(user, slot), events, AfterCreate(s, c, user, slot, id))
  {
    var p := CreateGet(user, slot);
    MoveOn(s, c, p);
    if slot !in s.db.slots {
      events := Last(cfg, Enter(s, c, p), c, Step(c), Reply(s, c, SlotMissing));
    } else {
      events := InsertAlone(cfg, s, c, user, slot, id);
      events := First(cfg, Enter(s, c, p), c, Step(c), Enter(s, c, CreateInsert(user, slot, s.db.slots[slot], s.now)), events,
                      AfterCreate(s, c, user, slot, id));
    }
    events := Open(cfg, s, c, CreateBooking(user, slot), p, events, AfterCreate(s, c, user, slot, id));
  }

  lemma InsertAlone(cfg: Config, s: State, c: Id, user: Id, slot: Id, id: Id) returns (events: seq<Event>)
    requires cfg.cached && cfg.duration > 0 && Unlocked(s) && c in s.sessions && id !in s.db.bookings && slot in s.db.slots
    ensures Completes(cfg, Enter(s, c, CreateInsert(user, slot, s.db.slots[slot], s.now)), c, events, AfterCreate(s, c, user, slot, id))
  {
    var p := CreateInsert(user, slot, s.db.slots[slot], s.now);
    var s2 := Enter(s, c, p);
    MoveOn(s, c, p);
    assert !SlotHeld(s2, c, slot) && !BookingIdHeld(s2, id);
    match InsertBooking(s.db, id, user, slot, s.now) {
      case Err(_) =>
        events := Last(cfg, s2, c, Go(c, Choice([id], true)), AfterCreate(s, c, user, slot, id));
      case Ok(_) =>
        events := CommitAlone(cfg, s, c, user, slot, id);
        events := First(cfg, s2, c, Go(c, Choice([id], true)), Enter(s, c, CreateCommit(user, slot, s.db.slots[slot], id, s.now)), events,
                        AfterCreate(s, c, user, slot, id));
    }
  }

  /** The state between the commit and the invalidation. */
  function CreateCommitted(s: State, c: Id, user: Id, slot: Id, id: Id): State
    requires c in s.sessions && slot in s.db.slots && InsertBooking(s.db, id, user, slot, s.now).Ok?
  {
    Enter(s.(db := InsertBooking(s.db, id, user, slot, s.now).value), c, CreateInvalidate(SlotKey(s.db.slots[slot]), id))
  }

  lemma CreateCommitSteps(cfg: Config, s: State, c: Id, user: Id, slot: Id, id: Id, e: Event)
    requires cfg.cached && cfg.duration > 0 && c in s.sessions && slot in s.db.slots && InsertBooking(s.db, id, user, slot, s.now).Ok?
    requires Smooth(e, c)
    ensures Next(cfg, Enter(s, c, CreateCommit(user, slot, s.db.slots[slot], id, s.now)), e) == Some(CreateCommitted(s, c, user, slot, id))
    ensures Next(cfg, CreateCommitted(s, c, user, slot, id), e) == Some(AfterCreate(s, c, user, slot, id))
  {
    var key := SlotKey(s.db.slots[slot]);
    var done := s.(db := InsertBooking(s.db, id, user, slot, s.now).value);
    MoveOn(done, c, CreateCommit(user, slot, s.db.slots[slot], id, s.now));
    MoveOn(done.(cache := s.cache - {key}), c, CreateInvalidate(key, id));
  }

  lemma CommitAlone(cfg: Config, s: State, c: Id, user: Id, slot: Id, id: Id) returns (events: seq<Event>)
    requires cfg.cached && cfg.duration > 0 && c in s.sessions && slot in s.db.slots && InsertBooking(s.db, id, user, slot, s.now).Ok?
    ensures Completes(cfg, Enter(s, c, CreateCommit(user, slot, s.db.slots[slot], id, s.now)), c, events, AfterCreate(s, c, user, slot, id))
  {
    var p, t := CreateCommit(user, slot, s.db.slots[slot], id, s.now), AfterCreate(s, c, user, slot, id);
    CreateCommitSteps(cfg, s, c, user, slot, id, Step(c));
    events := Last(cfg, CreateCommitted(s, c, user, slot, id), c, Step(c), t);
    events := First(cfg, Enter(s, c, p), c, Step(c), CreateCommitted(s, c, user, slot, id), events, t);
  }

  /** However a create call runs on its own, it ends where the service method does, with the id it was given. */
  lemma CreateSettles(cfg: Config, s: State, c: Id, user: Id, slot: Id, events: seq<Event>, t: State) returns (id: Id)
    requires cfg.cached && cfg.duration > 0 && c in s.sessions && Calls(cfg, s, c, CreateBooking(user, slot), events, t)
    ensures t == AfterCreate(s, c, user, slot, id) && (slot in s.db.slots ==> id !in s.db.bookings)
  {
    var p := CreateGet(user, slot);
    Opened(cfg, s, c, CreateBooking(user, slot), p, events, t);
    MoveOn(s, c, p);
    if slot !in s.db.slots {
      EndsWith(cfg, Enter(s, c, p), c, events[1..], t, Reply(s, c, SlotMissing));
      id := 0;
    } else {
      GoesOn(cfg, Enter(s, c, p), c, events[1..], t, Enter(s, c, CreateInsert(user, slot, s.db.slots[slot], s.now)));
      id := InsertSettles(cfg, s, c, user, slot, events[1..][1..], t);
    }
  }

  lemma InsertSettles(cfg: Config, s: State, c: Id, user: Id, slot: Id, events: seq<Event>, t: State) returns (id: Id)
    requires cfg.cached && cfg.duration > 0 && c in s.sessions && slot in s.db.slots
    requires Completes(cfg, Enter(s, c, CreateInsert(user, slot, s.db.slots[slot], s.now)), c, events, t)
    ensures t == AfterCreate(s, c, user, slot, id) && id !in s.db.bookings
  {
    var p := CreateInsert(user, slot, s.db.slots[slot], s.now);
    MoveOn(s, c, p);
    assert Next(cfg, Enter(s, c, p), events[0]).Some?;
    id := events[0].choice.ids[0];
    match InsertBooking(s.db, id, user, slot, s.now)
    case Err(_) =>
      EndsWith(cfg, Enter(s, c, p), c, events, t, AfterCreate(s, c, user, slot, id));
    case Ok(_) =>
      GoesOn(cfg, Enter(s, c, p), c, events, t, Enter(s, c, CreateCommit(user, slot, s.db.slots[slot], id, s.now)));
      CommitSettles(cfg, s, c, user, slot, id, events[1..], t);
  }

  lemma CommitSettles(cfg: Config, s: State, c: Id, user: Id, slot: Id, id: Id, events: seq<Event>, t: State)
    requires cfg.cached && cfg.duration > 0 && c in s.sessions && slot in s.db.slots && InsertBooking(s.db, id, user, slot, s.now).Ok?
    requires Completes(cfg, Enter(s, c, CreateCommit(user, slot, s.db.slots[slot], id, s.now)), c, events, t)
    ensures t == AfterCreate(s, c, user, slot, id)
  {
    CreateCommitSteps(cfg, s, c, user, slot, id, events[0]);
    GoesOn(cfg, Enter(s, c, CreateCommit(user, slot, s.db.slots[slot], id, s.now)), c, events, t, CreateCommitted(s, c, user, slot, id));
    CreateCommitSteps(cfg, s, c, user, slot, id, events[1..][0]);
    EndsWith(cfg, CreateCommitted(s, c, user, slot, id), c, events[1..], t, AfterCreate(s, c, user, slot, id));
  }

  // ---- Cancel ----

  /** What the cancel call leaves behind. */
  function AfterCancel(s: State, c: Id, user: Id, booking: Id): (t: State)
    requires c in s.sessions
    ensures c in t.sessions && t.sessions[c].pc.Idle?
  {
    match BookingService.CancelTx(s.db, booking, user)
    case Ok((after, already)) =>
      var dropped := if !already && booking in s.db.bookings && s.db.bookings[booking].slot in s.db.slots
        then {SlotKey(s.db.slots[s.db.bookings[booking].slot])} else {};
      Reply(s.(db := after, cache := s.cache - dropped), c, BookingCancelled(booking))
    case Err(BookingNotFound) => Reply(s, c, BookingMissing)
    case Err(Forbidden) => Reply(s, c, NotOwner)
    case Err(CancelFailed(_)) => Reply(s, c, Failed)
  }

  /** Whether the call ends with the booking read, and with the slot read. */
  predicate CancelEndsAtOnce(db: Db, user: Id, booking: Id) {
    booking !in db.bookings || db.bookings[booking].user != user || db.bookings[booking].status.Cancelled?
  }

  predicate CancelReachesUpdate(db: Db, user: Id, booking: Id) {
    !CancelEndsAtOnce(db, user, booking) && db.bookings[booking].slot in db.slots
  }

  lemma CancelFirstSteps(cfg: Config, s: State, c: Id, user: Id, booking: Id, e: Event)
    requires cfg.cached && cfg.duration > 0 && c in s.sessions && Smooth(e, c)
    ensures CancelEndsAtOnce(s.db, user, booking) ==>
      Next(cfg, Enter(s, c, CancelGet(user, booking)), e) == Some(AfterCancel(s, c, user, booking))
    ensures !CancelEndsAtOnce(s.db, user, booking) ==>
      Next(cfg, Enter(s, c, CancelGet(user, booking)), e) == Some(Enter(s, c, CancelSlot(user, booking, s.db.bookings[booking].slot)))
  {
    MoveOn(s, c, CancelGet(user, booking));
    assert s.cache - {} == s.cache;
  }

  lemma CancelSlotSteps(cfg: Config, s: State, c: Id, user: Id, booking: Id, e: Event)
    requires cfg.cached && cfg.duration > 0 && c in s.sessions && Smooth(e, c) && !CancelEndsAtOnce(s.db, user, booking)
    ensures var p := CancelSlot(user, booking, s.db.bookings[booking].slot);
      if CancelReachesUpdate(s.db, user, booking)
      then Next(cfg, Enter(s, c, p), e) == Some(Enter(s, c, CancelUpdate(user, booking, s.db.slots[s.db.bookings[booking].slot])))
      else Next(cfg, Enter(s, c, p), e) == Some(AfterCancel(s, c, user, booking))
  {
    MoveOn(s, c, CancelSlot(user, booking, s.db.bookings[booking].slot));
  }

  function CancelCommitted(s: State, c: Id, user: Id, booking: Id): State
    requires c in s.sessions && CancelReachesUpdate(s.db, user, booking)
  {
    Enter(s.(db := CancelBooking(s.db, booking)), c, CancelInvalidate(SlotKey(s.db.slots[s.db.bookings[booking].slot]), booking))
  }

  lemma CancelLastSteps(cfg: Config, s: State, c: Id, user: Id, booking: Id, e: Event)
    requires cfg.cached && cfg.duration > 0 && c in s.sessions && Smooth(e, c) && CancelReachesUpdate(s.db, user, booking)
    ensures var row := s.db.slots[s.db.bookings[booking].slot];
      && (var u := Next(cfg, Enter(s, c, CancelUpdate(user, booking, row)), e);
          u.Some? ==> u == Some(Enter(s, c, CancelCommit(user, booking, row))))
      && Next(cfg, Enter(s, c, CancelCommit(user, booking, row)), e) == Some(CancelCommitted(s, c, user, booking))
      && Next(cfg, CancelCommitted(s, c, user, booking), e) == Some(AfterCancel(s, c, user, booking))
  {
    var row := s.db.slots[s.db.bookings[booking].slot];
    var done := s.(db := CancelBooking(s.db, booking));
    MoveOn(s, c, CancelUpdate(user, booking, row));
    MoveOn(done, c, CancelCommit(user, booking, row));
    MoveOn(done.(cache := s.cache - {SlotKey(row)}), c, CancelInvalidate(SlotKey(row), booking));
  }

  lemma CancelAlone(cfg: Config, s: State, c: Id, user: Id, booking: Id) returns (events: seq<Event>)
    requires cfg.cached && cfg.duration > 0 && Unlocked(s) && c in s.sessions && s.sessions[c].pc.Idle?
    ensures Calls(cfg, s, c, CancelBookingOf(user, booking), events, AfterCancel(s, c, user, booking))
  {
    var p, t := CancelGet(user, booking), AfterCancel(s, c, user, booking);
    CancelFirstSteps(cfg, s, c, user, booking, Step(c));
    if CancelEndsAtOnce(s.db, user, booking) {
      events := Last(cfg, Enter(s, c, p), c, Step(c), t);
    } else {
      var p2 := CancelSlot(user, booking, s.db.bookings[booking].slot);
      CancelSlotSteps(cfg, s, c, user, booking, Step(c));
      if CancelReachesUpdate(s.db, user, booking) {
        events := UpdateAlone(cfg, s, c, user, booking);
        events := First(cfg, Enter(s, c, p2), c, Step(c), Enter(s, c, CancelUpdate(user, booking, s.db.slots[s.db.bookings[booking].slot])), events, t);
      } else {
        events := Last(cfg, Enter(s, c, p2), c, Step(c), t);
      }
      events := First(cfg, Enter(s, c, p), c, Step(c), Enter(s, c, p2), events, t);
    }
    events := Open(cfg, s, c, CancelBookingOf(user, booking), p, events, t);
  }

  lemma UpdateAlone(cfg: Config, s: State, c: Id, user: Id, booking: Id) returns (events: seq<Event>)
    requires cfg.cached && cfg.duration > 0 && Unlocked(s) && c in s.sessions && CancelReachesUpdate(s.db, user, booking)
    ensures Completes(cfg, Enter(s, c, CancelUpdate(user, booking, s.db.slots[s.db.bookings[booking].slot])), c, events,
                      AfterCancel(s, c, user, booking))
  {
    var row, t := s.db.slots[s.db.bookings[booking].slot], AfterCancel(s, c, user, booking);
    var p, p2 := CancelUpdate(user, booking, row), CancelCommit(user, booking, row);
    assert !RowHeld(Enter(s, c, p), c, booking);
    CancelLastSteps(cfg, s, c, user, booking, Step(c));
    events := Last(cfg, CancelCommitted(s, c, user, booking), c, Step(c), t);
    events := First(cfg, Enter(s, c, p2), c, Step(c), CancelCommitted(s, c, user, booking), events, t);
    events := First(cfg, Enter(s, c, p), c, Step(c), Enter(s, c, p2), events, t);
  }

  /** However a cancel call runs on its own, it ends where the service method does. */
  lemma CancelSettles(cfg: Config, s: State, c: Id, user: Id, booking: Id, events: seq<Event>, t: State)
    requires cfg.cached && cfg.duration > 0 && c in s.sessions && Calls(cfg, s, c, CancelBookingOf(user, booking), events, t)
    ensures t == AfterCancel(s, c, user, booking)
  {
    var p, steps := CancelGet(user, booking), events[1..];
    Opened(cfg, s, c, CancelBookingOf(user, booking), p, events, t);
    CancelFirstSteps(cfg, s, c, user, booking, steps[0]);
    if CancelEndsAtOnce(s.db, user, booking) {
      EndsWith(cfg, Enter(s, c, p), c, steps, t, AfterCancel(s, c, user, booking));
    } else {
      var p2 := CancelSlot(user, booking, s.db.bookings[booking].slot);
      GoesOn(cfg, Enter(s, c, p), c, steps, t, Enter(s, c, p2));
      CancelSlotSteps(cfg, s, c, user, booking, steps[1..][0]);
      if CancelReachesUpdate(s.db, user, booking) {
        GoesOn(cfg, Enter(s, c, p2), c, steps[1..], t, Enter(s, c, CancelUpdate(user, booking, s.db.slots[s.db.bookings[booking].slot])));
        UpdateSettles(cfg, s, c, user, booking, steps[1..][1..], t);
      } else {
        EndsWith(cfg, Enter(s, c, p2), c, steps[1..], t, AfterCancel(s, c, user, booking));
      }
    }
  }

  lemma UpdateSettles(cfg: Config, s: State, c: Id, user: Id, booking: Id, events: seq<Event>, t: State)
    requires cfg.cached && cfg.duration > 0 && c in s.sessions && CancelReachesUpdate(s.db, user, booking)
    requires Completes(cfg, Enter(s, c, CancelUpdate(user, booking, s.db.slots[s.db.bookings[booking].slot])), c, events, t)
    ensures t == AfterCancel(s, c, user, booking)
  {
    var row := s.db.slots[s.db.bookings[booking].slot];
    var p, p2 := CancelUpdate(user, booking, row), CancelCommit(user, booking, row);
    CancelLastSteps(cfg, s, c, user, booking, events[0]);
    GoesOn(cfg, Enter(s, c, p), c, events, t, Enter(s, c, p2));
    CancelLastSteps(cfg, s, c, user, booking, events[1..][0]);
    GoesOn(cfg, Enter(s, c, p2), c, events[1..], t, CancelCommitted(s, c, user, booking));
    CancelLastSteps(cfg, s, c, user, booking, events[1..][1..][0]);
    EndsWith(cfg, CancelCommitted(s, c, user, booking), c, events[1..][1..], t, AfterCancel(s, c, user, booking));
  }

  // ---- Read ----

  /** What the availability call leaves behind. */
  function AfterRead(cfg: Config, s: State, c: Id, key: Key): (t: State)
    requires c in s.sessions
    ensures c in t.sessions && t.sessions[c].pc.Idle?
  {
    var (r, cache) := Availability.ReadThrough(s.db, s.cache, key.lane, Midnight(key.day), s.now, cfg.ttl);
    Reply(s.(cache := cache), c, if r.Ok? then Listing(r.value, Lookup(s.cache, key, s.now).Some?) else ListingNoLane)
  }

  /** The positions of a read that misses. */
  function Carrying(s: State, c: Id, key: Key): State
    requires c in s.sessions
  {
    Enter(s, c, ReadFill(key, Available(s.db, key.lane, key.day)))
  }

  lemma ReadFirstSteps(cfg: Config, s: State, c: Id, key: Key, e: Event)
    requires cfg.cached && cfg.duration > 0 && c in s.sessions && Smooth(e, c)
    ensures var hit, u := Lookup(s.cache, key, s.now).Some?, Next(cfg, Enter(s, c, ReadCache(key)), e);
      u == Some(if hit then AfterRead(cfg, s, c, key) else Enter(s, c, ReadLane(key)))
    ensures var u := Next(cfg, Enter(s, c, ReadLane(key)), e);
      if key.lane in s.db.lanes then u == Some(Enter(s, c, ReadQuery(key)))
      else Lookup(s.cache, key, s.now).None? ==> u == Some(AfterRead(cfg, s, c, key))
  {
    assert DayOf(Midnight(key.day)) == key.day;
    MoveOn(s, c, ReadCache(key));
    MoveOn(s, c, ReadLane(key));
  }

  lemma ReadLastSteps(cfg: Config, s: State, c: Id, key: Key, e: Event)
    requires cfg.cached && cfg.duration > 0 && c in s.sessions && Smooth(e, c)
    ensures Next(cfg, Enter(s, c, ReadQuery(key)), e) == Some(Carrying(s, c, key))
    ensures Lookup(s.cache, key, s.now).None? && key.lane in s.db.lanes ==>
      Next(cfg, Carrying(s, c, key), e) == Some(AfterRead(cfg, s, c, key))
  {
    var rows := Available(s.db, key.lane, key.day);
    assert DayOf(Midnight(key.day)) == key.day;
    MoveOn(s, c, ReadQuery(key));
    MoveOn(s.(cache := s.cache[key := Entry(rows, s.now + cfg.ttl)]), c, ReadFill(key, rows));
  }

  lemma ReadAlone(cfg: Config, s: State, c: Id, key: Key) returns (events: seq<Event>)
    requires cfg.cached && cfg.duration > 0 && c in s.sessions && s.sessions[c].pc.Idle?
    ensures Calls(cfg, s, c, ListSlots(key), events, AfterRead(cfg, s, c, key))
  {
    var t := AfterRead(cfg, s, c, key);
    ReadFirstSteps(cfg, s, c, key, Step(c));
    if Lookup(s.cache, key, s.now).Some? {
      events := Last(cfg, Enter(s, c, ReadCache(key)), c, Step(c), t);
    } else {
      if key.lane !in s.db.lanes {
        events := Last(cfg, Enter(s, c, ReadLane(key)), c, Step(c), t);
      } else {
        ReadLastSteps(cfg, s, c, key, Step(c));
        events := Last(cfg, Carrying(s, c, key), c, Step(c), t);
        events := First(cfg, Enter(s, c, ReadQuery(key)), c, Step(c), Carrying(s, c, key), events, t);
        events := First(cfg, Enter(s, c, ReadLane(key)), c, Step(c), Enter(s, c, ReadQuery(key)), events, t);
      }
      events := First(cfg, Enter(s, c, ReadCache(key)), c, Step(c), Enter(s, c, ReadLane(key)), events, t);
    }
    events := Open(cfg, s, c, ListSlots(key), ReadCache(key), events, t);
  }

  /** However an availability call runs on its own, it ends where the service method does. */
  lemma ReadSettles(cfg: Config, s: State, c: Id, key: Key, events: seq<Event>, t: State)
    requires cfg.cached && cfg.duration > 0 && c in s.sessions && Calls(cfg, s, c, ListSlots(key), events, t)
    ensures t == AfterRead(cfg, s, c, key)
  {
    var steps := events[1..];
    Opened(cfg, s, c, ListSlots(key), ReadCache(key), events, t);
    ReadFirstSteps(cfg, s, c, key, steps[0]);
    if Lookup(s.cache, key, s.now).Some? {
      EndsWith(cfg, Enter(s, c, ReadCache(key)), c, steps, t, AfterRead(cfg, s, c, key));
    } else {
      GoesOn(cfg, Enter(s, c, ReadCache(key)), c, steps, t, Enter(s, c, ReadLane(key)));
      MissSettles(cfg, s, c, key, steps[1..], t);
    }
  }

  lemma MissSettles(cfg: Config, s: State, c: Id, key: Key, events: seq<Event>, t: State)
    requires cfg.cached && cfg.duration > 0 && c in s.sessions && Lookup(s.cache, key, s.now).None?
    requires Completes(cfg, Enter(s, c, ReadLane(key)), c, events, t)
    ensures t == AfterRead(cfg, s, c, key)
  {
    ReadFirstSteps(cfg, s, c, key, events[0]);
    if key.lane !in s.db.lanes {
      EndsWith(cfg, Enter(s, c, ReadLane(key)), c, events, t, AfterRead(cfg, s, c, key));
    } else {
      GoesOn(cfg, Enter(s, c, ReadLane(key)), c, events, t, Enter(s, c, ReadQuery(key)));
      ReadLastSteps(cfg, s, c, key, events[1..][0]);
      GoesOn(cfg, Enter(s, c, ReadQuery(key)), c, events[1..], t, Carrying(s, c, key));
      ReadLastSteps(cfg, s, c, key, events[1..][1..][0]);
      EndsWith(cfg, Carrying(s, c, key), c, events[1..][1..], t, AfterRead(cfg, s, c, key));
    }
  }

  // ---- CreateSchedule ----

  /** A fresh run of ids. */
  function Ids(first: Id, n: nat): (ids: seq<Id>)
    ensures |ids| == n && forall i :: 0 <= i < n ==> ids[i] == first + i
  {
    seq(n, i requires 0 <= i < n => first + i)
  }

  lemma IdsNumber(first: Id, slots: seq<Slot>, table: map<Id, Slot>)
    requires FreshFrom(table, first)
    ensures WithIds(Ids(first, |slots|), slots) == Numbered(first, slots) && FreshIds(Ids(first, |slots|), table)
  {
  }

  /** The same tables but for the ids of slots. */
  ghost predicate SameButIds(a: Db, b: Db) {
    a == b.(slots := a.slots) && forall l :: LaneSlots(a.slots, l) == LaneSlots(b.slots, l)
  }

  /** The slots a lane gains from a batch, whatever the ids. */
  lemma BatchLanes(db: Db, batch: seq<NewSlot>, slots: seq<Slot>)
    requires Fits(db, batch) && |batch| == |slots| && forall i :: 0 <= i < |batch| ==> batch[i].slot == slots[i]
    ensures forall l :: LaneSlots(db.slots + BatchRows(batch), l) == LaneSlots(db.slots, l) + (set s | s in slots && s.lane == l)
  {
    BatchRowsApart(db, batch);
    forall l ensures LaneSlots(db.slots + BatchRows(batch), l) == LaneSlots(db.slots, l) + (set s | s in slots && s.lane == l) {
      LaneSlotsUnion(db.slots, BatchRows(batch), l);
      RowsOfLane(batch, slots, l);
    }
  }

  lemma {:induction false} RowsOfLane(batch: seq<NewSlot>, slots: seq<Slot>, l: Id)
    requires |batch| == |slots| && forall i :: 0 <= i < |batch| ==> batch[i].slot == slots[i]
    requires forall i, j :: 0 <= i < j < |batch| ==> batch[i].id != batch[j].id
    ensures LaneSlots(BatchRows(batch), l) == set s | s in slots && s.lane == l
  {
    var rows := BatchRows(batch);
    BatchRowsAt(batch);
    forall s | s in LaneSlots(rows, l) ensures s in slots && s.lane == l {
      var id :| id in rows && rows[id].lane == l && rows[id] == s;
      var k :| 0 <= k < |batch| && batch[k].id == id;
      assert slots[k] in slots;
    }
    forall s | s in slots && s.lane == l ensures s in LaneSlots(rows, l) {
      var k :| 0 <= k < |slots| && slots[k] == s;
      assert rows[batch[k].id] == s;
    }
  }

  /** What the schedule call leaves behind. */
  function AfterSchedule(cfg: Config, s: State, c: Id, req: ScheduleRequest, first: Id): (t: State)
    requires c in s.sessions && cfg.duration > 0
    ensures c in t.sessions && t.sessions[c].pc.Idle?
  {
    match Scheduling.CreateSchedule(s.db, req, s.now, first, cfg.window, cfg.duration)
    case Ok(after) => Reply(s.(db := after), c, ScheduleMade)
    case Err(LaneNotFound) => Reply(s, c, NoLane)
    case Err(AlreadyExists) => Reply(s, c, ScheduleExists)
    case Err(_) => Reply(s, c, Failed)
  }

  predicate ScheduleEndsAtOnce(db: Db, req: ScheduleRequest) {
    req.lane !in db.lanes || req.lane in db.schedules
  }

  lemma ScheduleFirstSteps(cfg: Config, s: State, c: Id, req: ScheduleRequest, first: Id, e: Event)
    requires cfg.duration > 0 && c in s.sessions && Smooth(e, c)
    ensures Next(cfg, Enter(s, c, ScheduleCheck(req)), e)
         == Some(if ScheduleEndsAtOnce(s.db, req) then AfterSchedule(cfg, s, c, req, first) else Enter(s, c, ScheduleInsert(req)))
    ensures !ScheduleEndsAtOnce(s.db, req) ==>
      var u := Next(cfg, Enter(s, c, ScheduleInsert(req)), e);
      u.Some? ==> u == Some(if WithSchedule(s.db, req).Err? then AfterSchedule(cfg, s, c, req, first) else Enter(s, c, ScheduleBuild(req)))
  {
    MoveOn(s, c, ScheduleCheck(req));
    MoveOn(s, c, ScheduleInsert(req));
  }

  lemma ScheduleBuildStep(cfg: Config, s: State, c: Id, req: ScheduleRequest, first: Id, e: Event)
    requires cfg.duration > 0 && c in s.sessions && Smooth(e, c) && !ScheduleEndsAtOnce(s.db, req) && WithSchedule(s.db, req).Ok?
    ensures Next(cfg, Enter(s, c, ScheduleBuild(req)), e)
         == Some(if InitialSlots(req, s.now, cfg.window, cfg.duration) == [] then AfterSchedule(cfg, s, c, req, first)
                 else Enter(s, c, ScheduleCommit(req, s.now)))
  {
    MoveOn(s, c, ScheduleBuild(req));
  }

  /** The last step, with any fresh ids. */
  function ScheduleStored(cfg: Config, s: State, c: Id, req: ScheduleRequest, ids: seq<Id>): State
    requires c in s.sessions && cfg.duration > 0 && WithSchedule(s.db, req).Ok?
    requires |ids| == |InitialSlots(req, s.now, cfg.window, cfg.duration)|
  {
    match InsertSlots(WithSchedule(s.db, req).value, WithIds(ids, InitialSlots(req, s.now, cfg.window, cfg.duration)))
    case Err(_) => Reply(s, c, Failed)
    case Ok(after) => Reply(s.(db := after), c, ScheduleMade)
  }

  lemma ScheduleStoreStep(cfg: Config, s: State, c: Id, req: ScheduleRequest, e: Event)
    requires cfg.duration > 0 && c in s.sessions && Smooth(e, c) && WithSchedule(s.db, req).Ok?
    ensures var u := Next(cfg, Enter(s, c, ScheduleCommit(req, s.now)), e);
      var isFresh := |e.choice.ids| == |InitialSlots(req, s.now, cfg.window, cfg.duration)| && FreshIds(e.choice.ids, s.db.slots);
      && (u.Some? <==> isFresh)
      && (isFresh ==> u == Some(ScheduleStored(cfg, s, c, req, e.choice.ids)))
  {
    var p := ScheduleCommit(req, s.now);
    var slots := InitialSlots(req, s.now, cfg.window, cfg.duration);
    MoveOn(s, c, p);
    if |e.choice.ids| == |slots| {
      match InsertSlots(WithSchedule(s.db, req).value, WithIds(e.choice.ids, slots))
      case Err(_) =>
      case Ok(after) => MoveOn(s.(db := after), c, p);
    }
  }

  /** Which fresh ids are drawn decides nothing but the ids. */
  lemma StoredUpToIds(cfg: Config, s: State, c: Id, req: ScheduleRequest, ids: seq<Id>, first: Id)
    requires cfg.duration > 0 && c in s.sessions && !ScheduleEndsAtOnce(s.db, req) && WithSchedule(s.db, req).Ok?
    requires InitialSlots(req, s.now, cfg.window, cfg.duration) != [] && FreshFrom(s.db.slots, first)
    requires |ids| == |InitialSlots(req, s.now, cfg.window, cfg.duration)| && FreshIds(ids, s.db.slots)
    ensures var t, u := ScheduleStored(cfg, s, c, req, ids), AfterSchedule(cfg, s, c, req, first);
      SameButIds(t.db, u.db) && t == u.(db := t.db)
  {
    var slots, db1 := InitialSlots(req, s.now, cfg.window, cfg.duration), WithSchedule(s.db, req).value;
    var p, q := WithIds(ids, slots), Numbered(first, slots);
    InsertSlotsExact(db1, p);
    InsertSlotsExact(db1, q);
    WindowFitsBatch(db1, req.lane, Grid.InitialDays(req.days), RequestHours(req), DayOf(s.now), cfg.window, cfg.duration, p);
    WindowFitsBatch(db1, req.lane, Grid.InitialDays(req.days), RequestHours(req), DayOf(s.now), cfg.window, cfg.duration, q);
    if Fits(db1, p) {
      BatchLanes(db1, p, slots);
      BatchLanes(db1, q, slots);
    }
  }

  lemma ScheduleAlone(cfg: Config, s: State, c: Id, req: ScheduleRequest, first: Id) returns (events: seq<Event>)
    requires cfg.duration > 0 && Coherence.AllIdle(s) && c in s.sessions && ValidDays(req.days) && FreshFrom(s.db.slots, first)
    ensures Calls(cfg, s, c, MakeSchedule(req), events, AfterSchedule(cfg, s, c, req, first))
  {
    var p, t := ScheduleCheck(req), AfterSchedule(cfg, s, c, req, first);
    ScheduleFirstSteps(cfg, s, c, req, first, Step(c));
    if ScheduleEndsAtOnce(s.db, req) {
      events := Last(cfg, Enter(s, c, p), c, Step(c), t);
    } else {
      assert !LaneHeld(Enter(s, c, ScheduleInsert(req)), c, req.lane);
      if WithSchedule(s.db, req).Err? {
        events := Last(cfg, Enter(s, c, ScheduleInsert(req)), c, Step(c), t);
      } else {
        events := BuildAlone(cfg, s, c, req, first);
        events := First(cfg, Enter(s, c, ScheduleInsert(req)), c, Step(c), Enter(s, c, ScheduleBuild(req)), events, t);
      }
      events := First(cfg, Enter(s, c, p), c, Step(c), Enter(s, c, ScheduleInsert(req)), events, t);
    }
    events := Open(cfg, s, c, MakeSchedule(req), p, events, t);
  }

  lemma BuildAlone(cfg: Config, s: State, c: Id, req: ScheduleRequest, first: Id) returns (events: seq<Event>)
    requires cfg.duration > 0 && c in s.sessions && FreshFrom(s.db.slots, first)
    requires !ScheduleEndsAtOnce(s.db, req) && WithSchedule(s.db, req).Ok?
    ensures Completes(cfg, Enter(s, c, ScheduleBuild(req)), c, events, AfterSchedule(cfg, s, c, req, first))
  {
    var slots, t := InitialSlots(req, s.now, cfg.window, cfg.duration), AfterSchedule(cfg, s, c, req, first);
    ScheduleBuildStep(cfg, s, c, req, first, Step(c));
    if slots == [] {
      events := Last(cfg, Enter(s, c, ScheduleBuild(req)), c, Step(c), t);
    } else {
      var e := Go(c, Choice(Ids(first, |slots|), true));
      IdsNumber(first, slots, s.db.slots);
      ScheduleStoreStep(cfg, s, c, req, e);
      events := Last(cfg, Enter(s, c, ScheduleCommit(req, s.now)), c, e, t);
      events := First(cfg, Enter(s, c, ScheduleBuild(req)), c, Step(c), Enter(s, c, ScheduleCommit(req, s.now)), events, t);
    }
  }

  /** However a schedule call runs on its own, it ends where the service method does, up to the ids of the slots. */
  lemma ScheduleSettles(cfg: Config, s: State, c: Id, req: ScheduleRequest, first: Id, events: seq<Event>, t: State)
    requires cfg.duration > 0 && c in s.sessions && ValidDays(req.days) && FreshFrom(s.db.slots, first)
    requires Calls(cfg, s, c, MakeSchedule(req), events, t)
    ensures var u := AfterSchedule(cfg, s, c, req, first);
      SameButIds(t.db, u.db) && t == u.(db := t.db)
  {
    var p, steps, u := ScheduleCheck(req), events[1..], AfterSchedule(cfg, s, c, req, first);
    Opened(cfg, s, c, MakeSchedule(req), p, events, t);
    ScheduleFirstSteps(cfg, s, c, req, first, steps[0]);
    if ScheduleEndsAtOnce(s.db, req) {
      EndsWith(cfg, Enter(s, c, p), c, steps, t, u);
    } else {
      GoesOn(cfg, Enter(s, c, p), c, steps, t, Enter(s, c, ScheduleInsert(req)));
      ScheduleFirstSteps(cfg, s, c, req, first, steps[1..][0]);
      if WithSchedule(s.db, req).Err? {
        EndsWith(cfg, Enter(s, c, ScheduleInsert(req)), c, steps[1..], t, u);
      } else {
        GoesOn(cfg, Enter(s, c, ScheduleInsert(req)), c, steps[1..], t, Enter(s, c, ScheduleBuild(req)));
        BuildSettles(cfg, s, c, req, first, steps[1..][1..], t);
      }
    }
  }

  lemma BuildSettles(cfg: Config, s: State, c: Id, req: ScheduleRequest, first: Id, events: seq<Event>, t: State)
    requires cfg.duration > 0 && c in s.sessions && FreshFrom(s.db.slots, first)
    requires !ScheduleEndsAtOnce(s.db, req) && WithSchedule(s.db, req).Ok?
    requires Completes(cfg, Enter(s, c, ScheduleBuild(req)), c, events, t)
    ensures var u := AfterSchedule(cfg, s, c, req, first);
      SameButIds(t.db, u.db) && t == u.(db := t.db)
  {
    var u, p := AfterSchedule(cfg, s, c, req, first), ScheduleCommit(req, s.now);
    ScheduleBuildStep(cfg, s, c, req, first, events[0]);
    if InitialSlots(req, s.now, cfg.window, cfg.duration) == [] {
      EndsWith(cfg, Enter(s, c, ScheduleBuild(req)), c, events, t, u);
    } else {
      GoesOn(cfg, Enter(s, c, ScheduleBuild(req)), c, events, t, Enter(s, c, p));
      var e := events[1..][0];
      ScheduleStoreStep(cfg, s, c, req, e);
      EndsWith(cfg, Enter(s, c, p), c, events[1..], t, ScheduleStored(cfg, s, c, req, e.choice.ids));
      StoredUpToIds(cfg, s, c, req, e.choice.ids, first);
    }
  }

  // ---- GenerateAll ----

  /** The clock stands while one client acts. */
  function Still(now: Time, n: nat): (times: seq<Time>)
    ensures |times| == n && forall i :: 0 <= i < n ==> times[i] == now
  {
    seq(n, i requires 0 <= i < n => now)
  }

  /** The tables after a pass over `lanes`. */
  function Passed(cfg: Config, db: Db, now: Time, lanes: seq<Id>, first: Id): Db
    requires cfg.duration > 0
  {
    GenerateLanes(db, lanes, Still(now, |lanes|), first, cfg.lookahead, cfg.duration)
  }

  /** What the generation call leaves behind. */
  function AfterGenerate(cfg: Config, s: State, c: Id, first: Id): (t: State)
    requires c in s.sessions && cfg.duration > 0
    ensures c in t.sessions && t.sessions[c].pc.Idle?
  {
    Reply(s.(db := Passed(cfg, s.db, s.now, s.db.lanes, first)), c, GenerationOver)
  }

  lemma FirstTurn(cfg: Config, db: Db, now: Time, lanes: seq<Id>, first: Id)
    requires cfg.duration > 0 && lanes != []
    ensures Passed(cfg, db, now, lanes, first)
         == Passed(cfg, GenerateLane(db, lanes[0], now, first, cfg.lookahead, cfg.duration), now, lanes[1..],
                   first + Drawn(db, lanes[0], now, cfg.lookahead, cfg.duration))
  {
    assert Still(now, |lanes|)[1..] == Still(now, |lanes| - 1);
  }

  lemma GenerateAlone(cfg: Config, s: State, c: Id, first: Id) returns (events: seq<Event>)
    requires cfg.duration > 0 && c in s.sessions && s.sessions[c].pc.Idle? && SchedulesStored(s.db) && FreshFrom(s.db.slots, first)
    ensures Calls(cfg, s, c, GenerateAll, events, AfterGenerate(cfg, s, c, first))
  {
    var t := AfterGenerate(cfg, s, c, first);
    MoveOn(s, c, GenerateStart);
    events := LanesAlone(cfg, c, s, s.db.lanes, first);
    events := First(cfg, Enter(s, c, GenerateStart), c, Step(c), Enter(s, c, GenerateNext(s.db.lanes)), events, t);
    events := Open(cfg, s, c, GenerateAll, GenerateStart, events, t);
  }

  /** From the top of the loop. */
  lemma {:induction false} LanesAlone(cfg: Config, c: Id, x: State, lanes: seq<Id>, first: Id) returns (events: seq<Event>)
    requires cfg.duration > 0 && c in x.sessions && SchedulesStored(x.db) && FreshFrom(x.db.slots, first)
    ensures Completes(cfg, Enter(x, c, GenerateNext(lanes)), c, events,
                      Reply(x.(db := Passed(cfg, x.db, x.now, lanes, first)), c, GenerationOver))
    decreases |lanes|
  {
    MoveOn(x, c, GenerateNext(lanes));
    if lanes == [] {
      events := Last(cfg, Enter(x, c, GenerateNext(lanes)), c, Step(c), Reply(x, c, GenerationOver));
    } else {
      var next := GenerateLane(x.db, lanes[0], x.now, first, cfg.lookahead, cfg.duration);
      GenerateLaneEffect(x.db, lanes[0], x.now, first, cfg.lookahead, cfg.duration);
      FirstTurn(cfg, x.db, x.now, lanes, first);
      events := LanesAlone(cfg, c, x.(db := next), lanes[1..], first + Drawn(x.db, lanes[0], x.now, cfg.lookahead, cfg.duration));
      events := LaneAlone(cfg, c, x, lanes, first, events, Reply(x.(db := Passed(cfg, x.db, x.now, lanes, first)), c, GenerationOver));
    }
  }

  /** One lane's turn, before the rest of the loop. */
  lemma LaneAlone(cfg: Config, c: Id, x: State, lanes: seq<Id>, first: Id, rest: seq<Event>, t: State) returns (events: seq<Event>)
    requires cfg.duration > 0 && c in x.sessions && FreshFrom(x.db.slots, first) && lanes != []
    requires Completes(cfg, Enter(x.(db := GenerateLane(x.db, lanes[0], x.now, first, cfg.lookahead, cfg.duration)), c, GenerateNext(lanes[1..])),
                       c, rest, t)
    ensures Completes(cfg, Enter(x, c, GenerateNext(lanes)), c, events, t)
  {
    var lane, later := lanes[0], lanes[1..];
    LaneSteps(cfg, c, x, lanes, Step(c));
    if lane !in x.db.schedules {
      events := First(cfg, Enter(x, c, GenerateNext(lanes)), c, Step(c), Enter(x, c, GenerateNext(later)), rest, t);
    } else {
      var sch := x.db.schedules[lane];
      var slots := BackgroundSlots(lane, sch, x.now, cfg.lookahead, cfg.duration);
      var p1, p2 := GenerateBuild(lane, sch, later), GenerateInsert(lane, sch, x.now, later);
      if slots == [] {
        assert InsertSlots(x.db, Numbered(first, slots)) == Ok(x.db);
        events := First(cfg, Enter(x, c, p1), c, Step(c), Enter(x, c, GenerateNext(later)), rest, t);
      } else {
        var e := Go(c, Choice(Ids(first, |slots|), true));
        IdsNumber(first, slots, x.db.slots);
        InsertStep(cfg, c, x, lane, later, e);
        events := First(cfg, Enter(x, c, p2), c, e, Enter(x.(db := Inserted(cfg, x, lane, e.choice.ids)), c, GenerateNext(later)), rest, t);
        events := First(cfg, Enter(x, c, p1), c, Step(c), Enter(x, c, p2), events, t);
      }
      events := First(cfg, Enter(x, c, GenerateNext(lanes)), c, Step(c), Enter(x, c, p1), events, t);
    }
  }

  /** The steps of a lane's turn up to its insert. */
  lemma LaneSteps(cfg: Config, c: Id, x: State, lanes: seq<Id>, e: Event)
    requires cfg.duration > 0 && c in x.sessions && lanes != [] && Smooth(e, c)
    ensures var lane, later := lanes[0], lanes[1..];
      var u := Next(cfg, Enter(x, c, GenerateNext(lanes)), e);
      if lane !in x.db.schedules then u == Some(Enter(x, c, GenerateNext(later)))
      else
        var sch := x.db.schedules[lane];
        && u == Some(Enter(x, c, GenerateBuild(lane, sch, later)))
        && Next(cfg, Enter(x, c, GenerateBuild(lane, sch, later)), e)
           == Some(Enter(x, c, if BackgroundSlots(lane, sch, x.now, cfg.lookahead, cfg.duration) == [] then GenerateNext(later)
                               else GenerateInsert(lane, sch, x.now, later)))
  {
    MoveOn(x, c, GenerateNext(lanes));
    if lanes[0] in x.db.schedules {
      MoveOn(x, c, GenerateBuild(lanes[0], x.db.schedules[lanes[0]], lanes[1..]));
    }
  }

  /** The tables after a lane's batch with any ids. */
  function Inserted(cfg: Config, x: State, lane: Id, ids: seq<Id>): Db
    requires cfg.duration > 0 && lane in x.db.schedules
    requires |ids| == |BackgroundSlots(lane, x.db.schedules[lane], x.now, cfg.lookahead, cfg.duration)|
  {
    match InsertSlots(x.db, WithIds(ids, BackgroundSlots(lane, x.db.schedules[lane], x.now, cfg.lookahead, cfg.duration)))
    case Err(_) => x.db
    case Ok(after) => after
  }

  lemma InsertStep(cfg: Config, c: Id, x: State, lane: Id, later: seq<Id>, e: Event)
    requires cfg.duration > 0 && c in x.sessions && lane in x.db.schedules && Smooth(e, c)
    ensures var sch := x.db.schedules[lane];
      var u := Next(cfg, Enter(x, c, GenerateInsert(lane, sch, x.now, later)), e);
      var isFresh := |e.choice.ids| == |BackgroundSlots(lane, sch, x.now, cfg.lookahead, cfg.duration)| && FreshIds(e.choice.ids, x.db.slots);
      && (u.Some? <==> isFresh)
      && (isFresh ==> u == Some(Enter(x.(db := Inserted(cfg, x, lane, e.choice.ids)), c, GenerateNext(later))))
  {
    var sch := x.db.schedules[lane];
    var p := GenerateInsert(lane, sch, x.now, later);
    var slots := BackgroundSlots(lane, sch, x.now, cfg.lookahead, cfg.duration);
    MoveOn(x, c, p);
    if |e.choice.ids| == |slots| {
      match InsertSlots(x.db, WithIds(e.choice.ids, slots))
      case Err(_) =>
      case Ok(db1) => MoveOn(x.(db := db1), c, p);
    }
  }

  /** A lane's turn on tables that differ in ids only leaves tables that differ in ids only. */
  lemma TurnUpToIds(cfg: Config, x: State, lane: Id, ids: seq<Id>, db: Db, first: Id)
    requires cfg.duration > 0 && lane in x.db.schedules && SameButIds(x.db, db) && SchedulesStored(db) && FreshFrom(db.slots, first)
    requires |ids| == |BackgroundSlots(lane, x.db.schedules[lane], x.now, cfg.lookahead, cfg.duration)| && FreshIds(ids, x.db.slots)
    ensures SameButIds(Inserted(cfg, x, lane, ids), GenerateLane(db, lane, x.now, first, cfg.lookahead, cfg.duration))
  {
    var sch := x.db.schedules[lane];
    var slots := BackgroundSlots(lane, sch, x.now, cfg.lookahead, cfg.duration);
    var p, q := WithIds(ids, slots), Numbered(first, slots);
    InsertSlotsExact(x.db, p);
    InsertSlotsExact(db, q);
    FitsByLane(x.db, lane, sch, x.now, cfg.lookahead, cfg.duration, p);
    FitsByLane(db, lane, sch, x.now, cfg.lookahead, cfg.duration, q);
    if Fits(x.db, p) {
      BatchLanes(x.db, p, slots);
      BatchLanes(db, q, slots);
    }
  }

  /** Whether a batch with fresh ids fits depends on the lane's slots only. */
  lemma FitsByLane(db: Db, lane: Id, sch: Schedule, now: Time, n: nat, dur: int, batch: seq<NewSlot>)
    requires dur > 0 && SchedulesStored(db) && lane in db.schedules && db.schedules[lane] == sch
    requires var slots := BackgroundSlots(lane, sch, now, n, dur);
      |batch| == |slots| && forall i :: 0 <= i < |batch| ==> batch[i].slot == slots[i]
    requires forall i :: 0 <= i < |batch| ==> batch[i].id !in db.slots
    requires forall i, j :: 0 <= i < j < |batch| ==> batch[i].id != batch[j].id
    ensures Fits(db, batch) <==> !Clashes(LaneSlots(db.slots, lane), BackgroundSlots(lane, sch, now, n, dur))
  {
    WindowFitsBatch(db, lane, Grid.BackgroundDays(sch.days), StoredHours(sch.hours), DayOf(now), n, dur, batch);
    TakenByLane(db, lane, BackgroundSlots(lane, sch, now, n, dur));
  }

  /** However a generation call runs on its own, it ends where the service method does, up to the ids of the slots. */
  lemma GenerateSettles(cfg: Config, s: State, c: Id, first: Id, events: seq<Event>, t: State)
    requires cfg.duration > 0 && c in s.sessions && SchedulesStored(s.db) && FreshFrom(s.db.slots, first)
    requires Calls(cfg, s, c, GenerateAll, events, t)
    ensures var u := AfterGenerate(cfg, s, c, first);
      SameButIds(t.db, u.db) && t == u.(db := t.db)
  {
    Opened(cfg, s, c, GenerateAll, GenerateStart, events, t);
    MoveOn(s, c, GenerateStart);
    GoesOn(cfg, Enter(s, c, GenerateStart), c, events[1..], t, Enter(s, c, GenerateNext(s.db.lanes)));
    LanesSettle(cfg, c, s, s.db.lanes, s.db, first, events[1..][1..], t);
  }

  lemma {:induction false} LanesSettle(cfg: Config, c: Id, x: State, lanes: seq<Id>, db: Db, first: Id, events: seq<Event>, t: State)
    requires cfg.duration > 0 && c in x.sessions && SameButIds(x.db, db) && SchedulesStored(db) && FreshFrom(db.slots, first)
    requires Completes(cfg, Enter(x, c, GenerateNext(lanes)), c, events, t)
    ensures SameButIds(t.db, Passed(cfg, db, x.now, lanes, first)) && t == Reply(x.(db := t.db), c, GenerationOver)
    decreases |lanes|
  {
    MoveOn(x, c, GenerateNext(lanes));
    if lanes == [] {
      EndsWith(cfg, Enter(x, c, GenerateNext(lanes)), c, events, t, Reply(x, c, GenerationOver));
    } else {
      var next := GenerateLane(db, lanes[0], x.now, first, cfg.lookahead, cfg.duration);
      GenerateLaneEffect(db, lanes[0], x.now, first, cfg.lookahead, cfg.duration);
      FirstTurn(cfg, db, x.now, lanes, first);
      var y, rest := LaneSettles(cfg, c, x, lanes, db, first, events, t);
      LanesSettle(cfg, c, y, lanes[1..], next, first + Drawn(db, lanes[0], x.now, cfg.lookahead, cfg.duration), rest, t);
    }
  }

  /** One lane's turn, and the steps that are left after it. */
  lemma LaneSettles(cfg: Config, c: Id, x: State, lanes: seq<Id>, db: Db, first: Id, events: seq<Event>, t: State)
    returns (y: State, rest: seq<Event>)
    requires cfg.duration > 0 && c in x.sessions && SameButIds(x.db, db) && SchedulesStored(db) && FreshFrom(db.slots, first)
    requires lanes != [] && Completes(cfg, Enter(x, c, GenerateNext(lanes)), c, events, t)
    ensures y == x.(db := y.db) && SameButIds(y.db, GenerateLane(db, lanes[0], x.now, first, cfg.lookahead, cfg.duration))
    ensures Completes(cfg, Enter(y, c, GenerateNext(lanes[1..])), c, rest, t)
  {
    var lane, later := lanes[0], lanes[1..];
    LaneSteps(cfg, c, x, lanes, events[0]);
    if lane !in x.db.schedules {
      GoesOn(cfg, Enter(x, c, GenerateNext(lanes)), c, events, t, Enter(x, c, GenerateNext(later)));
      y, rest := x, events[1..];
    } else {
      var sch := x.db.schedules[lane];
      var slots := BackgroundSlots(lane, sch, x.now, cfg.lookahead, cfg.duration);
      var p1, p2 := GenerateBuild(lane, sch, later), GenerateInsert(lane, sch, x.now, later);
      GoesOn(cfg, Enter(x, c, GenerateNext(lanes)), c, events, t, Enter(x, c, p1));
      LaneSteps(cfg, c, x, lanes, events[1..][0]);
      if slots == [] {
        GoesOn(cfg, Enter(x, c, p1), c, events[1..], t, Enter(x, c, GenerateNext(later)));
        assert InsertSlots(db, Numbered(first, slots)) == Ok(db);
        y, rest := x, events[1..][1..];
      } else {
        GoesOn(cfg, Enter(x, c, p1), c, events[1..], t, Enter(x, c, p2));
        y, rest := BatchSettles(cfg, c, x, lane, later, db, first, events[1..][1..], t);
      }
    }
  }

  lemma BatchSettles(cfg: Config, c: Id, x: State, lane: Id, later: seq<Id>, db: Db, first: Id, events: seq<Event>, t: State)
    returns (y: State, rest: seq<Event>)
    requires cfg.duration > 0 && c in x.sessions && SameButIds(x.db, db) && SchedulesStored(db) && FreshFrom(db.slots, first)
    requires lane in x.db.schedules && Completes(cfg, Enter(x, c, GenerateInsert(lane, x.db.schedules[lane], x.now, later)), c, events, t)
    ensures y == x.(db := y.db) && SameButIds(y.db, GenerateLane(db, lane, x.now, first, cfg.lookahead, cfg.duration))
    ensures Completes(cfg, Enter(y, c, GenerateNext(later)), c, rest, t)
  {
    var e := events[0];
    InsertStep(cfg, c, x, lane, later, e);
    TurnUpToIds(cfg, x, lane, e.choice.ids, db, first);
    y, rest := x.(db := Inserted(cfg, x, lane, e.choice.ids)), events[1..];
    GoesOn(cfg, Enter(x, c, GenerateInsert(lane, x.db.schedules[lane], x.now, later)), c, events, t, Enter(y, c, GenerateNext(later)));
  }
}
