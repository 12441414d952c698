/** The life of one slot's bookings over a whole run, and who may end a booking. */
module BookingHistory {
  import opened Prelude
  import opened Models
  import opened Tables
  import opened Engine
  import opened BookingSafety

  /** A slot's booking becomes active, or is cancelled. */
  datatype Change = Opened(id: Id) | Closed(id: Id)

  /** The slot's active bookings. */
  function ActiveIds(bookings: map<Id, Booking>, slot: Id): set<Id> {
    set b | b in bookings && bookings[b].slot == slot && bookings[b].status.Active?
  }

  /** What one step does to the slot's bookings. */
  function ChangeOf(s: State, e: Event, slot: Id): seq<Change> {
    if e.Go? && e.client in s.sessions then
      var pc := s.sessions[e.client].pc;
      if pc.CreateCommit? && pc.slot == slot then [Opened(pc.booking)]
      else if pc.CancelCommit? && pc.booking in ActiveIds(s.db.bookings, slot) then [Closed(pc.booking)]
      else []
    else []
  }

  function History(r: Run, slot: Id, k: nat): seq<Change>
    requires k <= |r.events| && k <= |r.states|
  {
    if k == 0 then [] else History(r, slot, k - 1) + ChangeOf(r.states[k - 1], r.events[k - 1], slot)
  }

  predicate InTurn(h: seq<Change>, i: nat)
    requires i < |h|
  {
    if i % 2 == 0 then h[i].Opened? else h[i] == Closed(h[i - 1].id)
  }

  /** Openings and closings take turns, opening first, and a closing ends the booking just opened. */
  ghost predicate Alternates(h: seq<Change>) {
    forall i :: 0 <= i < |h| ==> InTurn(h, i)
  }

  /** No booking is opened twice. */
  ghost predicate OpenedOnce(h: seq<Change>) {
    forall i, j :: 0 <= i < j < |h| && h[i].Opened? && h[j].Opened? ==> h[i].id != h[j].id
  }

  lemma CreateCommitChange(cfg: Config, s: State, c: Id, ch: Choice, t: State, slot: Id)
    requires BookingInv(s) && c in s.sessions && s.sessions[c].pc.CreateCommit? && StepCreate(cfg, s, c, ch) == Some(t)
    ensures var pc := s.sessions[c].pc;
      && pc.booking !in s.db.bookings && pc.booking in t.db.bookings
      && ActiveIds(t.db.bookings, slot) == ActiveIds(s.db.bookings, slot) + (if pc.slot == slot then {pc.booking} else {})
      && (pc.slot == slot ==> ActiveIds(s.db.bookings, slot) == {})
  {
    var pc := s.sessions[c].pc;
    assert SessionOk(s.db, pc);
    if pc.slot == slot {
      assert forall b :: b !in ActiveIds(s.db.bookings, slot);
    }
  }

  lemma CancelCommitChange(cfg: Config, s: State, c: Id, ch: Choice, t: State, slot: Id)
    requires BookingInv(s) && c in s.sessions && s.sessions[c].pc.CancelCommit? && StepCancel(cfg, s, c, ch) == Some(t)
    ensures ActiveIds(t.db.bookings, slot) == ActiveIds(s.db.bookings, slot) - {s.sessions[c].pc.booking}
  {
  }

  lemma ActiveUnique(db: Db, slot: Id, b: Id)
    requires Consistent(db) && b in ActiveIds(db.bookings, slot)
    ensures ActiveIds(db.bookings, slot) == {b}
  {
  }

  /** A step's change is exactly the difference it makes to the slot's active bookings. */
  lemma StepChange(cfg: Config, s: State, e: Event, t: State, slot: Id)
    requires cfg.duration > 0 && BookingInv(s) && Next(cfg, s, e) == Some(t)
    ensures var change := ChangeOf(s, e, slot);
      var before, after := ActiveIds(s.db.bookings, slot), ActiveIds(t.db.bookings, slot);
      && |change| <= 1
      && (change == [] ==> after == before)
      && (|change| == 1 && change[0].Opened? ==>
            before == {} && after == {change[0].id} && change[0].id !in s.db.bookings && change[0].id in t.db.bookings)
      && (|change| == 1 && change[0].Closed? ==> before == {change[0].id} && after == {})
  {
    StepFrame(cfg, s, e, t);
    if e.Go? {
      var c, pc := e.client, s.sessions[e.client].pc;
      if pc.CreateCommit? {
        CreateCommitChange(cfg, s, c, e.choice, t, slot);
      } else if pc.CancelCommit? {
        CancelCommitChange(cfg, s, c, e.choice, t, slot);
        if pc.booking in ActiveIds(s.db.bookings, slot) {
          ActiveUnique(s.db, slot, pc.booking);
        }
      } else {
        OtherWritesSpareBookings(cfg, s, c, e.choice, t);
      }
    }
  }

  lemma OtherWritesSpareBookings(cfg: Config, s: State, c: Id, ch: Choice, t: State)
    requires cfg.duration > 0 && c in s.sessions && StepGo(cfg, s, c, ch) == Some(t)
    requires !s.sessions[c].pc.CreateCommit? && !s.sessions[c].pc.CancelCommit?
    ensures t.db.bookings == s.db.bookings
  {
    FrameGo(cfg, s, c, ch);
    var pc := s.sessions[c].pc;
    if pc.ScheduleCommit? {
      ScheduleSparesBookings(cfg, s, c, ch, t);
    } else if pc.GenerateInsert? {
      GenerateSparesBookings(cfg, s, c, ch, t);
    }
  }

  lemma {:induction false} InsertSlotsSpares(db: Db, batch: seq<NewSlot>)
    ensures InsertSlots(db, batch).Ok? ==> InsertSlots(db, batch).value == db.(slots := InsertSlots(db, batch).value.slots)
    decreases |batch|
  {
    if batch != [] && InsertSlot(db, batch[0]).Ok? {
      InsertSlotsSpares(InsertSlot(db, batch[0]).value, batch[1..]);
    }
  }

  lemma ScheduleSparesBookings(cfg: Config, s: State, c: Id, ch: Choice, t: State)
    requires cfg.duration > 0 && c in s.sessions && s.sessions[c].pc.ScheduleCommit? && StepSchedule(cfg, s, c, ch) == Some(t)
    ensures t.db.bookings == s.db.bookings
  {
    var pc := s.sessions[c].pc;
    var raw := InsertSchedule(s.db, pc.req.lane, pc.req.days, pc.req.open.column, pc.req.close.column);
    if raw.Ok? {
      InsertSlotsSpares(raw.value, WithIds(ch.ids, Scheduling.InitialSlots(pc.req, pc.at, cfg.window, cfg.duration)));
    }
  }

  lemma GenerateSparesBookings(cfg: Config, s: State, c: Id, ch: Choice, t: State)
    requires cfg.duration > 0 && c in s.sessions && s.sessions[c].pc.GenerateInsert? && StepGenerate(cfg, s, c, ch) == Some(t)
    ensures t.db.bookings == s.db.bookings
  {
    var pc := s.sessions[c].pc;
    InsertSlotsSpares(s.db, WithIds(ch.ids, Scheduling.BackgroundSlots(pc.lane, pc.sch, pc.at, cfg.lookahead, cfg.duration)));
  }

  /** The history told by the run fits the tables: it alternates, and its last entry says who holds the slot. */
  ghost predicate HistoryFits(db: Db, h: seq<Change>, slot: Id) {
    && Alternates(h) && OpenedOnce(h)
    && (forall i :: 0 <= i < |h| ==> h[i].id in db.bookings)
    && ActiveIds(db.bookings, slot) == (if |h| % 2 == 1 then {h[|h| - 1].id} else {})
  }

  lemma HistoryStep(a: Db, b: Db, h: seq<Change>, change: seq<Change>, slot: Id)
    requires HistoryFits(a, h, slot) && Evolves(a, b) && |change| <= 1
    requires change == [] ==> ActiveIds(b.bookings, slot) == ActiveIds(a.bookings, slot)
    requires |change| == 1 && change[0].Opened? ==>
      ActiveIds(a.bookings, slot) == {} && ActiveIds(b.bookings, slot) == {change[0].id}
      && change[0].id !in a.bookings && change[0].id in b.bookings
    requires |change| == 1 && change[0].Closed? ==>
      ActiveIds(a.bookings, slot) == {change[0].id} && ActiveIds(b.bookings, slot) == {}
    ensures HistoryFits(b, h + change, slot)
  {
    if change == [] {
      assert h + change == h;
    } else if change[0].Opened? {
      OpeningFits(a, b, h, change[0].id, slot);
      assert change == [Opened(change[0].id)];
    } else {
      ClosingFits(a, b, h, change[0].id, slot);
      assert change == [Closed(change[0].id)];
    }
  }

  lemma OpeningFits(a: Db, b: Db, h: seq<Change>, id: Id, slot: Id)
    requires HistoryFits(a, h, slot) && Evolves(a, b)
    requires ActiveIds(a.bookings, slot) == {} && ActiveIds(b.bookings, slot) == {id}
    requires id !in a.bookings && id in b.bookings
    ensures HistoryFits(b, h + [Opened(id)], slot)
  {
    assert |h| % 2 == 0;
    var h1 := h + [Opened(id)];
    forall i | 0 <= i < |h1| ensures InTurn(h1, i) {
      assert i < |h| ==> InTurn(h, i);
    }
    forall i | 0 <= i < |h1| ensures h1[i].id in b.bookings {
      assert i < |h| ==> h[i].id in a.bookings;
    }
    forall i, j | 0 <= i < j < |h1| && h1[i].Opened? && h1[j].Opened? ensures h1[i].id != h1[j].id {
      assert h[i].id in a.bookings;
    }
  }

  lemma ClosingFits(a: Db, b: Db, h: seq<Change>, id: Id, slot: Id)
    requires HistoryFits(a, h, slot) && Evolves(a, b)
    requires ActiveIds(a.bookings, slot) == {id} && ActiveIds(b.bookings, slot) == {}
    ensures HistoryFits(b, h + [Closed(id)], slot)
  {
    assert id in ActiveIds(a.bookings, slot);
    assert |h| % 2 == 1;
    assert h[|h| - 1].id in ActiveIds(a.bookings, slot);
    assert h[|h| - 1].id == id;
    var h1 := h + [Closed(id)];
    forall i | 0 <= i < |h1| ensures InTurn(h1, i) {
      assert i < |h| ==> InTurn(h, i);
    }
    forall i | 0 <= i < |h1| ensures h1[i].id in b.bookings {
      assert i < |h| ==> h[i].id in a.bookings;
    }
    forall i, j | 0 <= i < j < |h1| && h1[i].Opened? && h1[j].Opened? ensures h1[i].id != h1[j].id {
      assert j < |h|;
    }
  }

  /**
   Over any run, a slot's bookings open and close in turn, opening first, each closing ending the
   booking just opened, no booking opening twice: their active intervals are disjoint. The
   table's active booking of the slot is the one opened and not yet closed.
   */
  lemma {:induction false} SlotHistory(cfg: Config, r: Run, k: nat, slot: Id)
    requires IsRun(cfg, r) && k < |r.states|
    ensures HistoryFits(r.states[k].db, History(r, slot, k), slot)
  {
    if k == 0 {
      assert ActiveIds(r.states[0].db.bookings, slot) == {};
    } else {
      SlotHistory(cfg, r, k - 1, slot);
      RunInv(cfg, r, k - 1);
      HistoryNext(cfg, r.states[k - 1], r.events[k - 1], r.states[k], History(r, slot, k - 1), slot);
    }
  }

  lemma HistoryNext(cfg: Config, s: State, e: Event, t: State, h: seq<Change>, slot: Id)
    requires cfg.duration > 0 && BookingInv(s) && Next(cfg, s, e) == Some(t) && HistoryFits(s.db, h, slot)
    ensures HistoryFits(t.db, h + ChangeOf(s, e, slot), slot)
  {
    StepKeeps(cfg, s, e, t);
    StepChange(cfg, s, e, t, slot);
    HistoryStep(s.db, t.db, h, ChangeOf(s, e, slot), slot);
  }

  // ---- Who ends a booking ----

  /** Step `j` commits the cancellation of `booking` by its owner. */
  predicate CancelledAt(r: Run, j: nat, booking: Id)
    requires j < |r.events| && j < |r.states|
  {
    var s, e := r.states[j], r.events[j];
    && e.Go? && e.client in s.sessions && s.sessions[e.client].pc.CancelCommit?
    && s.sessions[e.client].pc.booking == booking
    && booking in s.db.bookings && s.sessions[e.client].pc.user == s.db.bookings[booking].user
  }

  lemma CancelledByOwner(cfg: Config, s: State, e: Event, t: State, booking: Id)
    requires cfg.duration > 0 && BookingInv(s) && Next(cfg, s, e) == Some(t)
    requires booking in s.db.bookings && s.db.bookings[booking].status.Active?
    requires booking in t.db.bookings && t.db.bookings[booking].status.Cancelled?
    ensures e.Go? && s.sessions[e.client].pc.CancelCommit? && s.sessions[e.client].pc.booking == booking
    ensures s.sessions[e.client].pc.user == s.db.bookings[booking].user
  {
    var slot := s.db.bookings[booking].slot;
    StepChange(cfg, s, e, t, slot);
    assert booking in ActiveIds(s.db.bookings, slot) && booking !in ActiveIds(t.db.bookings, slot);
    assert SessionOk(s.db, s.sessions[e.client].pc);
  }

  /**
   A booking ends only by a cancel call naming it, made by its owner: a delayed cancel of an older
   booking cannot free a slot that has been booked again under another id.
   */
  lemma {:induction false} OnlyItsOwnerEndsABooking(cfg: Config, r: Run, i: nat, k: nat, booking: Id)
    requires IsRun(cfg, r) && i <= k < |r.states|
    requires booking in r.states[i].db.bookings && r.states[i].db.bookings[booking].status.Active?
    requires booking in r.states[k].db.bookings && r.states[k].db.bookings[booking].status.Cancelled?
    ensures exists j :: i <= j < k && CancelledAt(r, j, booking)
    decreases k - i
  {
    var s, t := r.states[k - 1], r.states[k];
    RowsOnlyMoveForward(cfg, r, i, k - 1);
    if s.db.bookings[booking].status.Active? {
      RunInv(cfg, r, k - 1);
      CancelledByOwner(cfg, s, r.events[k - 1], t, booking);
      StepFrame(cfg, s, r.events[k - 1], t);
      assert CancelledAt(r, k - 1, booking);
    } else {
      OnlyItsOwnerEndsABooking(cfg, r, i, k - 1, booking);
    }
  }

  /** A client about to commit a cancellation was asked for exactly that. */
  lemma {:induction false} CancelWasCalled(cfg: Config, r: Run, k: nat, c: Id)
    requires IsRun(cfg, r) && k < |r.states| && c in r.states[k].sessions
    requires var pc := r.states[k].sessions[c].pc; pc.CancelGet? || pc.CancelSlot? || pc.CancelUpdate? || pc.CancelCommit?
    ensures var pc := r.states[k].sessions[c].pc;
      exists j :: 0 <= j < k && r.events[j] == Call(c, CancelBookingOf(pc.user, pc.booking))
  {
    assert k > 0;
    var s, e, t := r.states[k - 1], r.events[k - 1], r.states[k];
    var pc := t.sessions[c].pc;
    StepFrame(cfg, s, e, t);
    if e != Call(c, CancelBookingOf(pc.user, pc.booking)) {
      CancelPosition(cfg, s, e, t, c);
      CancelWasCalled(cfg, r, k - 1, c);
    }
  }

  lemma CancelPosition(cfg: Config, s: State, e: Event, t: State, c: Id)
    requires cfg.duration > 0 && Next(cfg, s, e) == Some(t) && c in s.sessions && c in t.sessions
    requires var pc := t.sessions[c].pc; pc.CancelGet? || pc.CancelSlot? || pc.CancelUpdate? || pc.CancelCommit?
    requires e != Call(c, CancelBookingOf(t.sessions[c].pc.user, t.sessions[c].pc.booking))
    ensures var pc, was := t.sessions[c].pc, s.sessions[c].pc;
      (was.CancelGet? || was.CancelSlot? || was.CancelUpdate? || was.CancelCommit?) && was.user == pc.user && was.booking == pc.booking
  {
    if e.Go? && e.client == c {
      GoCancelPosition(cfg, s, e.choice, t, c);
    } else {
      StepFrame(cfg, s, e, t);
    }
  }

  lemma GoCancelPosition(cfg: Config, s: State, ch: Choice, t: State, c: Id)
    requires cfg.duration > 0 && c in s.sessions && StepGo(cfg, s, c, ch) == Some(t) && c in t.sessions
    requires var pc := t.sessions[c].pc; pc.CancelGet? || pc.CancelSlot? || pc.CancelUpdate? || pc.CancelCommit?
    ensures var pc, was := t.sessions[c].pc, s.sessions[c].pc;
      (was.CancelGet? || was.CancelSlot? || was.CancelUpdate?) && was.user == pc.user && was.booking == pc.booking
  {
    var was := s.sessions[c].pc;
    if InSchedule(was) {
      SchedulePositions(cfg, s, c, ch, t);
    }
  }
}
