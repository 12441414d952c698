/** What every interleaving keeps about bookings: at most one claim per slot, and rows that only move forward. */
module BookingSafety {
  import opened Prelude
  import opened Models
  import opened Tables
  import opened Scheduling
  import opened Engine

  /** `b` is a later state of `a`: no row is lost, only a booking's status changes, and cancelled is final. */
  ghost predicate Evolves(a: Db, b: Db) {
    && a.users <= b.users
    && (forall l :: l in a.lanes ==> l in b.lanes)
    && (forall l :: l in a.schedules ==> l in b.schedules && b.schedules[l] == a.schedules[l])
    && (forall i :: i in a.slots ==> i in b.slots && b.slots[i] == a.slots[i])
    && (forall i :: i in a.bookings ==> i in b.bookings && Forward(a.bookings[i], b.bookings[i]))
  }

  predicate Forward(a: Booking, b: Booking) {
    b == a || (a.status.Active? && b == a.(status := Cancelled))
  }

  lemma EvolvesTransitive(a: Db, b: Db, c: Db)
    requires Evolves(a, b) && Evolves(b, c)
    ensures Evolves(a, c)
  {
    forall i | i in a.bookings ensures i in c.bookings && Forward(a.bookings[i], c.bookings[i]) {
      assert Forward(a.bookings[i], b.bookings[i]);
    }
  }

  /** What a client has learnt, or holds, is still so. */
  ghost predicate SessionOk(db: Db, pc: Pc) {
    match pc
    case CreateInsert(_, slot, row, _) => slot in db.slots && db.slots[slot] == row
    case CreateCommit(user, slot, row, booking, _) =>
      slot in db.slots && db.slots[slot] == row && user in db.users && booking !in db.bookings && !Taken(db.bookings, slot)
    case CancelSlot(user, booking, slot) =>
      booking in db.bookings && db.bookings[booking].user == user && db.bookings[booking].slot == slot
    case CancelUpdate(user, booking, row) => Owned(db, user, booking, row)
    case CancelCommit(user, booking, row) => Owned(db, user, booking, row)
    case _ => true
  }

  predicate Owned(db: Db, user: Id, booking: Id, row: Slot) {
    && booking in db.bookings && db.bookings[booking].user == user
    && db.bookings[booking].slot in db.slots && db.slots[db.bookings[booking].slot] == row
  }

  /** Two clients never hold the same index entry, generated id or row lock. */
  predicate Apart(p: Pc, q: Pc) {
    && (p.CreateCommit? && q.CreateCommit? ==> p.slot != q.slot && p.booking != q.booking)
    && (p.CancelCommit? && q.CancelCommit? ==> p.booking != q.booking)
  }

  ghost predicate BookingInv(s: State) {
    && Consistent(s.db)
    && (forall c :: c in s.sessions ==> SessionOk(s.db, s.sessions[c].pc))
    && (forall c, d :: c in s.sessions && d in s.sessions && c != d ==> Apart(s.sessions[c].pc, s.sessions[d].pc))
  }

  lemma InitInv(cfg: Config, s: State)
    requires IsInit(cfg, s)
    ensures BookingInv(s)
  {
  }

  /** A session nobody stepped survives a change to the tables that leaves its claim free. */
  lemma SessionSurvives(a: Db, b: Db, pc: Pc)
    requires SessionOk(a, pc) && Evolves(a, b)
    requires pc.CreateCommit? ==> pc.booking !in b.bookings && !Taken(b.bookings, pc.slot)
    ensures SessionOk(b, pc)
  {
    if pc.CancelSlot? || pc.CancelUpdate? || pc.CancelCommit? {
      assert Forward(a.bookings[pc.booking], b.bookings[pc.booking]);
    }
  }

  /** A step that leaves the tables alone and takes no lock. */
  lemma QuietKeeps(s: State, t: State, c: Id)
    requires BookingInv(s) && c in s.sessions && OnlyClient(s, t, c) && t.db == s.db
    requires SessionOk(s.db, t.sessions[c].pc)
    requires !t.sessions[c].pc.CreateCommit? && !t.sessions[c].pc.CancelCommit?
    ensures BookingInv(t) && Evolves(s.db, t.db)
  {
  }

  /** A step that leaves the tables alone and takes a lock nobody else has. */
  lemma LockKeeps(s: State, t: State, c: Id)
    requires BookingInv(s) && c in s.sessions && OnlyClient(s, t, c) && t.db == s.db
    requires SessionOk(s.db, t.sessions[c].pc)
    requires forall d :: d in s.sessions && d != c ==>
      Apart(t.sessions[c].pc, s.sessions[d].pc) && Apart(s.sessions[d].pc, t.sessions[c].pc)
    ensures BookingInv(t) && Evolves(s.db, t.db)
  {
  }

  /** A commit by a client that then holds nothing. */
  lemma CommitKeeps(s: State, t: State, c: Id)
    requires BookingInv(s) && c in s.sessions && OnlyClient(s, t, c)
    requires Consistent(t.db) && Evolves(s.db, t.db)
    requires SessionOk(t.db, t.sessions[c].pc)
    requires !t.sessions[c].pc.CreateCommit? && !t.sessions[c].pc.CancelCommit?
    requires forall d :: d in s.sessions && d != c && s.sessions[d].pc.CreateCommit? ==>
      s.sessions[d].pc.booking !in t.db.bookings && !Taken(t.db.bookings, s.sessions[d].pc.slot)
    ensures BookingInv(t)
  {
    forall d | d in t.sessions && d != c ensures SessionOk(t.db, t.sessions[d].pc) {
      SessionSurvives(s.db, t.db, s.sessions[d].pc);
    }
  }

  lemma CreateInsertKeeps(cfg: Config, s: State, c: Id, ch: Choice, t: State)
    requires BookingInv(s) && c in s.sessions && s.sessions[c].pc.CreateInsert? && StepCreate(cfg, s, c, ch) == Some(t)
    ensures BookingInv(t) && Evolves(s.db, t.db)
  {
    var pc, next := s.sessions[c].pc, t.sessions[c].pc;
    assert SessionOk(s.db, pc);
    if next.CreateCommit? {
      forall d | d in s.sessions && d != c ensures Apart(next, s.sessions[d].pc) && Apart(s.sessions[d].pc, next) {
        assert !HoldsSlot(s.sessions[d].pc, s.db.bookings, pc.slot);
      }
      LockKeeps(s, t, c);
    } else {
      QuietKeeps(s, t, c);
    }
  }

  lemma InsertCommitted(db: Db, pc: Pc)
    requires Consistent(db) && pc.CreateCommit? && SessionOk(db, pc)
    ensures var after := db.(bookings := db.bookings[pc.booking := Booking(pc.user, pc.slot, Active, pc.at)]);
      Consistent(after) && Evolves(db, after)
  {
    BookingStatementsKeepConstraints(db, pc.booking, pc.user, pc.slot, pc.at);
    InsertEvolves(db, pc.booking, Booking(pc.user, pc.slot, Active, pc.at));
  }

  lemma InsertEvolves(db: Db, id: Id, row: Booking)
    requires id !in db.bookings
    ensures Evolves(db, db.(bookings := db.bookings[id := row]))
  {
  }

  lemma CreateCommitKeeps(cfg: Config, s: State, c: Id, ch: Choice, t: State)
    requires BookingInv(s) && c in s.sessions && s.sessions[c].pc.CreateCommit? && StepCreate(cfg, s, c, ch) == Some(t)
    ensures BookingInv(t) && Evolves(s.db, t.db)
  {
    var pc := s.sessions[c].pc;
    FrameCreate(cfg, s, c, ch);
    InsertCommitted(s.db, pc);
    assert t.db == s.db.(bookings := s.db.bookings[pc.booking := Booking(pc.user, pc.slot, Active, pc.at)]);
    forall d | d in s.sessions && d != c && s.sessions[d].pc.CreateCommit?
      ensures s.sessions[d].pc.booking !in t.db.bookings && !Taken(t.db.bookings, s.sessions[d].pc.slot)
    {
      assert Apart(pc, s.sessions[d].pc) && SessionOk(s.db, s.sessions[d].pc);
    }
    CommitKeeps(s, t, c);
  }

  lemma CreateKeeps(cfg: Config, s: State, c: Id, ch: Choice, t: State)
    requires BookingInv(s) && c in s.sessions && StepCreate(cfg, s, c, ch) == Some(t)
    ensures BookingInv(t) && Evolves(s.db, t.db)
  {
    if s.sessions[c].pc.CreateInsert? {
      CreateInsertKeeps(cfg, s, c, ch, t);
    } else if s.sessions[c].pc.CreateCommit? {
      CreateCommitKeeps(cfg, s, c, ch, t);
    } else {
      FrameCreate(cfg, s, c, ch);
      QuietKeeps(s, t, c);
    }
  }

  lemma CancelUpdateKeeps(cfg: Config, s: State, c: Id, ch: Choice, t: State)
    requires BookingInv(s) && c in s.sessions && s.sessions[c].pc.CancelUpdate? && StepCancel(cfg, s, c, ch) == Some(t)
    ensures BookingInv(t) && Evolves(s.db, t.db)
  {
    assert SessionOk(s.db, s.sessions[c].pc);
    LockKeeps(s, t, c);
  }

  lemma CancelCommitted(db: Db, booking: Id)
    requires Consistent(db)
    ensures var after := CancelBooking(db, booking);
      Consistent(after) && Evolves(db, after) && after.bookings.Keys == db.bookings.Keys
  {
    BookingStatementsKeepConstraints(db, booking, 0, 0, 0);
    CancelEvolves(db, booking);
  }

  lemma CancelEvolves(db: Db, booking: Id)
    ensures var after := CancelBooking(db, booking);
      Evolves(db, after) && after.bookings.Keys == db.bookings.Keys
  {
    var after := CancelBooking(db, booking);
    if booking in db.bookings {
      assert after.bookings.Keys == db.bookings.Keys;
      assert Forward(db.bookings[booking], after.bookings[booking]);
    }
  }

  lemma CancelFreesOnly(db: Db, booking: Id, slot: Id)
    requires !Taken(db.bookings, slot)
    ensures !Taken(CancelBooking(db, booking).bookings, slot)
  {
  }

  lemma CancelCommitKeeps(cfg: Config, s: State, c: Id, ch: Choice, t: State)
    requires BookingInv(s) && c in s.sessions && s.sessions[c].pc.CancelCommit? && StepCancel(cfg, s, c, ch) == Some(t)
    ensures BookingInv(t) && Evolves(s.db, t.db)
  {
    var pc := s.sessions[c].pc;
    FrameCancel(cfg, s, c, ch);
    CancelCommitted(s.db, pc.booking);
    assert t.db == CancelBooking(s.db, pc.booking);
    CancelSparesInserts(s, pc.booking);
    CommitKeeps(s, t, c);
  }

  lemma CancelSparesInserts(s: State, booking: Id)
    requires BookingInv(s)
    ensures var after := CancelBooking(s.db, booking);
      forall d :: d in s.sessions && s.sessions[d].pc.CreateCommit? ==>
        s.sessions[d].pc.booking !in after.bookings && !Taken(after.bookings, s.sessions[d].pc.slot)
  {
    CancelEvolves(s.db, booking);
    forall d | d in s.sessions && s.sessions[d].pc.CreateCommit?
      ensures var after := CancelBooking(s.db, booking);
        s.sessions[d].pc.booking !in after.bookings && !Taken(after.bookings, s.sessions[d].pc.slot)
    {
      assert SessionOk(s.db, s.sessions[d].pc);
      CancelFreesOnly(s.db, booking, s.sessions[d].pc.slot);
    }
  }

  lemma CancelKeeps(cfg: Config, s: State, c: Id, ch: Choice, t: State)
    requires BookingInv(s) && c in s.sessions && StepCancel(cfg, s, c, ch) == Some(t)
    ensures BookingInv(t) && Evolves(s.db, t.db)
  {
    if s.sessions[c].pc.CancelUpdate? {
      CancelUpdateKeeps(cfg, s, c, ch, t);
    } else if s.sessions[c].pc.CancelCommit? {
      CancelCommitKeeps(cfg, s, c, ch, t);
    } else {
      FrameCancel(cfg, s, c, ch);
      assert SessionOk(s.db, s.sessions[c].pc);
      QuietKeeps(s, t, c);
    }
  }

  lemma SlotsAddedKeep(s: State, c: Id, t: State, db1: Db, batch: seq<NewSlot>)
    requires BookingInv(s) && c in s.sessions && OnlyClient(s, t, c)
    requires Consistent(db1) && Evolves(s.db, db1) && db1.bookings == s.db.bookings
    requires InsertSlots(db1, batch) == Ok(t.db)
    requires t.sessions[c].pc.Idle? || t.sessions[c].pc.GenerateNext?
    ensures BookingInv(t) && Evolves(s.db, t.db)
  {
    SlotsInserted(db1, batch);
    EvolvesTransitive(s.db, db1, t.db);
    InsertsStillFree(s);
    CommitKeeps(s, t, c);
  }

  lemma InsertsStillFree(s: State)
    requires BookingInv(s)
    ensures forall d :: d in s.sessions && s.sessions[d].pc.CreateCommit? ==>
      s.sessions[d].pc.booking !in s.db.bookings && !Taken(s.db.bookings, s.sessions[d].pc.slot)
  {
    forall d | d in s.sessions && s.sessions[d].pc.CreateCommit?
      ensures s.sessions[d].pc.booking !in s.db.bookings && !Taken(s.db.bookings, s.sessions[d].pc.slot)
    {
      assert SessionOk(s.db, s.sessions[d].pc);
    }
  }

  lemma SlotsInserted(db: Db, batch: seq<NewSlot>)
    requires Consistent(db) && InsertSlots(db, batch).Ok?
    ensures var after := InsertSlots(db, batch).value;
      Consistent(after) && Evolves(db, after) && after.bookings == db.bookings
  {
    InsertSlotsExact(db, batch);
    InsertSlotsConsistent(db, batch);
    BatchRowsApart(db, batch);
  }

  lemma {:induction false} InsertSlotsConsistent(db: Db, batch: seq<NewSlot>)
    requires Consistent(db) && InsertSlots(db, batch).Ok?
    ensures Consistent(InsertSlots(db, batch).value)
    decreases |batch|
  {
    if batch != [] {
      InsertSlotConsistent(db, batch[0]);
      InsertSlotsConsistent(InsertSlot(db, batch[0]).value, batch[1..]);
    }
  }

  lemma InsertSlotConsistent(db: Db, row: NewSlot)
    requires Consistent(db) && InsertSlot(db, row).Ok?
    ensures Consistent(InsertSlot(db, row).value)
  {
  }

  lemma ScheduleInserted(db: Db, lane: Id, days: seq<int>, open: Option<int>, close: Option<int>)
    requires Consistent(db) && InsertSchedule(db, lane, days, open, close).Ok?
    ensures var after := InsertSchedule(db, lane, days, open, close).value;
      Consistent(after) && Evolves(db, after) && after.bookings == db.bookings
  {
  }

  lemma ScheduleCommitKeeps(cfg: Config, s: State, c: Id, ch: Choice, t: State)
    requires cfg.duration > 0 && BookingInv(s) && c in s.sessions && s.sessions[c].pc.ScheduleCommit?
    requires StepSchedule(cfg, s, c, ch) == Some(t)
    ensures BookingInv(t) && Evolves(s.db, t.db)
  {
    FrameSchedule(cfg, s, c, ch);
    var pc := s.sessions[c].pc;
    var slots := InitialSlots(pc.req, pc.at, cfg.window, cfg.duration);
    var raw := InsertSchedule(s.db, pc.req.lane, pc.req.days, pc.req.open.column, pc.req.close.column);
    if raw.Ok? && InsertSlots(raw.value, WithIds(ch.ids, slots)).Ok? {
      ScheduleInserted(s.db, pc.req.lane, pc.req.days, pc.req.open.column, pc.req.close.column);
      SlotsAddedKeep(s, c, t, raw.value, WithIds(ch.ids, slots));
    } else {
      QuietKeeps(s, t, c);
    }
  }

  lemma ScheduleKeeps(cfg: Config, s: State, c: Id, ch: Choice, t: State)
    requires cfg.duration > 0 && BookingInv(s) && c in s.sessions && StepSchedule(cfg, s, c, ch) == Some(t)
    ensures BookingInv(t) && Evolves(s.db, t.db)
  {
    if s.sessions[c].pc.ScheduleCommit? {
      ScheduleCommitKeeps(cfg, s, c, ch, t);
    } else {
      FrameSchedule(cfg, s, c, ch);
      SchedulePositions(cfg, s, c, ch, t);
      QuietKeeps(s, t, c);
    }
  }

  lemma SchedulePositions(cfg: Config, s: State, c: Id, ch: Choice, t: State)
    requires cfg.duration > 0 && c in s.sessions && StepSchedule(cfg, s, c, ch) == Some(t)
    ensures t.sessions[c].pc.Idle? || InSchedule(t.sessions[c].pc)
  {
  }

  lemma GenerateInsertKeeps(cfg: Config, s: State, c: Id, ch: Choice, t: State)
    requires cfg.duration > 0 && BookingInv(s) && c in s.sessions && s.sessions[c].pc.GenerateInsert?
    requires StepGenerate(cfg, s, c, ch) == Some(t)
    ensures BookingInv(t) && Evolves(s.db, t.db)
  {
    FrameGenerate(cfg, s, c, ch);
    var pc := s.sessions[c].pc;
    var batch := WithIds(ch.ids, BackgroundSlots(pc.lane, pc.sch, pc.at, cfg.lookahead, cfg.duration));
    if InsertSlots(s.db, batch).Ok? {
      SlotsAddedKeep(s, c, t, s.db, batch);
    } else {
      QuietKeeps(s, t, c);
    }
  }

  lemma GenerateKeeps(cfg: Config, s: State, c: Id, ch: Choice, t: State)
    requires cfg.duration > 0 && BookingInv(s) && c in s.sessions && StepGenerate(cfg, s, c, ch) == Some(t)
    ensures BookingInv(t) && Evolves(s.db, t.db)
  {
    if s.sessions[c].pc.GenerateInsert? {
      GenerateInsertKeeps(cfg, s, c, ch, t);
    } else {
      FrameGenerate(cfg, s, c, ch);
      QuietKeeps(s, t, c);
    }
  }

  lemma FaultKeeps(s: State, c: Id, t: State)
    requires BookingInv(s) && c in s.sessions && StepFault(s, c) == Some(t)
    ensures BookingInv(t) && Evolves(s.db, t.db)
  {
    FrameFault(s, c);
    QuietKeeps(s, t, c);
  }

  lemma CallKeeps(cfg: Config, s: State, c: Id, request: Request)
    requires BookingInv(s) && c in s.sessions
    ensures BookingInv(Begin(cfg, s, c, request)) && Evolves(s.db, Begin(cfg, s, c, request).db)
  {
    QuietKeeps(s, Begin(cfg, s, c, request), c);
  }

  lemma LaneAdded(db: Db, lane: Id, position: nat)
    requires Consistent(db) && lane !in db.lanes && position <= |db.lanes|
    ensures var after := db.(lanes := db.lanes[..position] + [lane] + db.lanes[position..]);
      Consistent(after) && Evolves(db, after)
  {
    var before, after := db.lanes, db.lanes[..position] + [lane] + db.lanes[position..];
    forall l | l in before ensures l in after {
      var i :| 0 <= i < |before| && before[i] == l;
      assert after[if i < position then i else i + 1] == l;
    }
    forall i, j | 0 <= i < j < |after| ensures after[i] != after[j] {
      assert i < position ==> after[i] == before[i];
      assert j < position ==> after[j] == before[j];
      assert i > position ==> after[i] == before[i - 1];
      assert j > position ==> after[j] == before[j - 1];
    }
  }

  lemma UserAdded(db: Db, user: Id)
    requires Consistent(db)
    ensures var after := db.(users := db.users + {user});
      Consistent(after) && Evolves(db, after)
  {
  }

  /** A change to users or lanes. */
  lemma EnvironmentKeeps(s: State, db: Db)
    requires BookingInv(s) && Consistent(db) && Evolves(s.db, db) && db.bookings == s.db.bookings
    ensures BookingInv(s.(db := db))
  {
    forall c | c in s.sessions ensures SessionOk(db, s.sessions[c].pc) {
      SessionSurvives(s.db, db, s.sessions[c].pc);
    }
  }

  lemma GoKeeps(cfg: Config, s: State, c: Id, ch: Choice, t: State)
    requires cfg.duration > 0 && BookingInv(s) && c in s.sessions && StepGo(cfg, s, c, ch) == Some(t)
    ensures BookingInv(t) && Evolves(s.db, t.db)
  {
    var pc := s.sessions[c].pc;
    if InCreate(pc) {
      CreateKeeps(cfg, s, c, ch, t);
    } else if InCancel(pc) {
      CancelKeeps(cfg, s, c, ch, t);
    } else if InRead(pc) {
      FrameRead(cfg, s, c, ch);
      QuietKeeps(s, t, c);
    } else if InSchedule(pc) {
      ScheduleKeeps(cfg, s, c, ch, t);
    } else {
      GenerateKeeps(cfg, s, c, ch, t);
    }
  }

  /** Every step keeps the invariant and moves the tables forward. */
  lemma StepKeeps(cfg: Config, s: State, e: Event, t: State)
    requires cfg.duration > 0 && BookingInv(s) && Next(cfg, s, e) == Some(t)
    ensures BookingInv(t) && Evolves(s.db, t.db)
  {
    match e
    case Call(c, request) => CallKeeps(cfg, s, c, request);
    case Fault(c) => FaultKeeps(s, c, t);
    case Go(c, ch) => GoKeeps(cfg, s, c, ch, t);
    case AddUser(user) =>
      UserAdded(s.db, user);
      EnvironmentKeeps(s, t.db);
    case AddLane(lane, position) =>
      LaneAdded(s.db, lane, position);
      EnvironmentKeeps(s, t.db);
    case _ =>
  }

  // ---- Whole runs ----

  lemma {:induction false} RunInv(cfg: Config, r: Run, k: nat)
    requires IsRun(cfg, r) && k < |r.states|
    ensures BookingInv(r.states[k])
  {
    if k == 0 {
      InitInv(cfg, r.states[0]);
    } else {
      RunInv(cfg, r, k - 1);
      StepKeeps(cfg, r.states[k - 1], r.events[k - 1], r.states[k]);
    }
  }

  /** Over any run no row is ever lost, slots and schedules never change, and a cancelled booking stays cancelled. */
  lemma {:induction false} RowsOnlyMoveForward(cfg: Config, r: Run, i: nat, k: nat)
    requires IsRun(cfg, r) && i <= k < |r.states|
    ensures Evolves(r.states[i].db, r.states[k].db)
    decreases k - i
  {
    if i < k {
      RowsOnlyMoveForward(cfg, r, i, k - 1);
      RunInv(cfg, r, k - 1);
      StepKeeps(cfg, r.states[k - 1], r.events[k - 1], r.states[k]);
      EvolvesTransitive(r.states[i].db, r.states[k - 1].db, r.states[k].db);
    }
  }

  /**
   In every reachable state, available slots and active bookings of a lane and day add up to its
   slots, and the availability query lists each available one once, by start.
   */
  lemma RunConservation(cfg: Config, r: Run, k: nat, lane: Id, day: int)
    requires IsRun(cfg, r) && k < |r.states|
    ensures var db := r.states[k].db;
      && |Available(db, lane, day)| + |ActiveOn(db, lane, day)| == |SlotsOn(db.slots, lane, day)| == |JoinRows(db, lane, day)|
      && forall i, j :: 0 <= i < j < |Available(db, lane, day)| ==>
           Available(db, lane, day)[i].slot.start < Available(db, lane, day)[j].slot.start
  {
    RunInv(cfg, r, k);
    Conservation(r.states[k].db, lane, day);
    AvailableExact(r.states[k].db, lane, day);
  }

  /** Everything that claims a slot: committed active bookings and inserts in flight, by booking id. */
  function Claims(s: State, slot: Id): set<Id> {
    (set b | b in s.db.bookings && s.db.bookings[b].slot == slot && s.db.bookings[b].status.Active?)
    + (set c | c in s.sessions && s.sessions[c].pc.CreateCommit? && s.sessions[c].pc.slot == slot :: s.sessions[c].pc.booking)
  }

  /** No slot is ever claimed twice, by committed bookings or by inserts in flight. */
  lemma NeverDoubleBooked(cfg: Config, r: Run, k: nat, slot: Id)
    requires IsRun(cfg, r) && k < |r.states|
    ensures |Claims(r.states[k], slot)| <= 1
    ensures forall c, d | c in r.states[k].sessions && d in r.states[k].sessions && c != d ::
      !(HoldsInsert(r.states[k], c, slot) && HoldsInsert(r.states[k], d, slot))
  {
    var s := r.states[k];
    RunInv(cfg, r, k);
    forall c, d | c in s.sessions && d in s.sessions && c != d
      ensures !(HoldsInsert(s, c, slot) && HoldsInsert(s, d, slot))
    {
      assert Apart(s.sessions[c].pc, s.sessions[d].pc);
    }
    forall a, b | a in Claims(s, slot) && b in Claims(s, slot) ensures a == b {
      if a !in s.db.bookings {
        var c :| c in s.sessions && s.sessions[c].pc.CreateCommit? && s.sessions[c].pc.slot == slot && s.sessions[c].pc.booking == a;
        assert SessionOk(s.db, s.sessions[c].pc);
        if b !in s.db.bookings {
          var d :| d in s.sessions && s.sessions[d].pc.CreateCommit? && s.sessions[d].pc.slot == slot && s.sessions[d].pc.booking == b;
          assert c != d ==> Apart(s.sessions[c].pc, s.sessions[d].pc);
        } else {
          InFlightUncommitted(s, b);
        }
      } else {
        InFlightUncommitted(s, a);
        if b in s.db.bookings {
          InFlightUncommitted(s, b);
        }
      }
    }
    AtMostOne(Claims(s, slot));
  }

  predicate HoldsInsert(s: State, c: Id, slot: Id)
    requires c in s.sessions
  {
    s.sessions[c].pc.CreateCommit? && s.sessions[c].pc.slot == slot
  }

  lemma InFlightUncommitted(s: State, b: Id)
    requires BookingInv(s) && b in s.db.bookings
    ensures forall c :: c in s.sessions && s.sessions[c].pc.CreateCommit? ==> s.sessions[c].pc.booking != b
  {
    forall c | c in s.sessions && s.sessions[c].pc.CreateCommit? ensures s.sessions[c].pc.booking != b {
      assert SessionOk(s.db, s.sessions[c].pc);
    }
  }

  lemma AtMostOne(ids: set<Id>)
    requires forall a, b :: a in ids && b in ids ==> a == b
    ensures |ids| <= 1
  {
    if ids != {} {
      var a :| a in ids;
      assert ids == {a};
    }
  }
}
