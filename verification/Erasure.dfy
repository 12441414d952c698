/**
 The cache never touches the tables: every run with it is a run without it, once its steps are
 deleted. A reader that misses stays, calling at the moment of the miss; only hits disappear.
 */
module Erasure {
  import opened Prelude
  import opened Models
  import opened Tables
  import opened Scheduling
  import opened Cache
  import opened Engine

  /** Positions before a lookup, a fill or an invalidation do not exist without the cache. */
  function ErasePc(pc: Pc): Pc {
    if pc.ReadCache? || pc.ReadFill? || pc.CreateInvalidate? || pc.CancelInvalidate? then Idle else pc
  }

  /** A reader that has queried, and a committed call still to invalidate, have their answer already. */
  function Pending(pc: Pc): seq<Answer> {
    match pc
    case ReadFill(_, rows) => [Listing(rows, false)]
    case CreateInvalidate(_, booking) => [BookingMade(booking)]
    case CancelInvalidate(_, booking) => [BookingCancelled(booking)]
    case _ => []
  }

  predicate IsHit(a: Answer) {
    a.Listing? && a.hit
  }

  /** The answers that do not come from the cache. */
  function WithoutHits(answers: seq<Answer>): seq<Answer> {
    if answers == [] then [] else
      var last := answers[|answers| - 1];
      WithoutHits(answers[..|answers| - 1]) + (if IsHit(last) then [] else [last])
  }

  function EraseSession(x: Session): Session {
    Session(ErasePc(x.pc), WithoutHits(x.answers) + Pending(x.pc))
  }

  /** The cache-free service's view of a state: the same tables and clock. */
  function Erase(s: State): State {
    State(s.db, map[], map c | c in s.sessions :: EraseSession(s.sessions[c]), s.now)
  }

  function Uncached(cfg: Config): Config {
    cfg.(cached := false)
  }

  predicate IsCacheStep(pc: Pc) {
    pc.ReadFill? || pc.CreateInvalidate? || pc.CancelInvalidate?
  }

  /** The event without the cache: a miss becomes the reader's call, a step of the cache alone is `None`. */
  function EraseEvent(s: State, e: Event): Option<Event> {
    match e
    case Evict(_) => None
    case Call(_, request) => if request.ListSlots? then None else Some(e)
    case Go(c, ch) =>
      if c !in s.sessions then Some(e)
      else if IsCacheStep(s.sessions[c].pc) then None
      else if s.sessions[c].pc.ReadCache? then
        var key := s.sessions[c].pc.key;
        (if ch.reached && Lookup(s.cache, key, s.now).Some? then None else Some(Call(c, ListSlots(key))))
      else Some(e)
    case _ => Some(e)
  }

  lemma WithoutHitsSnoc(answers: seq<Answer>, a: Answer)
    ensures WithoutHits(answers + [a]) == WithoutHits(answers) + (if IsHit(a) then [] else [a])
  {
    assert (answers + [a])[..|answers|] == answers;
  }

  // ---- Locks look the same ----

  lemma SlotLockErased(s: State, c: Id, slot: Id)
    ensures SlotHeld(Erase(s), c, slot) <==> SlotHeld(s, c, slot)
  {
    var x := Erase(s);
    if SlotHeld(s, c, slot) {
      var d :| d in s.sessions && d != c && HoldsSlot(s.sessions[d].pc, s.db.bookings, slot);
      assert x.sessions[d].pc == s.sessions[d].pc;
    }
    if SlotHeld(x, c, slot) {
      var d :| d in x.sessions && d != c && HoldsSlot(x.sessions[d].pc, x.db.bookings, slot);
      assert x.sessions[d].pc == s.sessions[d].pc;
    }
  }

  lemma IdLockErased(s: State, id: Id)
    ensures BookingIdHeld(Erase(s), id) <==> BookingIdHeld(s, id)
  {
    var x := Erase(s);
    if BookingIdHeld(s, id) {
      var d :| d in s.sessions && s.sessions[d].pc.CreateCommit? && s.sessions[d].pc.booking == id;
      assert x.sessions[d].pc == s.sessions[d].pc;
    }
    if BookingIdHeld(x, id) {
      var d :| d in x.sessions && x.sessions[d].pc.CreateCommit? && x.sessions[d].pc.booking == id;
      assert x.sessions[d].pc == s.sessions[d].pc;
    }
  }

  lemma RowLockErased(s: State, c: Id, b: Id)
    ensures RowHeld(Erase(s), c, b) <==> RowHeld(s, c, b)
  {
    var x := Erase(s);
    if RowHeld(s, c, b) {
      var d :| d in s.sessions && d != c && s.sessions[d].pc.CancelCommit? && s.sessions[d].pc.booking == b;
      assert x.sessions[d].pc == s.sessions[d].pc;
    }
    if RowHeld(x, c, b) {
      var d :| d in x.sessions && d != c && x.sessions[d].pc.CancelCommit? && x.sessions[d].pc.booking == b;
      assert x.sessions[d].pc == s.sessions[d].pc;
    }
  }

  lemma LaneLockErased(s: State, c: Id, l: Id)
    ensures LaneHeld(Erase(s), c, l) <==> LaneHeld(s, c, l)
  {
    var x := Erase(s);
    if LaneHeld(s, c, l) {
      var d :| d in s.sessions && d != c && HoldsLane(s.sessions[d].pc, l);
      assert x.sessions[d].pc == s.sessions[d].pc;
    }
    if LaneHeld(x, c, l) {
      var d :| d in x.sessions && d != c && HoldsLane(x.sessions[d].pc, l);
      assert x.sessions[d].pc == s.sessions[d].pc;
    }
  }

  // ---- One step ----

  /** Replacing one session. */
  lemma EraseUpdate(s: State, c: Id, x: Session)
    requires c in s.sessions
    ensures Erase(s.(sessions := s.sessions[c := x])) == Erase(s).(sessions := Erase(s).sessions[c := EraseSession(x)])
  {
    assert Erase(s.(sessions := s.sessions[c := x])).sessions == Erase(s).sessions[c := EraseSession(x)];
  }

  /** A change that erasure does not see. */
  lemma EraseSame(s: State, t: State, c: Id)
    requires c in s.sessions && OnlyClient(s, t, c) && t.db == s.db
    requires EraseSession(t.sessions[c]) == EraseSession(s.sessions[c])
    ensures Erase(t) == Erase(s)
  {
    assert Erase(t).sessions == Erase(s).sessions;
  }

  /** Entering a position that both services have. */
  lemma EraseEnter(s: State, c: Id, pc: Pc)
    requires c in s.sessions && Pending(s.sessions[c].pc) == [] && Pending(pc) == [] && ErasePc(pc) == pc
    ensures Erase(Enter(s, c, pc)) == Enter(Erase(s), c, pc)
  {
    EraseUpdate(s, c, Session(pc, s.sessions[c].answers));
  }

  lemma EraseReply(s: State, c: Id, a: Answer)
    requires c in s.sessions && Pending(s.sessions[c].pc) == [] && !IsHit(a)
    ensures Erase(Reply(s, c, a)) == Reply(Erase(s), c, a)
  {
    var answers := s.sessions[c].answers;
    WithoutHitsSnoc(answers, a);
    EraseUpdate(s, c, Session(Idle, answers + [a]));
    assert WithoutHits(answers) + [] == WithoutHits(answers);
    assert WithoutHits(answers + [a]) + [] == WithoutHits(answers) + [a];
  }

  /** A commit followed by an invalidation answers at the commit. */
  lemma EraseCommit(s: State, c: Id, pc: Pc, a: Answer)
    requires c in s.sessions && Pending(s.sessions[c].pc) == [] && Pending(pc) == [a] && ErasePc(pc) == Idle
    ensures Erase(Enter(s, c, pc)) == Reply(Erase(s), c, a)
  {
    EraseUpdate(s, c, Session(pc, s.sessions[c].answers));
    assert WithoutHits(s.sessions[c].answers) + [] == WithoutHits(s.sessions[c].answers);
  }

  /** The invalidation itself disappears. */
  lemma EraseInvalidate(s: State, t: State, c: Id, a: Answer)
    requires c in s.sessions && ErasePc(s.sessions[c].pc) == Idle && Pending(s.sessions[c].pc) == [a] && !IsHit(a)
    requires t == Reply(s, c, a).(cache := t.cache)
    ensures Erase(t) == Erase(s)
  {
    WithoutHitsSnoc(s.sessions[c].answers, a);
    assert WithoutHits(s.sessions[c].answers + [a]) + [] == WithoutHits(s.sessions[c].answers) + [a];
    EraseSame(s, t, c);
  }

  /** A reader's call, and a hit, disappear. */
  lemma EraseCall(s: State, c: Id, key: Key)
    requires c in s.sessions && s.sessions[c].pc.Idle?
    ensures Erase(Enter(s, c, ReadCache(key))) == Erase(s)
  {
    EraseSame(s, Enter(s, c, ReadCache(key)), c);
  }

  lemma EraseHit(s: State, c: Id, rows: seq<SlotRow>)
    requires c in s.sessions && s.sessions[c].pc.ReadCache?
    ensures Erase(Reply(s, c, Listing(rows, true))) == Erase(s)
  {
    WithoutHitsSnoc(s.sessions[c].answers, Listing(rows, true));
    assert WithoutHits(s.sessions[c].answers) + [] == WithoutHits(s.sessions[c].answers);
    EraseSame(s, Reply(s, c, Listing(rows, true)), c);
  }

  /** The lookup: a hit disappears, a miss is the call. */
  lemma LookupErased(cfg: Config, s: State, c: Id, ch: Choice, t: State)
    requires cfg.cached && cfg.duration > 0 && c in s.sessions && s.sessions[c].pc.ReadCache? && StepRead(cfg, s, c, ch) == Some(t)
    ensures match EraseEvent(s, Go(c, ch))
      case None => Erase(t) == Erase(s)
      case Some(e) => Next(Uncached(cfg), Erase(s), e) == Some(Erase(t))
  {
    var key := s.sessions[c].pc.key;
    if ch.reached && Lookup(s.cache, key, s.now).Some? {
      EraseHit(s, c, Lookup(s.cache, key, s.now).value);
    } else {
      MissErased(cfg, s, c, key);
    }
  }

  lemma MissErased(cfg: Config, s: State, c: Id, key: Key)
    requires cfg.duration > 0 && c in s.sessions && s.sessions[c].pc.ReadCache?
    ensures Next(Uncached(cfg), Erase(s), Call(c, ListSlots(key))) == Some(Erase(Enter(s, c, ReadLane(key))))
  {
    EraseEnter(s, c, ReadLane(key));
  }

  /** The lane check and the query stay, the query now answering. */
  lemma ReadErased(cfg: Config, s: State, c: Id, ch: Choice, t: State)
    requires cfg.cached && c in s.sessions && (s.sessions[c].pc.ReadLane? || s.sessions[c].pc.ReadQuery?) && StepRead(cfg, s, c, ch) == Some(t)
    ensures StepRead(Uncached(cfg), Erase(s), c, ch) == Some(Erase(t))
  {
    if s.sessions[c].pc.ReadQuery? {
      QueryErased(cfg, s, c, ch, t);
    } else if s.sessions[c].pc.key.lane !in s.db.lanes {
      EraseReply(s, c, ListingNoLane);
    } else {
      EraseEnter(s, c, ReadQuery(s.sessions[c].pc.key));
    }
  }

  lemma QueryErased(cfg: Config, s: State, c: Id, ch: Choice, t: State)
    requires cfg.cached && c in s.sessions && s.sessions[c].pc.ReadQuery? && StepRead(cfg, s, c, ch) == Some(t)
    ensures StepRead(Uncached(cfg), Erase(s), c, ch) == Some(Erase(t))
  {
    var key := s.sessions[c].pc.key;
    var rows := Available(s.db, key.lane, key.day);
    EraseCommit(s, c, ReadFill(key, rows), Listing(rows, false));
  }

  lemma CreateErased(cfg: Config, s: State, c: Id, ch: Choice, t: State)
    requires cfg.cached && c in s.sessions && InCreate(s.sessions[c].pc) && !s.sessions[c].pc.CreateInvalidate?
    requires StepCreate(cfg, s, c, ch) == Some(t)
    ensures StepCreate(Uncached(cfg), Erase(s), c, ch) == Some(Erase(t))
  {
    match s.sessions[c].pc
    case CreateGet(user, slot) =>
      if slot !in s.db.slots {
        EraseReply(s, c, SlotMissing);
      } else {
        EraseEnter(s, c, CreateInsert(user, slot, s.db.slots[slot], s.now));
      }
    case CreateInsert(_, _, _, _) => CreateInsertErased(cfg, s, c, ch, t);
    case CreateCommit(user, slot, row, booking, at) =>
      var s1 := s.(db := s.db.(bookings := s.db.bookings[booking := Booking(user, slot, Active, at)]));
      EraseCommit(s1, c, CreateInvalidate(SlotKey(row), booking), BookingMade(booking));
  }

  lemma CreateInsertErased(cfg: Config, s: State, c: Id, ch: Choice, t: State)
    requires cfg.cached && c in s.sessions && s.sessions[c].pc.CreateInsert? && StepCreate(cfg, s, c, ch) == Some(t)
    ensures StepCreate(Uncached(cfg), Erase(s), c, ch) == Some(Erase(t))
  {
    var pc := s.sessions[c].pc;
    SlotLockErased(s, c, pc.slot);
    IdLockErased(s, ch.ids[0]);
    match InsertBooking(s.db, ch.ids[0], pc.user, pc.slot, pc.since) {
      case Err(e) => EraseReply(s, c, if WrapDBError(e) == Conflict then SlotTaken else Failed);
      case Ok(_) => EraseEnter(s, c, CreateCommit(pc.user, pc.slot, pc.row, ch.ids[0], pc.since));
    }
  }

  lemma CancelErased(cfg: Config, s: State, c: Id, ch: Choice, t: State)
    requires cfg.cached && c in s.sessions && InCancel(s.sessions[c].pc) && !s.sessions[c].pc.CancelInvalidate?
    requires StepCancel(cfg, s, c, ch) == Some(t)
    ensures StepCancel(Uncached(cfg), Erase(s), c, ch) == Some(Erase(t))
  {
    match s.sessions[c].pc
    case CancelGet(_, _) => CancelGetErased(cfg, s, c, ch, t);
    case CancelSlot(user, booking, slot) =>
      if slot !in s.db.slots {
        EraseReply(s, c, Failed);
      } else {
        EraseEnter(s, c, CancelUpdate(user, booking, s.db.slots[slot]));
      }
    case CancelUpdate(user, booking, row) =>
      RowLockErased(s, c, booking);
      EraseEnter(s, c, CancelCommit(user, booking, row));
    case CancelCommit(user, booking, row) =>
      EraseCommit(s.(db := CancelBooking(s.db, booking)), c, CancelInvalidate(SlotKey(row), booking), BookingCancelled(booking));
  }

  lemma CancelGetErased(cfg: Config, s: State, c: Id, ch: Choice, t: State)
    requires cfg.cached && c in s.sessions && s.sessions[c].pc.CancelGet? && StepCancel(cfg, s, c, ch) == Some(t)
    ensures StepCancel(Uncached(cfg), Erase(s), c, ch) == Some(Erase(t))
  {
    var user, booking := s.sessions[c].pc.user, s.sessions[c].pc.booking;
    if booking !in s.db.bookings {
      EraseReply(s, c, BookingMissing);
    } else if s.db.bookings[booking].user != user {
      EraseReply(s, c, NotOwner);
    } else if s.db.bookings[booking].status.Cancelled? {
      EraseReply(s, c, BookingCancelled(booking));
    } else {
      EraseEnter(s, c, CancelSlot(user, booking, s.db.bookings[booking].slot));
    }
  }

  lemma ScheduleErased(cfg: Config, s: State, c: Id, ch: Choice, t: State)
    requires cfg.duration > 0 && c in s.sessions && InSchedule(s.sessions[c].pc) && StepSchedule(cfg, s, c, ch) == Some(t)
    ensures StepSchedule(Uncached(cfg), Erase(s), c, ch) == Some(Erase(t))
  {
    match s.sessions[c].pc
    case ScheduleCheck(_) => ScheduleCheckErased(cfg, s, c, ch, t);
    case ScheduleInsert(req) =>
      LaneLockErased(s, c, req.lane);
      if InsertSchedule(s.db, req.lane, req.days, req.open.column, req.close.column).Err? {
        EraseReply(s, c, Failed);
      } else {
        EraseEnter(s, c, ScheduleBuild(req));
      }
    case ScheduleBuild(req) =>
      if InitialSlots(req, s.now, cfg.window, cfg.duration) == [] {
        EraseReply(s, c, Failed);
      } else {
        EraseEnter(s, c, ScheduleCommit(req, s.now));
      }
    case ScheduleCommit(req, at) =>
      ScheduleCommitErased(cfg, s, c, ch, t);
  }

  lemma ScheduleCheckErased(cfg: Config, s: State, c: Id, ch: Choice, t: State)
    requires cfg.duration > 0 && c in s.sessions && s.sessions[c].pc.ScheduleCheck? && StepSchedule(cfg, s, c, ch) == Some(t)
    ensures StepSchedule(Uncached(cfg), Erase(s), c, ch) == Some(Erase(t))
  {
    var req := s.sessions[c].pc.req;
    if req.lane !in s.db.lanes {
      EraseReply(s, c, NoLane);
    } else if req.lane in s.db.schedules {
      EraseReply(s, c, ScheduleExists);
    } else {
      EraseEnter(s, c, ScheduleInsert(req));
    }
  }

  lemma ScheduleCommitErased(cfg: Config, s: State, c: Id, ch: Choice, t: State)
    requires cfg.duration > 0 && c in s.sessions && s.sessions[c].pc.ScheduleCommit? && StepSchedule(cfg, s, c, ch) == Some(t)
    ensures StepSchedule(Uncached(cfg), Erase(s), c, ch) == Some(Erase(t))
  {
    var req, at := s.sessions[c].pc.req, s.sessions[c].pc.at;
    var raw := InsertSchedule(s.db, req.lane, req.days, req.open.column, req.close.column);
    if raw.Ok? && InsertSlots(raw.value, WithIds(ch.ids, InitialSlots(req, at, cfg.window, cfg.duration))).Ok? {
      EraseReply(s.(db := t.db), c, ScheduleMade);
    } else {
      EraseReply(s, c, Failed);
    }
  }

  lemma GenerateErased(cfg: Config, s: State, c: Id, ch: Choice, t: State)
    requires cfg.duration > 0 && c in s.sessions && StepGenerate(cfg, s, c, ch) == Some(t)
    ensures StepGenerate(Uncached(cfg), Erase(s), c, ch) == Some(Erase(t))
  {
    match s.sessions[c].pc
    case GenerateStart => EraseEnter(s, c, GenerateNext(s.db.lanes));
    case GenerateNext(rest) =>
      if rest == [] {
        EraseReply(s, c, GenerationOver);
      } else if rest[0] !in s.db.schedules {
        EraseEnter(s, c, GenerateNext(rest[1..]));
      } else {
        EraseEnter(s, c, GenerateBuild(rest[0], s.db.schedules[rest[0]], rest[1..]));
      }
    case GenerateBuild(lane, sch, rest) =>
      if BackgroundSlots(lane, sch, s.now, cfg.lookahead, cfg.duration) == [] {
        EraseEnter(s, c, GenerateNext(rest));
      } else {
        EraseEnter(s, c, GenerateInsert(lane, sch, s.now, rest));
      }
    case GenerateInsert(lane, sch, at, rest) =>
      GenerateInsertErased(cfg, s, c, ch, t);
  }

  lemma GenerateInsertErased(cfg: Config, s: State, c: Id, ch: Choice, t: State)
    requires cfg.duration > 0 && c in s.sessions && s.sessions[c].pc.GenerateInsert? && StepGenerate(cfg, s, c, ch) == Some(t)
    ensures StepGenerate(Uncached(cfg), Erase(s), c, ch) == Some(Erase(t))
  {
    var pc := s.sessions[c].pc;
    if InsertSlots(s.db, WithIds(ch.ids, BackgroundSlots(pc.lane, pc.sch, pc.at, cfg.lookahead, cfg.duration))).Ok? {
      EraseEnter(s.(db := t.db), c, GenerateNext(pc.rest));
    } else {
      EraseEnter(s, c, GenerateNext(pc.rest));
    }
  }

  lemma FaultErased(s: State, c: Id, t: State)
    requires c in s.sessions && StepFault(s, c) == Some(t)
    ensures StepFault(Erase(s), c) == Some(Erase(t))
  {
    match s.sessions[c].pc
    case GenerateStart => EraseReply(s, c, GenerationOver);
    case GenerateNext(rest) => EraseEnter(s, c, GenerateNext(rest[1..]));
    case GenerateInsert(_, _, _, rest) => EraseEnter(s, c, GenerateNext(rest));
    case ReadLane(_) => EraseReply(s, c, ListingFailed);
    case ReadQuery(_) => EraseReply(s, c, ListingFailed);
    case _ => EraseReply(s, c, Failed);
  }

  lemma CallErased(cfg: Config, s: State, c: Id, request: Request)
    requires cfg.cached && c in s.sessions && s.sessions[c].pc == Idle
    ensures request.ListSlots? ==> Erase(Begin(cfg, s, c, request)) == Erase(s)
    ensures !request.ListSlots? ==> Erase(Begin(cfg, s, c, request)) == Begin(Uncached(cfg), Erase(s), c, request)
  {
    match request
    case ListSlots(key) => EraseCall(s, c, key);
    case CreateBooking(user, slot) => EraseEnter(s, c, CreateGet(user, slot));
    case CancelBookingOf(user, booking) => EraseEnter(s, c, CancelGet(user, booking));
    case MakeSchedule(req) =>
      EraseEnter(s, c, ScheduleCheck(req));
      EraseReply(s, c, RequestInvalid);
    case GenerateAll => EraseEnter(s, c, GenerateStart);
  }

  lemma GoErased(cfg: Config, s: State, c: Id, ch: Choice, t: State)
    requires cfg.cached && cfg.duration > 0 && c in s.sessions && StepGo(cfg, s, c, ch) == Some(t)
    ensures match EraseEvent(s, Go(c, ch))
      case None => Erase(t) == Erase(s)
      case Some(e) => Next(Uncached(cfg), Erase(s), e) == Some(Erase(t))
  {
    var pc := s.sessions[c].pc;
    if pc.ReadCache? {
      LookupErased(cfg, s, c, ch, t);
    } else if pc.ReadFill? {
      EraseInvalidate(s, t, c, Listing(pc.rows, false));
    } else if InRead(pc) {
      ReadErased(cfg, s, c, ch, t);
    } else if pc.CreateInvalidate? {
      EraseInvalidate(s, t, c, BookingMade(pc.booking));
    } else if pc.CancelInvalidate? {
      EraseInvalidate(s, t, c, BookingCancelled(pc.booking));
    } else if InCreate(pc) {
      CreateErased(cfg, s, c, ch, t);
    } else if InCancel(pc) {
      CancelErased(cfg, s, c, ch, t);
    } else if InSchedule(pc) {
      ScheduleErased(cfg, s, c, ch, t);
    } else {
      GenerateErased(cfg, s, c, ch, t);
    }
  }

  /** Each step is a step of the cache-free service, or nothing at all to it. */
  lemma StepErased(cfg: Config, s: State, e: Event, t: State)
    requires cfg.cached && cfg.duration > 0 && Next(cfg, s, e) == Some(t)
    ensures match EraseEvent(s, e)
      case None => Erase(t) == Erase(s)
      case Some(e1) => Next(Uncached(cfg), Erase(s), e1) == Some(Erase(t))
  {
    match e
    case Call(c, request) => CallErased(cfg, s, c, request);
    case Go(c, ch) => GoErased(cfg, s, c, ch, t);
    case Fault(c) => FaultErased(s, c, t);
    case _ =>
  }

  // ---- Whole runs ----

  /** The run without the cache. */
  function ErasedRun(r: Run, k: nat): Run
    requires k <= |r.events| && k < |r.states|
  {
    if k == 0 then Run([Erase(r.states[0])], []) else
      var before := ErasedRun(r, k - 1);
      match EraseEvent(r.states[k - 1], r.events[k - 1])
      case None => before
      case Some(e) => Run(before.states + [Erase(r.states[k])], before.events + [e])
  }

  /**
   Cache erasure: deleting lookups that hit, fills, invalidations and evictions from any interleaving,
   and letting a reader call when it misses, leaves a run of the service without a cache, which ends
   with the same tables and, for every client, the same answers but for hits (a committed call still
   to invalidate, and a reader still to fill, counting as answered).
   */
  lemma {:induction false} CacheErasure(cfg: Config, r: Run, k: nat)
    requires cfg.cached && IsRun(cfg, r) && k < |r.states|
    ensures var q := ErasedRun(r, k);
      IsRun(Uncached(cfg), q) && q.states[|q.states| - 1] == Erase(r.states[k])
  {
    if k == 0 {
      assert EraseSession(Session(Idle, [])) == Session(Idle, []);
      assert Erase(r.states[0]).sessions == r.states[0].sessions;
    } else {
      CacheErasure(cfg, r, k - 1);
      StepErased(cfg, r.states[k - 1], r.events[k - 1], r.states[k]);
      var before := ErasedRun(r, k - 1);
      match EraseEvent(r.states[k - 1], r.events[k - 1])
      case None =>
      case Some(e) =>
        ExtendRun(Uncached(cfg), before, e, Erase(r.states[k]));
    }
  }

  lemma ExtendRun(cfg: Config, r: Run, e: Event, t: State)
    requires IsRun(cfg, r) && Next(cfg, r.states[|r.states| - 1], e) == Some(t)
    ensures IsRun(cfg, Run(r.states + [t], r.events + [e]))
  {
    var q := Run(r.states + [t], r.events + [e]);
    forall i | 0 <= i < |q.events| ensures Next(cfg, q.states[i], q.events[i]) == Some(q.states[i + 1]) {
      if i < |r.events| {
        assert q.states[i] == r.states[i] && q.events[i] == r.events[i] && q.states[i + 1] == r.states[i + 1];
      }
    }
  }
}
