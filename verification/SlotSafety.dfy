/** What every interleaving keeps about schedules and slots, lane by lane. */
module SlotSafety {
  import opened Prelude
  import opened Calendar
  import opened Models
  import opened Grid
  import opened Tables
  import opened Scheduling
  import opened Windows
  import opened Engine
  import opened BookingSafety
  import TwoGrids

  // ---- Schedules ----

  /** What a client has read, or holds, about schedules is still so; clocks were read in the past. */
  predicate PcOk(cfg: Config, db: Db, pc: Pc, now: Time)
    requires cfg.duration > 0
  {
    && (HoldsRow(pc) ==> InOrder(pc.req) && WithSchedule(db, pc.req).Ok?)
    && (pc.ScheduleCommit? ==> pc.at <= now && InitialSlots(pc.req, pc.at, cfg.window, cfg.duration) != [])
    && (pc.GenerateBuild? || pc.GenerateInsert? ==> pc.lane in db.schedules && db.schedules[pc.lane] == pc.sch)
    && (pc.GenerateInsert? ==> pc.at <= now)
  }

  /** An uncommitted schedule row. */
  predicate HoldsRow(pc: Pc) {
    pc.ScheduleBuild? || pc.ScheduleCommit?
  }

  /** Two clients never hold the schedule row of one lane. */
  predicate LanesApart(p: Pc, q: Pc) {
    HoldsRow(p) && HoldsRow(q) ==> p.req.lane != q.req.lane
  }

  ghost predicate ScheduleInv(cfg: Config, s: State)
    requires cfg.duration > 0
  {
    && SlotsHaveSchedules(s.db)
    && (forall c :: c in s.sessions ==> PcOk(cfg, s.db, s.sessions[c].pc, s.now))
    && (forall c, d :: c in s.sessions && d in s.sessions && c != d ==> LanesApart(s.sessions[c].pc, s.sessions[d].pc))
  }

  /** The step is the commit of a schedule: the request is accepted. */
  predicate Accepts(s: State, e: Event) {
    e.Go? && e.client in s.sessions && s.sessions[e.client].pc.ScheduleCommit?
  }

  /** The request it accepts. */
  function Accepted(s: State, e: Event): ScheduleRequest
    requires Accepts(s, e)
  {
    s.sessions[e.client].pc.req
  }

  /** The step is the insert of a generator's batch. */
  predicate Inserts(s: State, e: Event) {
    e.Go? && e.client in s.sessions && s.sessions[e.client].pc.GenerateInsert?
  }

  predicate SameSlots(a: Db, b: Db) {
    b.slots == a.slots && b.schedules == a.schedules
  }

  // ---- What steps do to schedules and slots ----

  /** A row that can go in while no slot is on the lane takes its first window along. */
  lemma CommitAccepted(db: Db, req: ScheduleRequest, at: Time, n: nat, dur: int, ids: seq<Id>)
    requires dur > 0 && SlotsHaveSchedules(db) && InOrder(req) && WithSchedule(db, req).Ok?
    requires |ids| == |InitialSlots(req, at, n, dur)| && FreshIds(ids, db.slots)
    ensures var raw := InsertSlots(WithSchedule(db, req).value, WithIds(ids, InitialSlots(req, at, n, dur)));
      && raw.Ok? && raw.value == db.(schedules := db.schedules[req.lane := StoredSchedule(req)], slots := raw.value.slots)
      && Adds(db.slots, raw.value.slots, InitialSlots(req, at, n, dur))
  {
    var slots, db1 := InitialSlots(req, at, n, dur), WithSchedule(db, req).value;
    var batch := WithIds(ids, slots);
    WindowFitsBatch(db1, req.lane, InitialDays(req.days), RequestHours(req), DayOf(at), n, dur, batch);
    assert forall x :: x in slots ==> !StartTaken(db1.slots, req.lane, x.start);
    InsertSlotsExact(db1, batch);
    BatchAdds(db1, batch, slots);
  }

  /** What the commit of a schedule does. */
  ghost predicate CommitEffect(cfg: Config, s: State, c: Id, t: State)
    requires cfg.duration > 0 && c in s.sessions && s.sessions[c].pc.ScheduleCommit? && InOrder(s.sessions[c].pc.req)
  {
    var pc := s.sessions[c].pc;
    && t.db == s.db.(schedules := s.db.schedules[pc.req.lane := StoredSchedule(pc.req)], slots := t.db.slots)
    && Adds(s.db.slots, t.db.slots, InitialSlots(pc.req, pc.at, cfg.window, cfg.duration))
    && c in t.sessions && t.sessions[c] == Session(Idle, s.sessions[c].answers + [ScheduleMade])
  }

  lemma CommitStep(cfg: Config, s: State, c: Id, ch: Choice, t: State)
    requires cfg.duration > 0 && SlotsHaveSchedules(s.db) && c in s.sessions && s.sessions[c].pc.ScheduleCommit?
    requires PcOk(cfg, s.db, s.sessions[c].pc, s.now) && StepSchedule(cfg, s, c, ch) == Some(t)
    ensures CommitEffect(cfg, s, c, t)
  {
    var pc := s.sessions[c].pc;
    CommitAccepted(s.db, pc.req, pc.at, cfg.window, cfg.duration, ch.ids);
  }

  /** What the insert of a batch does. */
  ghost predicate InsertEffect(cfg: Config, s: State, c: Id, t: State)
    requires cfg.duration > 0 && c in s.sessions && s.sessions[c].pc.GenerateInsert?
  {
    var pc := s.sessions[c].pc;
    && t.db == s.db.(slots := t.db.slots)
    && (t.db.slots == s.db.slots
        || Adds(s.db.slots, t.db.slots, BackgroundSlots(pc.lane, pc.sch, pc.at, cfg.lookahead, cfg.duration)))
    && c in t.sessions && t.sessions[c].pc == GenerateNext(pc.rest)
  }

  lemma InsertStep(cfg: Config, s: State, c: Id, ch: Choice, t: State)
    requires cfg.duration > 0 && c in s.sessions && s.sessions[c].pc.GenerateInsert? && StepGenerate(cfg, s, c, ch) == Some(t)
    ensures InsertEffect(cfg, s, c, t)
  {
    var pc := s.sessions[c].pc;
    var slots := BackgroundSlots(pc.lane, pc.sch, pc.at, cfg.lookahead, cfg.duration);
    var batch := WithIds(ch.ids, slots);
    if InsertSlots(s.db, batch).Ok? {
      InsertSlotsExact(s.db, batch);
      BatchAdds(s.db, batch, slots);
    }
  }

  lemma BookingStepsSpareSlots(cfg: Config, s: State, c: Id, ch: Choice, t: State)
    requires cfg.duration > 0 && c in s.sessions && StepGo(cfg, s, c, ch) == Some(t)
    requires InCreate(s.sessions[c].pc) || InCancel(s.sessions[c].pc) || InRead(s.sessions[c].pc)
    ensures SameSlots(s.db, t.db)
    ensures t.sessions[c].pc.Idle? || InCreate(t.sessions[c].pc) || InCancel(t.sessions[c].pc) || InRead(t.sessions[c].pc)
  {
    var pc := s.sessions[c].pc;
    if InCreate(pc) {
      CreateSparesSlots(cfg, s, c, ch);
    } else if InCancel(pc) {
      CancelSparesSlots(cfg, s, c, ch);
    } else {
      ReadSparesSlots(cfg, s, c, ch);
    }
  }

  lemma CreateSparesSlots(cfg: Config, s: State, c: Id, ch: Choice)
    requires c in s.sessions
    ensures var t := StepCreate(cfg, s, c, ch);
      t.Some? ==> (SameSlots(s.db, t.value.db)
        && c in t.value.sessions && (t.value.sessions[c].pc.Idle? || InCreate(t.value.sessions[c].pc)))
  {
  }

  lemma CancelSparesSlots(cfg: Config, s: State, c: Id, ch: Choice)
    requires c in s.sessions
    ensures var t := StepCancel(cfg, s, c, ch);
      t.Some? ==> (SameSlots(s.db, t.value.db)
        && c in t.value.sessions && (t.value.sessions[c].pc.Idle? || InCancel(t.value.sessions[c].pc)))
  {
  }

  lemma ReadSparesSlots(cfg: Config, s: State, c: Id, ch: Choice)
    requires c in s.sessions
    ensures var t := StepRead(cfg, s, c, ch);
      t.Some? ==> (t.value.db == s.db
        && c in t.value.sessions && (t.value.sessions[c].pc.Idle? || InRead(t.value.sessions[c].pc)))
  {
  }

  lemma FaultPositions(s: State, c: Id, t: State)
    requires c in s.sessions && StepFault(s, c) == Some(t)
    ensures c in t.sessions && (t.sessions[c].pc.Idle? || t.sessions[c].pc.GenerateNext?)
  {
  }

  /** Schedules and slots change only at the commit of a schedule and at the insert of a batch. */
  lemma StepEffect(cfg: Config, s: State, e: Event, t: State)
    requires cfg.duration > 0 && ScheduleInv(cfg, s) && Next(cfg, s, e) == Some(t)
    ensures Accepts(s, e) ==> InOrder(Accepted(s, e)) && WithSchedule(s.db, Accepted(s, e)).Ok? && CommitEffect(cfg, s, e.client, t)
    ensures Inserts(s, e) ==> InsertEffect(cfg, s, e.client, t)
    ensures !Accepts(s, e) && !Inserts(s, e) ==> SameSlots(s.db, t.db)
  {
    StepFrame(cfg, s, e, t);
    if e.Go? {
      GoEffect(cfg, s, e.client, e.choice, t);
    }
  }

  lemma GoEffect(cfg: Config, s: State, c: Id, ch: Choice, t: State)
    requires cfg.duration > 0 && ScheduleInv(cfg, s) && c in s.sessions && StepGo(cfg, s, c, ch) == Some(t)
    ensures s.sessions[c].pc.ScheduleCommit? ==>
      InOrder(s.sessions[c].pc.req) && WithSchedule(s.db, s.sessions[c].pc.req).Ok? && CommitEffect(cfg, s, c, t)
    ensures s.sessions[c].pc.GenerateInsert? ==> InsertEffect(cfg, s, c, t)
    ensures !s.sessions[c].pc.ScheduleCommit? && !s.sessions[c].pc.GenerateInsert? ==> SameSlots(s.db, t.db)
  {
    var pc := s.sessions[c].pc;
    assert PcOk(cfg, s.db, pc, s.now);
    if pc.ScheduleCommit? {
      CommitStep(cfg, s, c, ch, t);
    } else if pc.GenerateInsert? {
      InsertStep(cfg, s, c, ch, t);
    } else if InCreate(pc) || InCancel(pc) || InRead(pc) {
      BookingStepsSpareSlots(cfg, s, c, ch, t);
    } else {
      FrameGo(cfg, s, c, ch);
    }
  }

  // ---- The invariant about schedules ----

  /** What a client that did not move knows stays so, as long as nobody took its lane. */
  lemma IdleOk(cfg: Config, a: Db, b: Db, pc: Pc, now: Time, later: Time)
    requires cfg.duration > 0 && PcOk(cfg, a, pc, now) && Evolves(a, b) && now <= later
    requires HoldsRow(pc) ==> pc.req.lane !in b.schedules
    ensures PcOk(cfg, b, pc, later)
  {
  }

  /** What the acting client knows afterwards. */
  lemma ActorOk(cfg: Config, s: State, e: Event, t: State, c: Id)
    requires cfg.duration > 0 && ScheduleInv(cfg, s) && Next(cfg, s, e) == Some(t) && ActsFor(e, c) && c in s.sessions
    ensures c in t.sessions && PcOk(cfg, t.db, t.sessions[c].pc, t.now)
  {
    StepFrame(cfg, s, e, t);
    assert PcOk(cfg, s.db, s.sessions[c].pc, s.now);
    match e
    case Call(_, request) => BeginPositions(cfg, s, c, request);
    case Fault(_) => FaultPositions(s, c, t);
    case Go(_, ch) => GoOk(cfg, s, c, ch, t);
  }

  lemma BeginPositions(cfg: Config, s: State, c: Id, request: Request)
    requires c in s.sessions
    ensures var pc := Begin(cfg, s, c, request).sessions[c].pc; !HoldsRow(pc) && !pc.GenerateBuild? && !pc.GenerateInsert?
  {
  }

  lemma GoOk(cfg: Config, s: State, c: Id, ch: Choice, t: State)
    requires cfg.duration > 0 && ScheduleInv(cfg, s) && c in s.sessions && StepGo(cfg, s, c, ch) == Some(t)
    ensures c in t.sessions && PcOk(cfg, t.db, t.sessions[c].pc, t.now)
  {
    var pc := s.sessions[c].pc;
    assert PcOk(cfg, s.db, pc, s.now);
    FrameGo(cfg, s, c, ch);
    if InCreate(pc) || InCancel(pc) || InRead(pc) {
      BookingStepsSpareSlots(cfg, s, c, ch, t);
    } else if InSchedule(pc) {
      ScheduleOk(cfg, s, c, ch, t);
    } else {
      GenerateOk(cfg, s, c, ch, t);
    }
  }

  lemma ScheduleOk(cfg: Config, s: State, c: Id, ch: Choice, t: State)
    requires cfg.duration > 0 && c in s.sessions && InSchedule(s.sessions[c].pc) && PcOk(cfg, s.db, s.sessions[c].pc, s.now)
    requires StepSchedule(cfg, s, c, ch) == Some(t)
    ensures c in t.sessions && PcOk(cfg, t.db, t.sessions[c].pc, t.now)
  {
  }

  lemma GenerateOk(cfg: Config, s: State, c: Id, ch: Choice, t: State)
    requires cfg.duration > 0 && c in s.sessions && PcOk(cfg, s.db, s.sessions[c].pc, s.now)
    requires StepGenerate(cfg, s, c, ch) == Some(t)
    ensures c in t.sessions && PcOk(cfg, t.db, t.sessions[c].pc, t.now)
  {
  }

  /** A lane's schedule row is taken only from nobody. */
  lemma ActorApart(cfg: Config, s: State, e: Event, t: State, c: Id, d: Id)
    requires cfg.duration > 0 && ScheduleInv(cfg, s) && Next(cfg, s, e) == Some(t) && ActsFor(e, c)
    requires c in s.sessions && d in s.sessions && c != d && c in t.sessions
    ensures LanesApart(t.sessions[c].pc, s.sessions[d].pc) && LanesApart(s.sessions[d].pc, t.sessions[c].pc)
  {
    var was, pc := s.sessions[c].pc, t.sessions[c].pc;
    assert LanesApart(was, s.sessions[d].pc);
    if HoldsRow(pc) {
      RowTaken(cfg, s, e, t, c);
      if !HoldsRow(was) {
        assert !HoldsLane(s.sessions[d].pc, pc.req.lane);
      }
    }
  }

  /** Who holds a row held it before, or has just found it held by nobody. */
  lemma RowTaken(cfg: Config, s: State, e: Event, t: State, c: Id)
    requires cfg.duration > 0 && Next(cfg, s, e) == Some(t) && ActsFor(e, c) && c in s.sessions && c in t.sessions
    requires HoldsRow(t.sessions[c].pc)
    ensures (HoldsRow(s.sessions[c].pc) && s.sessions[c].pc.req == t.sessions[c].pc.req)
            || (!HoldsRow(s.sessions[c].pc) && !LaneHeld(s, c, t.sessions[c].pc.req.lane))
  {
    match e
    case Call(_, request) => BeginPositions(cfg, s, c, request);
    case Fault(_) => FaultPositions(s, c, t);
    case Go(_, ch) =>
      if InSchedule(s.sessions[c].pc) {
        ScheduleRowTaken(cfg, s, c, ch, t);
      } else {
        OthersTakeNoRow(cfg, s, ch, c, t);
      }
  }

  lemma ScheduleRowTaken(cfg: Config, s: State, c: Id, ch: Choice, t: State)
    requires cfg.duration > 0 && c in s.sessions && InSchedule(s.sessions[c].pc) && StepSchedule(cfg, s, c, ch) == Some(t)
    requires c in t.sessions && HoldsRow(t.sessions[c].pc)
    ensures (HoldsRow(s.sessions[c].pc) && s.sessions[c].pc.req == t.sessions[c].pc.req)
            || (!HoldsRow(s.sessions[c].pc) && !LaneHeld(s, c, t.sessions[c].pc.req.lane))
  {
  }

  lemma OthersTakeNoRow(cfg: Config, s: State, ch: Choice, c: Id, t: State)
    requires cfg.duration > 0 && c in s.sessions && StepGo(cfg, s, c, ch) == Some(t) && c in t.sessions && !InSchedule(s.sessions[c].pc)
    ensures !HoldsRow(t.sessions[c].pc)
  {
  }

  /** Slots stay on lanes with a schedule. */
  lemma StepKeepsHome(cfg: Config, s: State, e: Event, t: State)
    requires cfg.duration > 0 && ScheduleInv(cfg, s) && Next(cfg, s, e) == Some(t)
    ensures SlotsHaveSchedules(t.db)
  {
    StepEffect(cfg, s, e, t);
    if Accepts(s, e) {
      var pc := s.sessions[e.client].pc;
      WindowLane(pc.req.lane, InitialDays(pc.req.days), RequestHours(pc.req), DayOf(pc.at), cfg.window, cfg.duration);
      AddedHome(s.db, t.db, InitialSlots(pc.req, pc.at, cfg.window, cfg.duration), pc.req.lane);
    } else if Inserts(s, e) {
      var pc := s.sessions[e.client].pc;
      assert PcOk(cfg, s.db, pc, s.now);
      WindowLane(pc.lane, BackgroundDays(pc.sch.days), StoredHours(pc.sch.hours), DayOf(pc.at), cfg.lookahead, cfg.duration);
      if t.db.slots != s.db.slots {
        AddedHome(s.db, t.db, BackgroundSlots(pc.lane, pc.sch, pc.at, cfg.lookahead, cfg.duration), pc.lane);
      }
    }
  }

  lemma AddedHome(a: Db, b: Db, added: seq<Slot>, lane: Id)
    requires SlotsHaveSchedules(a) && Adds(a.slots, b.slots, added) && forall x :: x in added ==> x.lane == lane
    requires lane in b.schedules && forall l :: l in a.schedules ==> l in b.schedules
    ensures SlotsHaveSchedules(b)
  {
    forall i | i in b.slots ensures b.slots[i].lane in b.schedules {
      if i in a.slots {
        assert b.slots[i] == a.slots[i];
      }
    }
  }

  /** The sessions nobody stepped. */
  lemma OthersOk(cfg: Config, s: State, e: Event, t: State, d: Id)
    requires cfg.duration > 0 && BookingInv(s) && ScheduleInv(cfg, s) && Next(cfg, s, e) == Some(t) && d in s.sessions && !ActsFor(e, d)
    ensures d in t.sessions && PcOk(cfg, t.db, t.sessions[d].pc, t.now)
  {
    StepFrame(cfg, s, e, t);
    StepKeeps(cfg, s, e, t);
    StepEffect(cfg, s, e, t);
    var pc := s.sessions[d].pc;
    assert PcOk(cfg, s.db, pc, s.now);
    if Accepts(s, e) {
      assert LanesApart(s.sessions[e.client].pc, pc);
    }
    IdleOk(cfg, s.db, t.db, pc, s.now, t.now);
  }

  lemma StepKeepsSchedules(cfg: Config, s: State, e: Event, t: State)
    requires cfg.duration > 0 && BookingInv(s) && ScheduleInv(cfg, s) && Next(cfg, s, e) == Some(t)
    ensures ScheduleInv(cfg, t)
  {
    StepFrame(cfg, s, e, t);
    StepKeepsHome(cfg, s, e, t);
    forall c | c in t.sessions ensures PcOk(cfg, t.db, t.sessions[c].pc, t.now) {
      if ActsFor(e, c) {
        ActorOk(cfg, s, e, t, c);
      } else {
        OthersOk(cfg, s, e, t, c);
      }
    }
    forall c, d | c in t.sessions && d in t.sessions && c != d ensures LanesApart(t.sessions[c].pc, t.sessions[d].pc) {
      if ActsFor(e, c) {
        ActorApart(cfg, s, e, t, c, d);
      } else if ActsFor(e, d) {
        ActorApart(cfg, s, e, t, d, c);
      } else {
        assert LanesApart(s.sessions[c].pc, s.sessions[d].pc);
      }
    }
  }

  /** In every run slots are on lanes with a schedule, and an uncommitted schedule row can still go in. */
  lemma {:induction false} RunScheduleInv(cfg: Config, r: Run, k: nat)
    requires IsRun(cfg, r) && k < |r.states|
    ensures ScheduleInv(cfg, r.states[k])
  {
    if k > 0 {
      RunScheduleInv(cfg, r, k - 1);
      RunInv(cfg, r, k - 1);
      StepKeepsSchedules(cfg, r.states[k - 1], r.events[k - 1], r.states[k]);
    }
  }

  /**
   A schedule transaction that reached its slot insert is refused by no constraint, in any
   interleaving: it stores the schedule and exactly its first window, and answers success.
   */
  lemma ScheduleCommitSucceeds(cfg: Config, r: Run, k: nat, c: Id, ch: Choice)
    requires IsRun(cfg, r) && k < |r.events| && r.events[k] == Go(c, ch)
    requires c in r.states[k].sessions && r.states[k].sessions[c].pc.ScheduleCommit?
    ensures var s, t, pc := r.states[k], r.states[k + 1], r.states[k].sessions[c].pc;
      && InOrder(pc.req) && pc.req.lane in s.db.lanes && pc.req.lane !in s.db.schedules
      && t.db == s.db.(schedules := s.db.schedules[pc.req.lane := StoredSchedule(pc.req)], slots := t.db.slots)
      && Adds(s.db.slots, t.db.slots, InitialSlots(pc.req, pc.at, cfg.window, cfg.duration))
      && t.sessions[c].answers == s.sessions[c].answers + [ScheduleMade]
  {
    RunScheduleInv(cfg, r, k);
    StepEffect(cfg, r.states[k], r.events[k], r.states[k + 1]);
  }

  /** Throughout any run an uncommitted schedule row is on a lane that exists and has no schedule. */
  lemma HeldLaneExists(cfg: Config, r: Run, k: nat, c: Id)
    requires IsRun(cfg, r) && k < |r.states| && c in r.states[k].sessions && HoldsRow(r.states[k].sessions[c].pc)
    ensures var lane := r.states[k].sessions[c].pc.req.lane; lane in r.states[k].db.lanes && lane !in r.states[k].db.schedules
  {
    RunScheduleInv(cfg, r, k);
    assert PcOk(cfg, r.states[k].db, r.states[k].sessions[c].pc, r.states[k].now);
  }

  // ---- Lanes without holes ----

  /** An accepted request for the lane lays a first grid that holds every slot the later ones will want. */
  predicate CoveringStep(s: State, e: Event, lane: Id, dur: int)
    requires dur > 0
  {
    Accepts(s, e) && Accepted(s, e).lane == lane ==> TwoGrids.CoveringRequest(Accepted(s, e), dur)
  }

  /** The requests the run accepts for the lane do so. */
  ghost predicate CoveringLane(r: Run, lane: Id, dur: int)
    requires dur > 0 && |r.states| == |r.events| + 1
  {
    forall k :: 0 <= k < |r.events| ==> CoveringStep(r.states[k], r.events[k], lane, dur)
  }

  /** The lane's touched due days are full, and so is every due day from today up to the last of them. */
  ghost predicate LaneInv(cfg: Config, s: State, lane: Id)
    requires cfg.duration > 0
  {
    lane in s.db.schedules ==>
      TouchedFull(s.db.slots, lane, s.db.schedules[lane], cfg.duration)
      && NoHoles(s.db.slots, lane, s.db.schedules[lane], DayOf(s.now), cfg.duration)
  }

  /** The commit of the lane's own schedule. */
  lemma OwnCommitKeeps(cfg: Config, s: State, e: Event, t: State)
    requires cfg.duration > 0 && ScheduleInv(cfg, s) && Next(cfg, s, e) == Some(t) && Accepts(s, e)
    requires TwoGrids.CoveringRequest(Accepted(s, e), cfg.duration)
    ensures LaneInv(cfg, t, Accepted(s, e).lane)
  {
    var pc := s.sessions[e.client].pc;
    var req := pc.req;
    StepEffect(cfg, s, e, t);
    StepFrame(cfg, s, e, t);
    assert PcOk(cfg, s.db, pc, s.now);
    FirstWindowFull(s.db.slots, t.db.slots, req, DayOf(pc.at), cfg.window, cfg.duration, DayOf(t.now));
  }

  lemma FirstWindowFull(before: map<Id, Slot>, after: map<Id, Slot>, req: ScheduleRequest, first: int, n: nat, dur: int, today: int)
    requires dur > 0 && InOrder(req) && TwoGrids.CoveringRequest(req, dur) && first <= today
    requires forall i :: i in before ==> before[i].lane != req.lane
    requires Adds(before, after, WindowSlots(req.lane, InitialDays(req.days), RequestHours(req), first, n, dur))
    ensures TouchedFull(after, req.lane, StoredSchedule(req), dur) && NoHoles(after, req.lane, StoredSchedule(req), today, dur)
  {
    var g, h := RequestHours(req), TwoGrids.ColumnHours(req);
    forall d, x | x in DayGrid(req.lane, h, d, dur) ensures x in DayGrid(req.lane, g, d, dur) {
      TwoGrids.CoversExactly(req.lane, d, g, h, dur);
    }
    FirstBatchKeeps(before, after, req.lane, g, StoredSchedule(req), first, n, dur, today);
  }

  /** A commit on another lane. */
  lemma OtherCommitKeeps(cfg: Config, s: State, e: Event, t: State, lane: Id)
    requires cfg.duration > 0 && ScheduleInv(cfg, s) && Next(cfg, s, e) == Some(t) && Accepts(s, e)
    requires Accepted(s, e).lane != lane && LaneInv(cfg, s, lane)
    ensures LaneInv(cfg, t, lane)
  {
    var pc := s.sessions[e.client].pc;
    StepEffect(cfg, s, e, t);
    StepFrame(cfg, s, e, t);
    if lane in s.db.schedules {
      WindowLane(pc.req.lane, InitialDays(pc.req.days), RequestHours(pc.req), DayOf(pc.at), cfg.window, cfg.duration);
      OtherLaneKeeps(s.db.slots, t.db.slots, InitialSlots(pc.req, pc.at, cfg.window, cfg.duration), lane, s.db.schedules[lane],
                     cfg.duration, DayOf(s.now));
    }
  }

  /** A generator's batch, on this lane or another. */
  lemma InsertKeeps(cfg: Config, s: State, e: Event, t: State, lane: Id)
    requires cfg.duration > 0 && Consistent(s.db) && ScheduleInv(cfg, s) && Next(cfg, s, e) == Some(t) && Inserts(s, e) && LaneInv(cfg, s, lane)
    ensures LaneInv(cfg, t, lane)
  {
    var pc := s.sessions[e.client].pc;
    var slots := BackgroundSlots(pc.lane, pc.sch, pc.at, cfg.lookahead, cfg.duration);
    StepEffect(cfg, s, e, t);
    StepFrame(cfg, s, e, t);
    assert PcOk(cfg, s.db, pc, s.now);
    if lane in s.db.schedules && t.db.slots != s.db.slots {
      if pc.lane == lane {
        DueBatchKeeps(s.db.slots, t.db.slots, lane, pc.sch, DayOf(pc.at), cfg.lookahead, cfg.duration, DayOf(s.now));
      } else {
        WindowLane(pc.lane, BackgroundDays(pc.sch.days), StoredHours(pc.sch.hours), DayOf(pc.at), cfg.lookahead, cfg.duration);
        OtherLaneKeeps(s.db.slots, t.db.slots, slots, lane, s.db.schedules[lane], cfg.duration, DayOf(s.now));
      }
    }
  }

  lemma StepKeepsLane(cfg: Config, s: State, e: Event, t: State, lane: Id)
    requires cfg.duration > 0 && BookingInv(s) && ScheduleInv(cfg, s) && Next(cfg, s, e) == Some(t)
    requires LaneInv(cfg, s, lane) && CoveringStep(s, e, lane, cfg.duration)
    ensures LaneInv(cfg, t, lane)
  {
    if Accepts(s, e) {
      if Accepted(s, e).lane == lane {
        OwnCommitKeeps(cfg, s, e, t);
      } else {
        OtherCommitKeeps(cfg, s, e, t, lane);
      }
    } else if Inserts(s, e) {
      InsertKeeps(cfg, s, e, t, lane);
    } else {
      StepEffect(cfg, s, e, t);
      StepFrame(cfg, s, e, t);
      if lane in s.db.schedules {
        LaterKeepsNoHoles(s.db.slots, lane, s.db.schedules[lane], DayOf(s.now), DayOf(t.now), cfg.duration);
      }
    }
  }

  /** Every reachable state keeps a covering lane free of holes, whatever happens on other lanes. */
  lemma {:induction false} RunLaneInv(cfg: Config, r: Run, k: nat, lane: Id)
    requires IsRun(cfg, r) && CoveringLane(r, lane, cfg.duration) && k < |r.states|
    ensures LaneInv(cfg, r.states[k], lane)
  {
    if k > 0 {
      RunLaneInv(cfg, r, k - 1, lane);
      RunInv(cfg, r, k - 1);
      RunScheduleInv(cfg, r, k - 1);
      assert CoveringStep(r.states[k - 1], r.events[k - 1], lane, cfg.duration);
      StepKeepsLane(cfg, r.states[k - 1], r.events[k - 1], r.states[k], lane);
    }
  }

  /** No holes: up to any due day that already has a slot, every due day from today on has its full grid. */
  lemma RunHasNoHoles(cfg: Config, r: Run, k: nat, lane: Id, day: int, late: int)
    requires IsRun(cfg, r) && CoveringLane(r, lane, cfg.duration) && k < |r.states| && lane in r.states[k].db.schedules
    requires var sch := r.states[k].db.schedules[lane]; Due(sch, day) && Due(sch, late)
    requires DayOf(r.states[k].now) <= day <= late && HasSlotOn(r.states[k].db.slots, lane, late)
    ensures DayFull(r.states[k].db.slots, lane, LaneHours(r.states[k].db.schedules[lane]), day, cfg.duration)
  {
    RunLaneInv(cfg, r, k, lane);
  }

  // ---- Exactly which lanes have no holes ----

  /** A lane's schedule is accepted once. */
  lemma AcceptedOnce(cfg: Config, r: Run, j: nat, k: nat)
    requires IsRun(cfg, r) && j < |r.events| && k < |r.events| && Accepts(r.states[j], r.events[j]) && Accepts(r.states[k], r.events[k])
    requires Accepted(r.states[j], r.events[j]).lane == Accepted(r.states[k], r.events[k]).lane
    ensures j == k
  {
    var first, last := if j < k then j else k, if j < k then k else j;
    if j != k {
      RunScheduleInv(cfg, r, first);
      StepEffect(cfg, r.states[first], r.events[first], r.states[first + 1]);
      RowsOnlyMoveForward(cfg, r, first + 1, last);
      RunScheduleInv(cfg, r, last);
      StepEffect(cfg, r.states[last], r.events[last], r.states[last + 1]);
    }
  }

  /** A slot of a lane that had none before its window came with the window. */
  lemma OnlyFromWindow(before: map<Id, Slot>, after: map<Id, Slot>, lane: Id, open: set<int>, g: Hours, first: int, n: nat, dur: int, x: Slot)
    requires dur > 0 && WithinDay(g) && (forall i :: i in before ==> before[i].lane != lane) && x.lane == lane && Present(after, x)
    requires Adds(before, after, WindowSlots(lane, open, g, first, n, dur))
    ensures x in DayGrid(lane, g, DayOf(x.start), dur)
  {
    var i :| i in after && after[i] == x;
    InWindow(lane, open, g, first, n, dur, x);
  }

  /** A first window that has a slot at all has one on each of its due days. */
  lemma FirstWindowTouches(before: map<Id, Slot>, after: map<Id, Slot>, req: ScheduleRequest, first: int, n: nat, dur: int, day: int)
    requires dur > 0 && InOrder(req) && first <= day < first + n && Due(StoredSchedule(req), day)
    requires WindowSlots(req.lane, InitialDays(req.days), RequestHours(req), first, n, dur) != []
    requires Adds(before, after, WindowSlots(req.lane, InitialDays(req.days), RequestHours(req), first, n, dur))
    ensures HasSlotOn(after, req.lane, day)
  {
    var g, lane, open := RequestHours(req), req.lane, InitialDays(req.days);
    WindowEmpty(lane, open, g, first, n, dur);
    DueDayInitial(req.days, day);
    BatchFillsDay(before, after, lane, open, g, first, n, dur, day);
    FullHasSlot(after, lane, g, day, dur);
  }

  /** A first window that leaves no hole on a due day holds every slot of that day's own grid. */
  lemma HolesWithoutCovering(before: map<Id, Slot>, after: map<Id, Slot>, req: ScheduleRequest, first: int, n: nat, dur: int, day: int)
    requires dur > 0 && InOrder(req) && first <= day < first + n && Due(StoredSchedule(req), day)
    requires forall i :: i in before ==> before[i].lane != req.lane
    requires WindowSlots(req.lane, InitialDays(req.days), RequestHours(req), first, n, dur) != []
    requires Adds(before, after, WindowSlots(req.lane, InitialDays(req.days), RequestHours(req), first, n, dur))
    requires NoHoles(after, req.lane, StoredSchedule(req), day, dur)
    ensures TwoGrids.CoveringRequest(req, dur)
  {
    FirstWindowTouches(before, after, req, first, n, dur, day);
    NoHoleToday(after, req.lane, StoredSchedule(req), day, dur);
    FullFromWindow(before, after, req.lane, InitialDays(req.days), RequestHours(req), TwoGrids.ColumnHours(req), first, n, dur, day);
    TwoGrids.CoversExactly(req.lane, day, RequestHours(req), TwoGrids.ColumnHours(req), dur);
  }

  lemma NoHoleToday(slots: map<Id, Slot>, lane: Id, sch: Schedule, day: int, dur: int)
    requires dur > 0 && NoHoles(slots, lane, sch, day, dur) && Due(sch, day) && HasSlotOn(slots, lane, day)
    ensures DayFull(slots, lane, LaneHours(sch), day, dur)
  {
  }

  /** A day that a lane's first window makes full of another grid has that grid inside the window's. */
  lemma FullFromWindow(before: map<Id, Slot>, after: map<Id, Slot>, lane: Id, open: set<int>, g: Hours, h: Hours, first: int, n: nat, dur: int, day: int)
    requires dur > 0 && WithinDay(g) && WithinDay(h) && (forall i :: i in before ==> before[i].lane != lane)
    requires Adds(before, after, WindowSlots(lane, open, g, first, n, dur)) && DayFull(after, lane, h, day, dur)
    ensures forall x :: x in DayGrid(lane, h, day, dur) ==> x in DayGrid(lane, g, day, dur)
  {
    forall x | x in DayGrid(lane, h, day, dur) ensures x in DayGrid(lane, g, day, dur) {
      DayGridInDay(lane, h, day, dur, x);
      OnlyFromWindow(before, after, lane, open, g, first, n, dur, x);
    }
  }

  /** From step `k` on the lane has no holes. */
  ghost predicate NeverHoles(cfg: Config, r: Run, k: nat, lane: Id)
    requires cfg.duration > 0
  {
    forall m :: k < m < |r.states| ==>
      lane in r.states[m].db.schedules
      && NoHoles(r.states[m].db.slots, lane, r.states[m].db.schedules[lane], DayOf(r.states[m].now), cfg.duration)
  }

  /**
   The exact condition, over any run: after a request with a due day from today on in its first window is
   accepted, the lane never has a hole if and only if the request's own grid holds every slot of the
   grid of its stored hours.
   */
  lemma NoHolesExactly(cfg: Config, r: Run, k: nat, day: int)
    requires IsRun(cfg, r) && k < |r.events| && Accepts(r.states[k], r.events[k])
    requires InOrder(Accepted(r.states[k], r.events[k])) && Due(StoredSchedule(Accepted(r.states[k], r.events[k])), day)
    requires DayOf(r.states[k].now) <= day < DayOf(r.states[k].sessions[r.events[k].client].pc.at) + cfg.window
    ensures NeverHoles(cfg, r, k, Accepted(r.states[k], r.events[k]).lane)
            <==> TwoGrids.CoveringRequest(Accepted(r.states[k], r.events[k]), cfg.duration)
  {
    var req := Accepted(r.states[k], r.events[k]);
    if TwoGrids.CoveringRequest(req, cfg.duration) {
      CoveringNeverHoles(cfg, r, k);
    }
    if NeverHoles(cfg, r, k, req.lane) {
      NeverHolesCovers(cfg, r, k, day);
    }
  }

  lemma CoveringNeverHoles(cfg: Config, r: Run, k: nat)
    requires IsRun(cfg, r) && k < |r.events| && Accepts(r.states[k], r.events[k])
    requires TwoGrids.CoveringRequest(Accepted(r.states[k], r.events[k]), cfg.duration)
    ensures NeverHoles(cfg, r, k, Accepted(r.states[k], r.events[k]).lane)
  {
    var lane := Accepted(r.states[k], r.events[k]).lane;
    forall j | 0 <= j < |r.events| ensures CoveringStep(r.states[j], r.events[j], lane, cfg.duration) {
      if Accepts(r.states[j], r.events[j]) && Accepted(r.states[j], r.events[j]).lane == lane {
        AcceptedOnce(cfg, r, j, k);
      }
    }
    RunScheduleInv(cfg, r, k);
    StepEffect(cfg, r.states[k], r.events[k], r.states[k + 1]);
    forall m | k < m < |r.states|
      ensures lane in r.states[m].db.schedules
              && NoHoles(r.states[m].db.slots, lane, r.states[m].db.schedules[lane], DayOf(r.states[m].now), cfg.duration)
    {
      RowsOnlyMoveForward(cfg, r, k + 1, m);
      RunLaneInv(cfg, r, m, lane);
    }
  }

  lemma NeverHolesCovers(cfg: Config, r: Run, k: nat, day: int)
    requires IsRun(cfg, r) && k < |r.events| && Accepts(r.states[k], r.events[k])
    requires InOrder(Accepted(r.states[k], r.events[k])) && Due(StoredSchedule(Accepted(r.states[k], r.events[k])), day)
    requires DayOf(r.states[k].now) <= day < DayOf(r.states[k].sessions[r.events[k].client].pc.at) + cfg.window
    requires NeverHoles(cfg, r, k, Accepted(r.states[k], r.events[k]).lane)
    ensures TwoGrids.CoveringRequest(Accepted(r.states[k], r.events[k]), cfg.duration)
  {
    var s, t, pc := r.states[k], r.states[k + 1], r.states[k].sessions[r.events[k].client].pc;
    RunScheduleInv(cfg, r, k);
    StepEffect(cfg, s, r.events[k], t);
    StepFrame(cfg, s, r.events[k], t);
    assert PcOk(cfg, s.db, pc, s.now);
    LaterKeepsNoHoles(t.db.slots, pc.req.lane, StoredSchedule(pc.req), DayOf(t.now), day, cfg.duration);
    HolesWithoutCovering(s.db.slots, t.db.slots, pc.req, DayOf(pc.at), cfg.window, cfg.duration, day);
  }

  // ---- Insert attempts ----

  /** What an insert attempt on a covering lane does, told by its window and the tables before it. */
  lemma AttemptExact(cfg: Config, s: State, c: Id, ch: Choice, t: State)
    requires cfg.duration > 0 && ScheduleInv(cfg, s) && Consistent(s.db) && c in s.sessions && s.sessions[c].pc.GenerateInsert?
    requires LaneInv(cfg, s, s.sessions[c].pc.lane) && StepGenerate(cfg, s, c, ch) == Some(t)
    ensures var pc := s.sessions[c].pc;
      var touched := WindowTouched(s.db.slots, pc.lane, pc.sch, DayOf(pc.at), cfg.lookahead);
      && (touched ==> t.db == s.db)
      && (!touched ==> Adds(s.db.slots, t.db.slots,
            WindowSlots(pc.lane, BackgroundDays(pc.sch.days), LaneHours(pc.sch), DayOf(pc.at), cfg.lookahead, cfg.duration)))
  {
    var pc := s.sessions[c].pc;
    assert PcOk(cfg, s.db, pc, s.now);
    var open, hours, first := BackgroundDays(pc.sch.days), LaneHours(pc.sch), DayOf(pc.at);
    var slots := BackgroundSlots(pc.lane, pc.sch, pc.at, cfg.lookahead, cfg.duration);
    var batch := WithIds(ch.ids, slots);
    InsertSlotsExact(s.db, batch);
    if RoomForSlot(hours, cfg.duration) {
      WindowFitsBatch(s.db, pc.lane, open, hours, first, cfg.lookahead, cfg.duration, batch);
      TakenExactly(s.db.slots, pc.lane, pc.sch, first, cfg.lookahead, cfg.duration);
    } else {
      WindowEmpty(pc.lane, open, hours, first, cfg.lookahead, cfg.duration);
      assert s.db.slots + BatchRows(batch) == s.db.slots;
    }
    if Fits(s.db, batch) {
      BatchAdds(s.db, batch, slots);
    }
  }

  /** An insert attempt inside a run. */
  lemma AttemptInRun(cfg: Config, r: Run, k: nat, c: Id, ch: Choice)
    requires IsRun(cfg, r) && k < |r.events| && r.events[k] == Go(c, ch)
    requires c in r.states[k].sessions && r.states[k].sessions[c].pc.GenerateInsert?
    requires CoveringLane(r, r.states[k].sessions[c].pc.lane, cfg.duration)
    ensures var s, t, pc := r.states[k], r.states[k + 1], r.states[k].sessions[c].pc;
      var touched := WindowTouched(s.db.slots, pc.lane, pc.sch, DayOf(pc.at), cfg.lookahead);
      && pc.lane in s.db.schedules && s.db.schedules[pc.lane] == pc.sch && WithinDay(LaneHours(pc.sch))
      && NoHoles(s.db.slots, pc.lane, pc.sch, DayOf(s.now), cfg.duration)
      && (touched ==> t.db == s.db)
      && (!touched ==> Adds(s.db.slots, t.db.slots,
            WindowSlots(pc.lane, BackgroundDays(pc.sch.days), LaneHours(pc.sch), DayOf(pc.at), cfg.lookahead, cfg.duration)))
  {
    var s := r.states[k];
    RunLaneInv(cfg, r, k, s.sessions[c].pc.lane);
    RunScheduleInv(cfg, r, k);
    RunInv(cfg, r, k);
    assert Next(cfg, s, r.events[k]) == Some(r.states[k + 1]);
    assert PcOk(cfg, s.db, s.sessions[c].pc, s.now);
    AttemptExact(cfg, s, c, ch, r.states[k + 1]);
  }

  /** The earliest due day of a window that starts today. */
  predicate FirstDue(sch: Schedule, today: int, n: nat, day: int) {
    today <= day < today + n && Due(sch, day) && forall d :: today <= d < day ==> !Due(sch, d)
  }

  /**
   Whatever the database said to the batch, after an insert attempt whose clock was read today, the
   earliest due day of its window has its full grid: today itself, if today is due.
   */
  lemma FirstDueDayCovered(cfg: Config, r: Run, k: nat, c: Id, ch: Choice, day: int)
    requires IsRun(cfg, r) && k < |r.events| && r.events[k] == Go(c, ch)
    requires c in r.states[k].sessions && r.states[k].sessions[c].pc.GenerateInsert?
    requires CoveringLane(r, r.states[k].sessions[c].pc.lane, cfg.duration)
    requires var pc := r.states[k].sessions[c].pc;
      DayOf(pc.at) == DayOf(r.states[k].now) && FirstDue(pc.sch, DayOf(pc.at), cfg.lookahead, day)
    ensures var pc := r.states[k].sessions[c].pc;
      DayFull(r.states[k + 1].db.slots, pc.lane, LaneHours(pc.sch), day, cfg.duration)
  {
    var s, t := r.states[k], r.states[k + 1];
    var pc := s.sessions[c].pc;
    AttemptInRun(cfg, r, k, c, ch);
    var today := DayOf(pc.at);
    if WindowTouched(s.db.slots, pc.lane, pc.sch, today, cfg.lookahead) {
      var late :| today <= late < today + cfg.lookahead && Due(pc.sch, late) && HasSlotOn(s.db.slots, pc.lane, late);
      assert day <= late;
      assert DayFull(s.db.slots, pc.lane, LaneHours(pc.sch), day, cfg.duration);
    } else {
      BatchFillsDay(s.db.slots, t.db.slots, pc.lane, BackgroundDays(pc.sch.days), LaneHours(pc.sch), today, cfg.lookahead, cfg.duration, day);
    }
  }

  /**
   The rolling window, exactly: after an insert attempt the whole lookahead window is generated if
   and only if none of its due days had a slot before, or all of them were complete already.
   */
  lemma RollingWindowExact(cfg: Config, r: Run, k: nat, c: Id, ch: Choice)
    requires IsRun(cfg, r) && k < |r.events| && r.events[k] == Go(c, ch)
    requires c in r.states[k].sessions && r.states[k].sessions[c].pc.GenerateInsert?
    requires CoveringLane(r, r.states[k].sessions[c].pc.lane, cfg.duration)
    ensures var s, t, pc := r.states[k], r.states[k + 1], r.states[k].sessions[c].pc;
      WindowFull(t.db.slots, pc.lane, pc.sch, DayOf(pc.at), cfg.lookahead, cfg.duration) <==>
        !WindowTouched(s.db.slots, pc.lane, pc.sch, DayOf(pc.at), cfg.lookahead)
        || WindowFull(s.db.slots, pc.lane, pc.sch, DayOf(pc.at), cfg.lookahead, cfg.duration)
  {
    var s, t := r.states[k], r.states[k + 1];
    var pc := s.sessions[c].pc;
    var first := DayOf(pc.at);
    AttemptInRun(cfg, r, k, c, ch);
    if !WindowTouched(s.db.slots, pc.lane, pc.sch, first, cfg.lookahead) {
      forall day | first <= day < first + cfg.lookahead && Due(pc.sch, day)
        ensures DayFull(t.db.slots, pc.lane, LaneHours(pc.sch), day, cfg.duration)
      {
        BatchFillsDay(s.db.slots, t.db.slots, pc.lane, BackgroundDays(pc.sch.days), LaneHours(pc.sch), first, cfg.lookahead, cfg.duration, day);
      }
    }
  }

  /** In a window a due day `empty`, on hours that hold a slot, has none, while the due day `early` has some. */
  ghost predicate Blocked(slots: map<Id, Slot>, lane: Id, sch: Schedule, first: int, n: nat, dur: int, early: int, empty: int) {
    && RoomForSlot(LaneHours(sch), dur)
    && first <= early < first + n && Due(sch, early) && HasSlotOn(slots, lane, early)
    && first <= empty < first + n && Due(sch, empty) && !HasSlotOn(slots, lane, empty)
  }

  /**
   The project's README promises slots for the whole window ahead after each run. It fails whenever one
   due day of the window has old slots and another has none: the old slots reject the batch, and the
   empty day stays empty.
   */
  lemma RollingWindowStalls(cfg: Config, r: Run, k: nat, c: Id, ch: Choice, early: int, empty: int)
    requires IsRun(cfg, r) && k < |r.events| && r.events[k] == Go(c, ch)
    requires c in r.states[k].sessions && r.states[k].sessions[c].pc.GenerateInsert?
    requires CoveringLane(r, r.states[k].sessions[c].pc.lane, cfg.duration)
    requires var s, pc := r.states[k], r.states[k].sessions[c].pc;
      Blocked(s.db.slots, pc.lane, pc.sch, DayOf(pc.at), cfg.lookahead, cfg.duration, early, empty)
    ensures var s, t, pc := r.states[k], r.states[k + 1], r.states[k].sessions[c].pc;
      t.db == s.db && !WindowFull(t.db.slots, pc.lane, pc.sch, DayOf(pc.at), cfg.lookahead, cfg.duration)
  {
    var s := r.states[k];
    var pc := s.sessions[c].pc;
    AttemptInRun(cfg, r, k, c, ch);
    EmptyDayNotFull(s.db.slots, pc.lane, pc.sch, empty, cfg.duration);
  }

  lemma EmptyDayNotFull(slots: map<Id, Slot>, lane: Id, sch: Schedule, day: int, dur: int)
    requires dur > 0 && WithinDay(LaneHours(sch)) && RoomForSlot(LaneHours(sch), dur) && !HasSlotOn(slots, lane, day)
    ensures !DayFull(slots, lane, LaneHours(sch), day, dur)
  {
    if DayFull(slots, lane, LaneHours(sch), day, dur) {
      FullHasSlot(slots, lane, LaneHours(sch), day, dur);
    }
  }
}
