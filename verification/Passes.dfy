/** What a whole pass of the background generator leaves behind, whatever other clients do meanwhile. */
module Passes {
  import opened Prelude
  import opened Calendar
  import opened Models
  import opened Grid
  import opened Tables
  import opened Scheduling
  import opened Windows
  import opened Engine
  import opened BookingSafety
  import opened SlotSafety

  /** Client `c` starts a pass in state `a` and is done in state `b`, all on one day. */
  ghost predicate PassOn(cfg: Config, r: Run, a: nat, b: nat, c: Id, today: int) {
    && IsRun(cfg, r) && a <= b < |r.states|
    && c in r.states[a].sessions && r.states[a].sessions[c].pc.GenerateStart?
    && c in r.states[b].sessions && r.states[b].sessions[c].pc.Idle?
    && DayOf(r.states[a].now) == today == DayOf(r.states[b].now)
  }

  /** A failure of the database in a pass that does not hit this lane's turn, nor the listing of the lanes. */
  predicate SparesStep(s: State, e: Event, c: Id, lane: Id) {
    e == Fault(c) && c in s.sessions ==>
      match s.sessions[c].pc
      case GenerateStart => false
      case GenerateNext(rest) => rest == [] || rest[0] != lane
      case GenerateInsert(l, _, _, _) => l != lane
      case _ => true
  }

  /** No failure hits the lane's turn. */
  ghost predicate Spared(r: Run, a: nat, b: nat, c: Id, lane: Id)
    requires a <= b <= |r.events| && |r.states| == |r.events| + 1
  {
    forall x :: a <= x < b ==> SparesStep(r.states[x], r.events[x], c, lane)
  }

  /** No failure at all. */
  ghost predicate FaultFree(r: Run, a: nat, b: nat, c: Id)
    requires a <= b <= |r.events|
  {
    forall x :: a <= x < b ==> r.events[x] != Fault(c)
  }

  lemma FaultFreeSpares(r: Run, a: nat, b: nat, c: Id)
    requires a <= b <= |r.events| && |r.states| == |r.events| + 1 && FaultFree(r, a, b, c)
    ensures forall lane :: Spared(r, a, b, c, lane)
  {
  }

  /** The lanes a pass still has to visit. */
  function Ahead(pc: Pc, lanes: seq<Id>): seq<Id> {
    match pc
    case GenerateStart => lanes
    case GenerateNext(rest) => rest
    case GenerateBuild(lane, _, rest) => [lane] + rest
    case GenerateInsert(lane, _, _, rest) => [lane] + rest
    case _ => []
  }

  /** A lane with a schedule has its grid on `day`, or the pass is still to visit it. */
  ghost predicate Served(cfg: Config, s: State, pc: Pc, lane: Id, sch: Schedule, today: int, day: int)
    requires cfg.duration > 0
  {
    && lane in s.db.lanes && lane in s.db.schedules && s.db.schedules[lane] == sch
    && (lane in Ahead(pc, s.db.lanes) || DayFull(s.db.slots, lane, LaneHours(sch), day, cfg.duration))
    && (pc.GenerateInsert? ==> DayOf(pc.at) == today)
  }

  /** A full day stays full while the tables move forward. */
  lemma FullStays(a: Db, b: Db, lane: Id, hours: Hours, day: int, dur: int)
    requires dur > 0 && Evolves(a, b) && DayFull(a.slots, lane, hours, day, dur)
    ensures DayFull(b.slots, lane, hours, day, dur)
  {
    forall s | s in DayGrid(lane, hours, day, dur) ensures Present(b.slots, s) {
      var i :| i in a.slots && a.slots[i] == s;
      assert b.slots[i] == s;
    }
  }

  /** A step of another client, of the surroundings, or of a call that is no pass. */
  lemma OthersServe(cfg: Config, s: State, t: State, pc: Pc, next: Pc, lane: Id, sch: Schedule, today: int, day: int)
    requires cfg.duration > 0 && Evolves(s.db, t.db) && Served(cfg, s, pc, lane, sch, today, day)
    requires lane in Ahead(pc, s.db.lanes) ==> lane in Ahead(next, t.db.lanes)
    requires next.GenerateInsert? ==> DayOf(next.at) == today
    ensures Served(cfg, t, next, lane, sch, today, day)
  {
    if DayFull(s.db.slots, lane, LaneHours(sch), day, cfg.duration) {
      FullStays(s.db, t.db, lane, LaneHours(sch), day, cfg.duration);
    }
  }

  /** An empty batch has nothing to do on its due days. */
  lemma EmptyBatchFull(db: Db, lane: Id, sch: Schedule, at: Time, n: nat, dur: int, day: int)
    requires dur > 0 && WithinDay(LaneHours(sch)) && BackgroundSlots(lane, sch, at, n, dur) == []
    requires DayOf(at) <= day < DayOf(at) + n && Due(sch, day)
    ensures DayFull(db.slots, lane, LaneHours(sch), day, dur)
  {
    var grid := DayGrid(lane, LaneHours(sch), day, dur);
    if grid != [] {
      assert grid[0] in grid;
      DayGridInDay(lane, LaneHours(sch), day, dur, grid[0]);
      InWindow(lane, BackgroundDays(sch.days), LaneHours(sch), DayOf(at), n, dur, grid[0]);
      assert false;
    }
  }

  /** The generator's own steps before the insert. */
  lemma VisitServes(cfg: Config, s: State, c: Id, ch: Choice, t: State, lane: Id, sch: Schedule, today: int, day: int)
    requires cfg.duration > 0 && Consistent(s.db) && ScheduleInv(cfg, s) && c in s.sessions && StepGenerate(cfg, s, c, ch) == Some(t)
    requires !s.sessions[c].pc.GenerateInsert? && DayOf(s.now) == today && FirstDue(sch, today, cfg.lookahead, day)
    requires Served(cfg, s, s.sessions[c].pc, lane, sch, today, day)
    ensures c in t.sessions && Served(cfg, t, t.sessions[c].pc, lane, sch, today, day)
  {
    var pc, next := s.sessions[c].pc, t.sessions[c].pc;
    VisitMoves(cfg, s, c, ch, t);
    if pc.GenerateBuild? && pc.lane == lane && next.GenerateNext? {
      EmptyVisit(cfg, s, c, day);
    } else {
      StillAhead(s.db, pc, next, lane);
    }
  }

  lemma EmptyVisit(cfg: Config, s: State, c: Id, day: int)
    requires cfg.duration > 0 && Consistent(s.db) && ScheduleInv(cfg, s) && c in s.sessions && s.sessions[c].pc.GenerateBuild?
    requires var pc := s.sessions[c].pc;
      FirstDue(pc.sch, DayOf(s.now), cfg.lookahead, day) && BackgroundSlots(pc.lane, pc.sch, s.now, cfg.lookahead, cfg.duration) == []
    ensures var pc := s.sessions[c].pc;
      pc.lane in s.db.schedules && s.db.schedules[pc.lane] == pc.sch && DayFull(s.db.slots, pc.lane, LaneHours(pc.sch), day, cfg.duration)
  {
    var pc := s.sessions[c].pc;
    assert PcOk(cfg, s.db, pc, s.now);
    EmptyBatchFull(s.db, pc.lane, pc.sch, s.now, cfg.lookahead, cfg.duration, day);
  }

  /** Moving on leaves behind only lanes without a schedule. */
  lemma StillAhead(db: Db, pc: Pc, next: Pc, lane: Id)
    requires lane in db.schedules
    requires match pc
      case GenerateStart => lane in db.lanes && next == GenerateNext(db.lanes)
      case GenerateNext(rest) =>
        if rest == [] then next == Idle
        else if rest[0] !in db.schedules then next == GenerateNext(rest[1..])
        else next == GenerateBuild(rest[0], db.schedules[rest[0]], rest[1..])
      case GenerateBuild(l, sch, rest) => (l != lane && next == GenerateNext(rest)) || (next.GenerateInsert? && next.lane == l && next.rest == rest)
      case _ => false
    ensures lane in Ahead(pc, db.lanes) ==> lane in Ahead(next, db.lanes)
  {
  }

  /** Where those steps lead. */
  lemma VisitMoves(cfg: Config, s: State, c: Id, ch: Choice, t: State)
    requires cfg.duration > 0 && c in s.sessions && StepGenerate(cfg, s, c, ch) == Some(t) && !s.sessions[c].pc.GenerateInsert?
    ensures t.db == s.db && c in t.sessions
    ensures var next := t.sessions[c].pc;
      match s.sessions[c].pc
      case GenerateStart => next == GenerateNext(s.db.lanes)
      case GenerateNext(rest) =>
        if rest == [] then next == Idle
        else if rest[0] !in s.db.schedules then next == GenerateNext(rest[1..])
        else next == GenerateBuild(rest[0], s.db.schedules[rest[0]], rest[1..])
      case GenerateBuild(lane, sch, rest) =>
        if BackgroundSlots(lane, sch, s.now, cfg.lookahead, cfg.duration) == [] then next == GenerateNext(rest)
        else next == GenerateInsert(lane, sch, s.now, rest)
      case _ => false
  {
  }

  /** The insert: the batch's own lane is covered by it, accepted or refused. */
  lemma InsertServes(cfg: Config, r: Run, k: nat, c: Id, ch: Choice, lane: Id, sch: Schedule, today: int, day: int)
    requires IsRun(cfg, r) && CoveringLane(r, lane, cfg.duration) && k < |r.events| && r.events[k] == Go(c, ch)
    requires c in r.states[k].sessions && r.states[k].sessions[c].pc.GenerateInsert?
    requires DayOf(r.states[k].now) == today && FirstDue(sch, today, cfg.lookahead, day)
    requires Served(cfg, r.states[k], r.states[k].sessions[c].pc, lane, sch, today, day)
    ensures c in r.states[k + 1].sessions && Served(cfg, r.states[k + 1], r.states[k + 1].sessions[c].pc, lane, sch, today, day)
  {
    var s, t := r.states[k], r.states[k + 1];
    var pc := s.sessions[c].pc;
    RunInv(cfg, r, k);
    StepKeeps(cfg, s, r.events[k], t);
    InsertMovesOn(cfg, s, c, ch, t);
    if pc.lane == lane {
      OwnInsert(cfg, r, k, c, ch, lane, sch, today, day);
    } else {
      OthersServe(cfg, s, t, pc, t.sessions[c].pc, lane, sch, today, day);
    }
  }

  lemma OwnInsert(cfg: Config, r: Run, k: nat, c: Id, ch: Choice, lane: Id, sch: Schedule, today: int, day: int)
    requires IsRun(cfg, r) && CoveringLane(r, lane, cfg.duration) && k < |r.events| && r.events[k] == Go(c, ch)
    requires c in r.states[k].sessions && r.states[k].sessions[c].pc.GenerateInsert? && r.states[k].sessions[c].pc.lane == lane
    requires DayOf(r.states[k].now) == DayOf(r.states[k].sessions[c].pc.at) == today && FirstDue(sch, today, cfg.lookahead, day)
    requires lane in r.states[k].db.schedules && r.states[k].db.schedules[lane] == sch
    ensures DayFull(r.states[k + 1].db.slots, lane, LaneHours(sch), day, cfg.duration)
  {
    AttemptInRun(cfg, r, k, c, ch);
    FirstDueDayCovered(cfg, r, k, c, ch, day);
  }

  lemma InsertMovesOn(cfg: Config, s: State, c: Id, ch: Choice, t: State)
    requires cfg.duration > 0 && c in s.sessions && s.sessions[c].pc.GenerateInsert? && StepGenerate(cfg, s, c, ch) == Some(t)
    ensures c in t.sessions && t.sessions[c].pc == GenerateNext(s.sessions[c].pc.rest)
  {
  }

  /** A step inside a pass other than its client's own. */
  lemma OutsideServes(cfg: Config, s: State, e: Event, t: State, c: Id, lane: Id, sch: Schedule, today: int, day: int)
    requires cfg.duration > 0 && BookingInv(s) && Next(cfg, s, e) == Some(t) && c in s.sessions && !ActsFor(e, c)
    requires Served(cfg, s, s.sessions[c].pc, lane, sch, today, day)
    ensures c in t.sessions && Served(cfg, t, t.sessions[c].pc, lane, sch, today, day)
  {
    StepFrame(cfg, s, e, t);
    StepKeeps(cfg, s, e, t);
    OthersServe(cfg, s, t, s.sessions[c].pc, s.sessions[c].pc, lane, sch, today, day);
  }

  /** A step of the pass's client outside a pass: it is done, or begins another call. */
  lemma ElsewhereServes(cfg: Config, s: State, e: Event, t: State, c: Id, lane: Id, sch: Schedule, today: int, day: int)
    requires cfg.duration > 0 && BookingInv(s) && Next(cfg, s, e) == Some(t) && c in s.sessions && ActsFor(e, c) && e != Fault(c)
    requires e.Call? || !InPass(s.sessions[c].pc)
    requires Served(cfg, s, s.sessions[c].pc, lane, sch, today, day)
    ensures c in t.sessions && Served(cfg, t, t.sessions[c].pc, lane, sch, today, day)
  {
    StepKeeps(cfg, s, e, t);
    NewPosition(cfg, s, e, t, c);
    OthersServe(cfg, s, t, s.sessions[c].pc, t.sessions[c].pc, lane, sch, today, day);
  }

  /** A failure that ends another lane's turn: the pass goes on with the rest. */
  lemma FaultServes(cfg: Config, s: State, c: Id, t: State, lane: Id, sch: Schedule, today: int, day: int)
    requires cfg.duration > 0 && BookingInv(s) && c in s.sessions && Next(cfg, s, Fault(c)) == Some(t)
    requires SparesStep(s, Fault(c), c, lane) && Served(cfg, s, s.sessions[c].pc, lane, sch, today, day)
    ensures c in t.sessions && Served(cfg, t, t.sessions[c].pc, lane, sch, today, day)
  {
    StepKeeps(cfg, s, Fault(c), t);
    FaultPositions(s, c, t);
    FaultMovesOn(s, c, t, lane);
    OthersServe(cfg, s, t, s.sessions[c].pc, t.sessions[c].pc, lane, sch, today, day);
  }

  lemma FaultMovesOn(s: State, c: Id, t: State, lane: Id)
    requires c in s.sessions && StepFault(s, c) == Some(t) && SparesStep(s, Fault(c), c, lane)
    ensures c in t.sessions && t.db == s.db
    ensures lane in Ahead(s.sessions[c].pc, s.db.lanes) ==> lane in Ahead(t.sessions[c].pc, t.db.lanes)
  {
  }

  /** Outside a pass no lane is ahead, and none is inserted next. */
  lemma NewPosition(cfg: Config, s: State, e: Event, t: State, c: Id)
    requires cfg.duration > 0 && Next(cfg, s, e) == Some(t) && c in s.sessions && ActsFor(e, c) && e != Fault(c)
    requires e.Call? || !InPass(s.sessions[c].pc)
    ensures Ahead(s.sessions[c].pc, s.db.lanes) == [] && c in t.sessions && !t.sessions[c].pc.GenerateInsert?
  {
    if e.Go? {
      NoPassFromElsewhere(cfg, s, c, e.choice, t);
    }
  }

  predicate InPass(pc: Pc) {
    pc.GenerateStart? || pc.GenerateNext? || pc.GenerateBuild? || pc.GenerateInsert?
  }

  lemma NoPassFromElsewhere(cfg: Config, s: State, c: Id, ch: Choice, t: State)
    requires cfg.duration > 0 && c in s.sessions && StepGo(cfg, s, c, ch) == Some(t) && !InPass(s.sessions[c].pc)
    ensures c in t.sessions && !InPass(t.sessions[c].pc)
  {
  }

  lemma StepServes(cfg: Config, r: Run, k: nat, c: Id, lane: Id, sch: Schedule, today: int, day: int)
    requires IsRun(cfg, r) && CoveringLane(r, lane, cfg.duration) && k < |r.events| && SparesStep(r.states[k], r.events[k], c, lane)
    requires DayOf(r.states[k].now) == today && FirstDue(sch, today, cfg.lookahead, day)
    requires c in r.states[k].sessions && Served(cfg, r.states[k], r.states[k].sessions[c].pc, lane, sch, today, day)
    ensures c in r.states[k + 1].sessions && Served(cfg, r.states[k + 1], r.states[k + 1].sessions[c].pc, lane, sch, today, day)
  {
    var s, e, t := r.states[k], r.events[k], r.states[k + 1];
    RunInv(cfg, r, k);
    RunScheduleInv(cfg, r, k);
    if !ActsFor(e, c) {
      OutsideServes(cfg, s, e, t, c, lane, sch, today, day);
    } else if e.Fault? {
      FaultServes(cfg, s, c, t, lane, sch, today, day);
    } else if e.Call? || !InPass(s.sessions[c].pc) {
      ElsewhereServes(cfg, s, e, t, c, lane, sch, today, day);
    } else {
      PassStepServes(cfg, r, k, c, e.choice, lane, sch, today, day);
    }
  }

  /** A step of the pass itself. */
  lemma PassStepServes(cfg: Config, r: Run, k: nat, c: Id, ch: Choice, lane: Id, sch: Schedule, today: int, day: int)
    requires IsRun(cfg, r) && CoveringLane(r, lane, cfg.duration) && k < |r.events| && r.events[k] == Go(c, ch)
    requires DayOf(r.states[k].now) == today && FirstDue(sch, today, cfg.lookahead, day)
    requires c in r.states[k].sessions && InPass(r.states[k].sessions[c].pc)
    requires Served(cfg, r.states[k], r.states[k].sessions[c].pc, lane, sch, today, day)
    ensures c in r.states[k + 1].sessions && Served(cfg, r.states[k + 1], r.states[k + 1].sessions[c].pc, lane, sch, today, day)
  {
    if r.states[k].sessions[c].pc.GenerateInsert? {
      InsertServes(cfg, r, k, c, ch, lane, sch, today, day);
    } else {
      RunInv(cfg, r, k);
      RunScheduleInv(cfg, r, k);
      VisitServes(cfg, r.states[k], c, ch, r.states[k + 1], lane, sch, today, day);
    }
  }

  lemma {:induction false} ClockBetween(cfg: Config, r: Run, i: nat, k: nat)
    requires IsRun(cfg, r) && i <= k < |r.states|
    ensures r.states[i].now <= r.states[k].now
    decreases k - i
  {
    if i < k {
      var before: nat := k - 1;
      ClockBetween(cfg, r, i, before);
      StepFrame(cfg, r.states[before], r.events[before], r.states[k]);
    }
  }

  lemma {:induction false} ServedUpTo(cfg: Config, r: Run, a: nat, k: nat, b: nat, c: Id, lane: Id, sch: Schedule, today: int, day: int)
    requires PassOn(cfg, r, a, b, c, today) && Spared(r, a, b, c, lane) && CoveringLane(r, lane, cfg.duration) && a <= k <= b
    requires lane in r.states[a].db.lanes && lane in r.states[a].db.schedules && r.states[a].db.schedules[lane] == sch
    requires FirstDue(sch, today, cfg.lookahead, day)
    ensures c in r.states[k].sessions && Served(cfg, r.states[k], r.states[k].sessions[c].pc, lane, sch, today, day)
    decreases k - a
  {
    if a < k {
      ServedUpTo(cfg, r, a, k - 1, b, c, lane, sch, today, day);
      SameDay(cfg, r, a, k - 1, b);
      StepServes(cfg, r, k - 1, c, lane, sch, today, day);
    }
  }

  lemma SameDay(cfg: Config, r: Run, a: nat, k: nat, b: nat)
    requires IsRun(cfg, r) && a <= k <= b < |r.states| && DayOf(r.states[a].now) == DayOf(r.states[b].now)
    ensures DayOf(r.states[k].now) == DayOf(r.states[a].now)
  {
    ClockBetween(cfg, r, a, k);
    ClockBetween(cfg, r, k, b);
  }

  /**
   After a pass within one day every lane that had a schedule when it began has the full grid of the
   earliest due day of its window, whatever other clients did meanwhile, however many batches were
   rejected, and wherever the database failed, as long as no failure hit that lane's own turn.
   */
  lemma PassCovers(cfg: Config, r: Run, a: nat, b: nat, c: Id, today: int, lane: Id, sch: Schedule, day: int)
    requires PassOn(cfg, r, a, b, c, today) && Spared(r, a, b, c, lane) && CoveringLane(r, lane, cfg.duration)
    requires lane in r.states[a].db.lanes && lane in r.states[a].db.schedules && r.states[a].db.schedules[lane] == sch
    requires FirstDue(sch, today, cfg.lookahead, day)
    ensures DayFull(r.states[b].db.slots, lane, LaneHours(sch), day, cfg.duration)
  {
    ServedUpTo(cfg, r, a, b, b, c, lane, sch, today, day);
  }

  /** A lane whose schedule was there when the pass began, whose accepted request covers its own hours, and whose turn no failure hit. */
  ghost predicate Visited(cfg: Config, r: Run, a: nat, b: nat, c: Id, lane: Id)
    requires cfg.duration > 0 && |r.states| == |r.events| + 1 && a <= b < |r.states|
  {
    && lane in r.states[a].db.lanes && lane in r.states[a].db.schedules
    && CoveringLane(r, lane, cfg.duration) && Spared(r, a, b, c, lane)
  }

  /** Today covered: after the pass today's grid exists on every such lane for which today is a scheduled Monday to Saturday. */
  lemma PassCoversToday(cfg: Config, r: Run, a: nat, b: nat, c: Id, today: int)
    requires PassOn(cfg, r, a, b, c, today) && cfg.lookahead > 0
    ensures forall lane | Visited(cfg, r, a, b, c, lane) ::
      Due(r.states[a].db.schedules[lane], today) ==>
        DayFull(r.states[b].db.slots, lane, LaneHours(r.states[a].db.schedules[lane]), today, cfg.duration)
  {
    forall lane | Visited(cfg, r, a, b, c, lane) && Due(r.states[a].db.schedules[lane], today)
      ensures DayFull(r.states[b].db.slots, lane, LaneHours(r.states[a].db.schedules[lane]), today, cfg.duration)
    {
      PassCovers(cfg, r, a, b, c, today, lane, r.states[a].db.schedules[lane], today);
    }
  }

  // ---- The rolling window ----

  /** At most one due day in the window of `n` days from `first` on. */
  predicate SingleDue(sch: Schedule, first: int, n: nat) {
    forall d, e :: first <= d < first + n && first <= e < first + n && Due(sch, d) && Due(sch, e) ==> d == e
  }

  /** With at most one due day per window, the pass leaves the whole window full. */
  lemma PassFillsWindow(cfg: Config, r: Run, a: nat, b: nat, c: Id, today: int, lane: Id, sch: Schedule)
    requires PassOn(cfg, r, a, b, c, today) && Spared(r, a, b, c, lane) && CoveringLane(r, lane, cfg.duration) && SingleDue(sch, today, cfg.lookahead)
    requires lane in r.states[a].db.lanes && lane in r.states[a].db.schedules && r.states[a].db.schedules[lane] == sch
    ensures WindowFull(r.states[b].db.slots, lane, sch, today, cfg.lookahead, cfg.duration)
  {
    forall day | today <= day < today + cfg.lookahead && Due(sch, day)
      ensures DayFull(r.states[b].db.slots, lane, LaneHours(sch), day, cfg.duration)
    {
      PassCovers(cfg, r, a, b, c, today, lane, sch, day);
    }
  }

  /**
   A batch goes in only once the horizon has run out: when an attempt adds a slot, the lane had none
   left on any due day from today on, in the window or beyond.
   */
  lemma RefillOnlyWhenRunOut(cfg: Config, r: Run, k: nat, c: Id, ch: Choice, late: int)
    requires IsRun(cfg, r) && k < |r.events| && r.events[k] == Go(c, ch)
    requires c in r.states[k].sessions && r.states[k].sessions[c].pc.GenerateInsert?
    requires CoveringLane(r, r.states[k].sessions[c].pc.lane, cfg.duration)
    requires var pc := r.states[k].sessions[c].pc; DayOf(pc.at) == DayOf(r.states[k].now) <= late && Due(pc.sch, late)
    requires r.states[k + 1].db.slots != r.states[k].db.slots
    ensures !HasSlotOn(r.states[k].db.slots, r.states[k].sessions[c].pc.lane, late)
  {
    var s, t := r.states[k], r.states[k + 1];
    var pc := s.sessions[c].pc;
    var today, open, hours := DayOf(pc.at), BackgroundDays(pc.sch.days), LaneHours(pc.sch);
    AttemptInRun(cfg, r, k, c, ch);
    if HasSlotOn(s.db.slots, pc.lane, late) {
      var slot := AddedSlot(s.db.slots, t.db.slots, WindowSlots(pc.lane, open, hours, today, cfg.lookahead, cfg.duration));
      InWindow(pc.lane, open, hours, today, cfg.lookahead, cfg.duration, slot);
      var day := DayOf(slot.start);
      WindowEmpty(pc.lane, open, hours, today, cfg.lookahead, cfg.duration);
      if day <= late {
        FullHasSlot(s.db.slots, pc.lane, hours, day, cfg.duration);
      }
      assert false;
    }
  }

  lemma NothingAdded(before: map<Id, Slot>, after: map<Id, Slot>, added: seq<Slot>)
    requires Adds(before, after, added) && forall i :: i in after ==> i in before
    ensures after == before
  {
    assert after.Keys == before.Keys;
  }

  lemma AddedSlot(before: map<Id, Slot>, after: map<Id, Slot>, added: seq<Slot>) returns (s: Slot)
    requires Adds(before, after, added) && after != before
    ensures s in added
  {
    if forall i :: i in after ==> i in before {
      NothingAdded(before, after, added);
    }
    var i :| i in after && i !in before;
    s := after[i];
  }
}
