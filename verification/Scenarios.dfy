/** Runs from an empty database that show a promise failing. */
module Scenarios {
  import opened Prelude
  import opened Calendar
  import opened Models
  import opened Grid
  import opened Tables
  import opened Scheduling
  import opened Windows
  import opened Engine
  import opened Execution
  import opened SlotSafety
  import opened Passes
  import Solo
  import Coherence
  import StaleHit
  import TwoGrids
  import opened Staleness
  import Erasure
  import BookingSafety
  import Generation
  import Requests
  import AgreeingRuns
  import Progress

  /** A valid request whose times the table takes and whose hours, as Go reads them, hold a slot. */
  predicate Askable(req: ScheduleRequest, dur: int) {
    ValidDays(req.days) && InOrder(req) && RoomForSlot(RequestHours(req), dur)
  }

  /** A valid request whose first grid covers the grid of its stored hours, which holds a slot. */
  predicate Bookable(req: ScheduleRequest, dur: int)
    requires dur > 0
  {
    ValidDays(req.days) && InOrder(req) && TwoGrids.CoveringRequest(req, dur) && RoomForSlot(TwoGrids.ColumnHours(req), dur)
  }

  lemma BookableAskable(req: ScheduleRequest, dur: int)
    requires dur > 0 && Bookable(req, dur)
    ensures Askable(req, dur)
  {
    TwoGrids.CoveringHasSlot(RequestHours(req), TwoGrids.ColumnHours(req), dur);
  }

  /** The only schedule anyone asks for. */
  predicate OnlyAsks(e: Event, req: ScheduleRequest) {
    e.Call? && e.request.MakeSchedule? ==> e.request.schedule == req
  }

  ghost predicate AsksOnly(r: Run, req: ScheduleRequest) {
    forall i :: 0 <= i < |r.events| ==> OnlyAsks(r.events[i], req)
  }

  lemma AsksOnlyCovers(cfg: Config, r: Run, req: ScheduleRequest)
    requires IsRun(cfg, r) && AsksOnly(r, req) && TwoGrids.CoveringRequest(req, cfg.duration)
    ensures CoveringLane(r, req.lane, cfg.duration)
  {
    forall i | 0 <= i < |r.events| && Requests.AsksFor(r.events[i], req.lane)
      ensures TwoGrids.CoveringRequest(r.events[i].request.schedule, cfg.duration)
    {
      assert OnlyAsks(r.events[i], req);
    }
    Requests.CoveringCalls(cfg, r, req.lane);
  }

  function Initial(cfg: Config, now: Time): State {
    State(Db({}, [], map[], map[], map[]), map[], map c | c in cfg.clients :: Session(Idle, []), now)
  }

  function End(r: Run): State
    requires |r.states| > 0
  {
    r.states[|r.states| - 1]
  }

  /** Nothing fails: no fault, no entry lost, every delete and fill reaching the cache. */
  predicate Calm(e: Event) {
    !e.Fault? && !e.Evict? && (e.Go? ==> e.choice.reached)
  }

  /** One more step. */
  lemma Extend(cfg: Config, r: Run, e: Event, t: State) returns (q: Run)
    requires IsRun(cfg, r) && Next(cfg, End(r), e) == Some(t)
    ensures IsRun(cfg, q) && q == Run(r.states + [t], r.events + [e]) && End(q) == t
  {
    q := Run(r.states + [t], r.events + [e]);
    Erasure.ExtendRun(cfg, r, e, t);
  }

  lemma StillAsksOnly(r: Run, q: Run, events: seq<Event>, req: ScheduleRequest)
    requires AsksOnly(r, req) && q.events == r.events + events && forall i :: 0 <= i < |events| ==> OnlyAsks(events[i], req)
    ensures AsksOnly(q, req)
  {
  }

  // ---- A lane with a schedule and its first window ----

  /** A quiet state in which one user and one lane exist, and the lane has a schedule and exactly its first window. */
  ghost predicate JustScheduled(cfg: Config, s: State, user: Id, req: ScheduleRequest, day: int)
    requires cfg.duration > 0 && InOrder(req)
  {
    && Coherence.AllIdle(s) && s.sessions.Keys == cfg.clients && s.cache == map[] && s.now == Midnight(day)
    && s.db.users == {user} && s.db.lanes == [req.lane] && s.db.bookings == map[]
    && s.db.schedules == map[req.lane := StoredSchedule(req)]
    && Adds(map[], s.db.slots, InitialSlots(req, Midnight(day), cfg.window, cfg.duration))
  }

  /** The state before the schedule call. */
  function Furnished(cfg: Config, user: Id, lane: Id, now: Time): State {
    Initial(cfg, now).(db := Db({user}, [lane], map[], map[], map[]))
  }

  lemma FurnishedRun(cfg: Config, user: Id, lane: Id, now: Time) returns (r: Run)
    requires ValidConfig(cfg)
    ensures IsRun(cfg, r) && End(r) == Furnished(cfg, user, lane, now)
    ensures forall e :: e in r.events ==> Calm(e) && !e.Call?
  {
    var s := Initial(cfg, now);
    var s1 := s.(db := s.db.(users := {user}));
    r := Run([s], []);
    assert s.db.users + {user} == {user};
    r := Extend(cfg, r, AddUser(user), s1);
    assert s1.db.lanes[..0] + [lane] + s1.db.lanes[0..] == [lane];
    r := Extend(cfg, r, AddLane(lane, 0), Furnished(cfg, user, lane, now));
  }

  /** What the schedule call makes of it. */
  lemma ScheduledFrom(cfg: Config, c: Id, user: Id, req: ScheduleRequest, day: int, open: int)
    requires ValidConfig(cfg) && c in cfg.clients && Askable(req, cfg.duration)
    requires day <= open < day + cfg.window && Weekday(open) in InitialDays(req.days)
    ensures JustScheduled(cfg, Solo.AfterSchedule(cfg, Furnished(cfg, user, req.lane, Midnight(day)), c, req, 0), user, req, day)
  {
    var s := Furnished(cfg, user, req.lane, Midnight(day));
    var now := Midnight(day);
    assert DayOf(now) == day;
    CreateScheduleExact(s.db, req, now, 0, cfg.window, cfg.duration);
    var slots := InitialSlots(req, now, cfg.window, cfg.duration);
    BatchAdds(WithSchedule(s.db, req).value, Numbered(0, slots), slots);
  }

  lemma OpeningRun(cfg: Config, c: Id, user: Id, req: ScheduleRequest, day: int, open: int) returns (r: Run)
    requires ValidConfig(cfg) && c in cfg.clients && Askable(req, cfg.duration)
    requires day <= open < day + cfg.window && Weekday(open) in InitialDays(req.days)
    ensures IsRun(cfg, r) && AsksOnly(r, req) && JustScheduled(cfg, End(r), user, req, day)
    ensures forall e :: e in r.events ==> Calm(e)
  {
    var before := FurnishedRun(cfg, user, req.lane, Midnight(day));
    var s := Furnished(cfg, user, req.lane, Midnight(day));
    var t := Solo.AfterSchedule(cfg, s, c, req, 0);
    var events := Solo.ScheduleAlone(cfg, s, c, req, 0);
    CallEvents(cfg, s, c, MakeSchedule(req), events, t, req);
    r := ExecExtends(cfg, before, events, t);
    NoCallsAskOnly(before, req);
    StillAsksOnly(before, r, events, req);
    ScheduledFrom(cfg, c, user, req, day, open);
  }

  lemma NoCallsAskOnly(r: Run, req: ScheduleRequest)
    requires forall e :: e in r.events ==> !e.Call?
    ensures AsksOnly(r, req)
  {
    forall i | 0 <= i < |r.events| ensures OnlyAsks(r.events[i], req) {
      assert r.events[i] in r.events;
    }
  }

  lemma CallEvents(cfg: Config, s: State, c: Id, request: Request, events: seq<Event>, t: State, req: ScheduleRequest)
    requires cfg.duration > 0 && Solo.Calls(cfg, s, c, request, events, t) && (request.MakeSchedule? ==> request.schedule == req)
    ensures Exec(cfg, s, events) == Some(t)
    ensures forall i :: 0 <= i < |events| ==> OnlyAsks(events[i], req) && Calm(events[i])
  {
    Solo.CallsExec(cfg, s, c, request, events, t);
    forall i | 0 <= i < |events| ensures OnlyAsks(events[i], req) && Calm(events[i]) {
      if i > 0 {
        assert events[i] == events[1..][i - 1];
        assert Solo.Smooth(events[i], c);
      }
    }
  }

  // ---- The rolling window stalls ----

  /**
   A schedule created on day `created` and a pass on day `today`: the due day `early` is in the first
   window, the due day `empty` is after it, and both are in the pass's window.
   */
  predicate Stalls(cfg: Config, c: Id, req: ScheduleRequest, created: int, today: int, early: int, empty: int) {
    && ValidConfig(cfg) && c in cfg.clients && Bookable(req, cfg.duration)
    && Due(StoredSchedule(req), early) && Due(StoredSchedule(req), empty)
    && created <= today && created <= early < created + cfg.window <= empty
    && today <= early < today + cfg.lookahead && today <= empty < today + cfg.lookahead
  }

  /** For two due days within one lookahead such days exist, however long the first window is. */
  lemma StallingDays(cfg: Config, c: Id, req: ScheduleRequest, early: int, empty: int) returns (created: int, today: int)
    requires ValidConfig(cfg) && c in cfg.clients && Bookable(req, cfg.duration) && cfg.window > 0
    requires Due(StoredSchedule(req), early) && Due(StoredSchedule(req), empty) && early < empty < early + cfg.lookahead
    ensures Stalls(cfg, c, req, created, today, early, empty)
  {
    if empty - early >= cfg.lookahead - cfg.window {
      today := empty - cfg.lookahead + 1;
      created := if today <= empty - cfg.window then today else empty - cfg.window;
    } else {
      created := early - cfg.window + 1;
      today := created;
    }
  }

  /** After the first window `early` has slots and `empty` has none. */
  lemma FirstWindowBlocks(cfg: Config, s: State, c: Id, user: Id, req: ScheduleRequest, created: int, today: int, early: int, empty: int)
    requires Stalls(cfg, c, req, created, today, early, empty) && JustScheduled(cfg, s, user, req, created)
    ensures Blocked(s.db.slots, req.lane, StoredSchedule(req), today, cfg.lookahead, cfg.duration, early, empty)
  {
    var g, sch, open := RequestHours(req), StoredSchedule(req), InitialDays(req.days);
    DayOfClock(created, Midnight(created));
    BookableAskable(req, cfg.duration);
    DueDayInitial(req.days, early);
    BatchFillsDay(map[], s.db.slots, req.lane, open, g, created, cfg.window, cfg.duration, early);
    FullHasSlot(s.db.slots, req.lane, g, early, cfg.duration);
    if HasSlotOn(s.db.slots, req.lane, empty) {
      TouchedDays(map[], s.db.slots, req.lane, open, g, created, cfg.window, cfg.duration, req.lane, empty);
    }
  }

  /** A run that from state `a` on, where a pass of client `c` starts in `s`, has taken steps of `c` only. */
  ghost predicate PassSoFar(cfg: Config, r: Run, a: nat, c: Id, s: State, req: ScheduleRequest) {
    && IsRun(cfg, r) && AsksOnly(r, req) && a < |r.states| && r.states[a] == s
    && forall x :: a <= x < |r.events| ==> r.events[x] == Step(c)
  }

  lemma StepOn(cfg: Config, r: Run, a: nat, c: Id, s: State, req: ScheduleRequest, t: State) returns (q: Run)
    requires PassSoFar(cfg, r, a, c, s, req) && Next(cfg, End(r), Step(c)) == Some(t)
    ensures PassSoFar(cfg, q, a, c, s, req) && End(q) == t
  {
    q := Extend(cfg, r, Step(c), t);
    StillAsksOnly(r, q, [Step(c)], req);
  }

  /** From a quiet state a day passes and a pass starts. */
  lemma ToStart(cfg: Config, r: Run, c: Id, req: ScheduleRequest, now: Time) returns (q: Run, a: nat)
    requires IsRun(cfg, r) && AsksOnly(r, req) && c in End(r).sessions && Coherence.AllIdle(End(r)) && End(r).now <= now
    ensures PassSoFar(cfg, q, a, c, Enter(End(r).(now := now), c, GenerateStart), req)
    ensures End(q) == Enter(End(r).(now := now), c, GenerateStart)
  {
    var s := End(r).(now := now);
    var r1 := Extend(cfg, r, Tick(now), s);
    StillAsksOnly(r, r1, [Tick(now)], req);
    q := Extend(cfg, r1, Call(c, GenerateAll), Enter(s, c, GenerateStart));
    StillAsksOnly(r1, q, [Call(c, GenerateAll)], req);
    a := |q.states| - 1;
  }

  /** With one scheduled lane it goes on to the point where the generator inserts the lane's batch. */
  lemma ToInsert(cfg: Config, r: Run, c: Id, req: ScheduleRequest, lane: Id, sch: Schedule, now: Time) returns (q: Run, a: nat)
    requires IsRun(cfg, r) && AsksOnly(r, req) && c in End(r).sessions && Coherence.AllIdle(End(r)) && End(r).now <= now
    requires End(r).db.lanes == [lane] && End(r).db.schedules == map[lane := sch]
    requires BackgroundSlots(lane, sch, now, cfg.lookahead, cfg.duration) != []
    ensures PassSoFar(cfg, q, a, c, Enter(End(r).(now := now), c, GenerateStart), req)
    ensures End(q) == Enter(End(r).(now := now), c, GenerateInsert(lane, sch, now, []))
  {
    var s := End(r).(now := now);
    var base := Enter(s, c, GenerateStart);
    q, a := ToStart(cfg, r, c, req, now);
    MoveOn(s, c, GenerateStart);
    q := StepOn(cfg, q, a, c, base, req, Enter(s, c, GenerateNext([lane])));
    Solo.LaneSteps(cfg, c, s, [lane], Step(c));
    assert [lane][1..] == [];
    q := StepOn(cfg, q, a, c, base, req, Enter(s, c, GenerateBuild(lane, sch, [])));
    q := StepOn(cfg, q, a, c, base, req, Enter(s, c, GenerateInsert(lane, sch, now, [])));
  }

  /**
   A pass of client `c` on day `today`, from state `a` to the end of the run, that leaves its window
   incomplete: at step `k` it tries the lane's batch, which the slots of `early` block.
   */
  ghost predicate Stalled(cfg: Config, r: Run, a: nat, k: nat, c: Id, ch: Choice, lane: Id, sch: Schedule, today: int, early: int, empty: int) {
    && |r.states| > 0 && PassOn(cfg, r, a, |r.states| - 1, c, today) && FaultFree(r, a, |r.states| - 1, c)
    && lane in r.states[a].db.lanes && lane in r.states[a].db.schedules && r.states[a].db.schedules[lane] == sch
    && a <= k < |r.events| && r.events[k] == Go(c, ch)
    && Stands(r.states[k], c, GenerateInsert(lane, sch, Midnight(today), []))
    && Blocked(r.states[k].db.slots, lane, sch, today, cfg.lookahead, cfg.duration, early, empty)
    && !WindowFull(End(r).db.slots, lane, sch, today, cfg.lookahead, cfg.duration)
  }

  /**
   Such days make a run, from an empty database and without any failure, in which a whole pass leaves
   its window incomplete.
   */
  lemma StallingRun(cfg: Config, c: Id, req: ScheduleRequest, created: int, today: int, early: int, empty: int)
    returns (r: Run, a: nat, k: nat, ch: Choice)
    requires Stalls(cfg, c, req, created, today, early, empty)
    ensures AsksOnly(r, req) && Stalled(cfg, r, a, k, c, ch, req.lane, StoredSchedule(req), today, early, empty)
  {
    var s := ReadyState(cfg, c, req, created, today, early, empty);
    r, a, k, ch := StallFrom(cfg, s, c, req, StoredSchedule(req), today, early, empty);
  }

  ghost predicate EndsIn(cfg: Config, r: Run, req: ScheduleRequest, s: State) {
    IsRun(cfg, r) && AsksOnly(r, req) && End(r) == s
  }

  /** The last state of some run in which this is the only schedule asked for. */
  ghost predicate Reachable(cfg: Config, req: ScheduleRequest, s: State) {
    exists r: Run :: EndsIn(cfg, r, req, s)
  }

  lemma ReadyState(cfg: Config, c: Id, req: ScheduleRequest, created: int, today: int, early: int, empty: int) returns (s: State)
    requires Stalls(cfg, c, req, created, today, early, empty)
    ensures Reachable(cfg, req, s) && Ready(cfg, s, c, req.lane, StoredSchedule(req), today, early, empty)
  {
    BookableAskable(req, cfg.duration);
    DueDayInitial(req.days, early);
    var r := OpeningRun(cfg, c, 0, req, created, early);
    s := End(r);
    assert EndsIn(cfg, r, req, s);
    ReadyToStall(cfg, s, c, 0, req, created, today, early, empty);
  }

  /** A quiet state, no later than `today`, with one scheduled lane whose batch will be blocked. */
  ghost predicate Ready(cfg: Config, s: State, c: Id, lane: Id, sch: Schedule, today: int, early: int, empty: int)
    requires cfg.duration > 0
  {
    && c in s.sessions && Coherence.AllIdle(s) && s.now <= Midnight(today)
    && s.db.lanes == [lane] && s.db.schedules == map[lane := sch]
    && BackgroundSlots(lane, sch, Midnight(today), cfg.lookahead, cfg.duration) != []
    && Blocked(s.db.slots, lane, sch, today, cfg.lookahead, cfg.duration, early, empty)
  }

  lemma ReadyToStall(cfg: Config, s: State, c: Id, user: Id, req: ScheduleRequest, created: int, today: int, early: int, empty: int)
    requires Stalls(cfg, c, req, created, today, early, empty) && JustScheduled(cfg, s, user, req, created)
    ensures Ready(cfg, s, c, req.lane, StoredSchedule(req), today, early, empty)
  {
    FirstWindowBlocks(cfg, s, c, user, req, created, today, early, empty);
    DayOfClock(today, Midnight(today));
    BatchNotEmpty(req, Midnight(today), cfg.lookahead, cfg.duration, early);
  }

  /** The same from any reachable state in which one lane has a schedule and its batch will be blocked. */
  lemma StallFrom(cfg: Config, s: State, c: Id, req: ScheduleRequest, sch: Schedule, today: int, early: int, empty: int)
    returns (r: Run, a: nat, k: nat, ch: Choice)
    requires cfg.duration > 0 && TwoGrids.CoveringRequest(req, cfg.duration)
    requires Reachable(cfg, req, s) && Ready(cfg, s, c, req.lane, sch, today, early, empty)
    ensures AsksOnly(r, req) && Stalled(cfg, r, a, k, c, ch, req.lane, sch, today, early, empty)
  {
    var now := Midnight(today);
    var before: Run :| EndsIn(cfg, before, req, s);
    var base := Enter(s.(now := now), c, GenerateStart);
    var q;
    q, a := ToInsert(cfg, before, c, req, req.lane, sch, now);
    r, k, ch := Finish(cfg, q, a, base, c, req, sch, today, early, empty);
  }

  lemma BatchNotEmpty(req: ScheduleRequest, now: Time, n: nat, dur: int, day: int)
    requires dur > 0 && Bookable(req, dur) && DayOf(now) <= day < DayOf(now) + n && Due(StoredSchedule(req), day)
    ensures BackgroundSlots(req.lane, StoredSchedule(req), now, n, dur) != []
  {
    var sch := StoredSchedule(req);
    WindowEmpty(req.lane, BackgroundDays(sch.days), LaneHours(sch), DayOf(now), n, dur);
  }

  /** The refused insert. */
  lemma Refused(cfg: Config, r: Run, c: Id, req: ScheduleRequest, sch: Schedule, today: int, early: int, empty: int) returns (q: Run, ch: Choice)
    requires IsRun(cfg, r) && AsksOnly(r, req) && TwoGrids.CoveringRequest(req, cfg.duration)
    requires Stands(End(r), c, GenerateInsert(req.lane, sch, Midnight(today), []))
    requires req.lane in End(r).db.schedules && End(r).db.schedules[req.lane] == sch && End(r).now == Midnight(today)
    requires Blocked(End(r).db.slots, req.lane, sch, today, cfg.lookahead, cfg.duration, early, empty)
    ensures IsRun(cfg, q) && AsksOnly(q, req) && q.events == r.events + [Go(c, ch)] && q.states == r.states + [End(q)]
    ensures End(q) == Enter(End(r), c, GenerateNext([]))
    ensures !WindowFull(End(q).db.slots, req.lane, sch, today, cfg.lookahead, cfg.duration)
  {
    var s, now := End(r), Midnight(today);
    assert DayOf(now) == today;
    var slots := BackgroundSlots(req.lane, sch, now, cfg.lookahead, cfg.duration);
    var next := Progress.AboveAll(s.db.slots.Keys);
    ch := Choice(Solo.Ids(next, |slots|), true);
    Solo.IdsNumber(next, slots, s.db.slots);
    Solo.InsertStep(cfg, c, s, req.lane, [], Go(c, ch));
    assert Enter(s, c, s.sessions[c].pc).sessions == s.sessions;
    q := Extend(cfg, r, Go(c, ch), Enter(s.(db := Solo.Inserted(cfg, s, req.lane, ch.ids)), c, GenerateNext([])));
    StillAsksOnly(r, q, [Go(c, ch)], req);
    AsksOnlyCovers(cfg, q, req);
    RollingWindowStalls(cfg, q, |r.events|, c, ch, early, empty);
  }

  /** And the end of the pass. */
  lemma Finish(cfg: Config, r: Run, a: nat, base: State, c: Id, req: ScheduleRequest, sch: Schedule, today: int, early: int, empty: int)
    returns (q: Run, k: nat, ch: Choice)
    requires PassSoFar(cfg, r, a, c, base, req) && c in base.sessions && base.sessions[c].pc.GenerateStart? && base.now == Midnight(today)
    requires req.lane in base.db.lanes && base.db == End(r).db && TwoGrids.CoveringRequest(req, cfg.duration)
    requires Stands(End(r), c, GenerateInsert(req.lane, sch, Midnight(today), []))
    requires req.lane in End(r).db.schedules && End(r).db.schedules[req.lane] == sch && End(r).now == Midnight(today)
    requires Blocked(End(r).db.slots, req.lane, sch, today, cfg.lookahead, cfg.duration, early, empty)
    ensures AsksOnly(q, req) && Stalled(cfg, q, a, k, c, ch, req.lane, sch, today, early, empty)
  {
    var q1;
    q1, ch := Refused(cfg, r, c, req, sch, today, early, empty);
    k := |r.events|;
    MoveOn(End(r), c, GenerateNext([]));
    q := Extend(cfg, q1, Step(c), Reply(End(r), c, GenerationOver));
    StillAsksOnly(q1, q, [Step(c)], req);
    assert DayOf(Midnight(today)) == today;
    assert q.states[a] == r.states[a] && q.states[k] == End(r);
    forall x | a <= x < |q.events| ensures q.events[x] != Fault(c) {
      if x < k {
        assert q.events[x] == r.events[x];
      }
    }
  }

  // ---- When the rolling window holds ----

  /** Every pass without a failure, of every run, on a covering lane with this schedule leaves its whole window full. */
  ghost predicate PassesFill(cfg: Config, req: ScheduleRequest)
    requires cfg.duration > 0 && InOrder(req)
  {
    forall r: Run, a: nat, b: nat, c: Id, today: int ::
      PassOn(cfg, r, a, b, c, today) && FaultFree(r, a, b, c) && CoveringLane(r, req.lane, cfg.duration) && HasSchedule(r.states[a].db, req)
      ==> WindowFull(r.states[b].db.slots, req.lane, StoredSchedule(req), today, cfg.lookahead, cfg.duration)
  }

  predicate HasSchedule(db: Db, req: ScheduleRequest)
    requires InOrder(req)
  {
    req.lane in db.lanes && req.lane in db.schedules && db.schedules[req.lane] == StoredSchedule(req)
  }

  /**
   The promise of a full rolling window, exactly: whatever the lengths of the first window and of the
   lookahead, every pass keeps it if and only if no lookahead window holds two due days.
   */
  lemma RollingWindowHoldsExactly(cfg: Config, c: Id, req: ScheduleRequest)
    requires ValidConfig(cfg) && c in cfg.clients && Bookable(req, cfg.duration) && cfg.window > 0
    ensures PassesFill(cfg, req) <==> forall first :: SingleDue(StoredSchedule(req), first, cfg.lookahead)
  {
    var sch := StoredSchedule(req);
    if forall first :: SingleDue(sch, first, cfg.lookahead) {
      forall r: Run, a: nat, b: nat, c: Id, today: int
        | PassOn(cfg, r, a, b, c, today) && FaultFree(r, a, b, c) && CoveringLane(r, req.lane, cfg.duration) && HasSchedule(r.states[a].db, req)
        ensures WindowFull(r.states[b].db.slots, req.lane, sch, today, cfg.lookahead, cfg.duration)
      {
        FaultFreeSpares(r, a, b, c);
        PassFillsWindow(cfg, r, a, b, c, today, req.lane, sch);
      }
    } else {
      var first :| !SingleDue(sch, first, cfg.lookahead);
      var d, e :| first <= d < e < first + cfg.lookahead && Due(sch, d) && Due(sch, e);
      SomePassStalls(cfg, c, req, d, e);
    }
  }

  lemma SomePassStalls(cfg: Config, c: Id, req: ScheduleRequest, d: int, e: int)
    requires ValidConfig(cfg) && c in cfg.clients && Bookable(req, cfg.duration) && cfg.window > 0
    requires Due(StoredSchedule(req), d) && Due(StoredSchedule(req), e) && d < e < d + cfg.lookahead
    ensures !PassesFill(cfg, req)
  {
    var created, today := StallingDays(cfg, c, req, d, e);
    var r, a, k, ch := StallingRun(cfg, c, req, created, today, d, e);
    AsksOnlyCovers(cfg, r, req);
    assert PassOn(cfg, r, a, |r.states| - 1, c, today) && FaultFree(r, a, |r.states| - 1, c) && HasSchedule(r.states[a].db, req);
  }

  lemma DueAgain(sch: Schedule, day: int)
    requires Due(sch, day)
    ensures Due(sch, day + 7)
  {
    assert Weekday(day + 7) == Weekday(day);
  }

  /** With any lookahead over a week, one scheduled Monday to Saturday is enough to break it. */
  lemma OverAWeekStalls(cfg: Config, c: Id, req: ScheduleRequest, day: int)
    requires ValidConfig(cfg) && c in cfg.clients && Bookable(req, cfg.duration) && cfg.window > 0 && cfg.lookahead > 7
    requires Due(StoredSchedule(req), day)
    ensures !PassesFill(cfg, req)
  {
    DueAgain(StoredSchedule(req), day);
    SomePassStalls(cfg, c, req, day, day + 7);
  }

  // ---- A stale hit ----

  /** The first window of a lane gives it a free slot. */
  lemma SomeSlot(cfg: Config, s: State, user: Id, req: ScheduleRequest, day: int, open: int) returns (slot: Id)
    requires ValidConfig(cfg) && Askable(req, cfg.duration) && JustScheduled(cfg, s, user, req, day)
    requires day <= open < day + cfg.window && Weekday(open) in InitialDays(req.days)
    ensures slot in s.db.slots && !Taken(s.db.bookings, slot)
  {
    var slots := InitialSlots(req, Midnight(day), cfg.window, cfg.duration);
    assert DayOf(Midnight(day)) == day;
    WindowEmpty(req.lane, InitialDays(req.days), RequestHours(req), day, cfg.window, cfg.duration);
    assert slots[0] in slots;
    assert Present(s.db.slots, slots[0]);
    slot :| slot in s.db.slots && s.db.slots[slot] == slots[0];
  }

  /** The last thing a client was told is a listing that shows a slot booked by now. */
  predicate ToldBooked(s: State, c: Id, rows: seq<SlotRow>, slot: Id) {
    && c in s.sessions && |s.sessions[c].answers| > 0 && s.sessions[c].answers[|s.sessions[c].answers| - 1] == Listing(rows, true)
    && slot in s.db.slots && SlotRow(slot, s.db.slots[slot]) in rows && Taken(s.db.bookings, slot)
  }

  /**
   From an empty database there is a run without any failure, every delete reaching the cache, that
   ends with a reader being told of a booked slot.
   */
  lemma StaleHitRun(cfg: Config, reader: Id, creator: Id, late: Id, user: Id, req: ScheduleRequest, day: int, open: int)
    returns (r: Run, rows: seq<SlotRow>, slot: Id)
    requires ValidConfig(cfg) && cfg.cached && {reader, creator, late} <= cfg.clients && reader != creator && creator != late && reader != late
    requires Askable(req, cfg.duration) && day <= open < day + cfg.window && Weekday(open) in InitialDays(req.days)
    ensures IsRun(cfg, r) && ToldBooked(End(r), late, rows, slot)
    ensures forall e :: e in r.events ==> Calm(e)
  {
    var before := OpeningRun(cfg, reader, user, req, day, open);
    slot := SomeSlot(cfg, End(before), user, req, day, open);
    r, rows := HitFrom(cfg, before, reader, creator, late, user, slot);
  }

  lemma HitFrom(cfg: Config, before: Run, reader: Id, creator: Id, late: Id, user: Id, slot: Id) returns (r: Run, rows: seq<SlotRow>)
    requires cfg.cached && IsRun(cfg, before) && Coherence.AllIdle(End(before)) && {reader, creator, late} <= End(before).sessions.Keys
    requires reader != creator && creator != late && reader != late && End(before).cache == map[] && End(before).db.bookings == map[]
    requires user in End(before).db.users && slot in End(before).db.slots
    requires forall e :: e in before.events ==> Calm(e)
    ensures IsRun(cfg, r) && ToldBooked(End(r), late, rows, slot)
    ensures forall e :: e in r.events ==> Calm(e)
  {
    var s, n := End(before), |before.states| - 1;
    BookingSafety.RunInv(cfg, before, n);
    var query, book, fill, read, t;
    query, book, fill, read, t, rows := StaleHit.StaleHitPossible(cfg, s, reader, creator, late, user, slot, 0);
    r := ExecExtends(cfg, before, query + book + fill + read, t);
    AllCalm(query, book, fill, read, reader, creator, late);
    SlotKept(cfg, before, r, slot);
  }

  lemma SlotKept(cfg: Config, before: Run, r: Run, slot: Id)
    requires IsRun(cfg, before) && IsRun(cfg, r) && |r.states| >= |before.states| && r.states[..|before.states|] == before.states
    requires slot in End(before).db.slots
    ensures slot in End(r).db.slots && End(r).db.slots[slot] == End(before).db.slots[slot]
  {
    var n := |before.states| - 1;
    assert r.states[n] == r.states[..|before.states|][n];
    BookingSafety.RowsOnlyMoveForward(cfg, r, n, |r.states| - 1);
  }

  lemma AllCalm(query: seq<Event>, book: seq<Event>, fill: seq<Event>, read: seq<Event>, a: Id, b: Id, c: Id)
    requires StaleHit.Undisturbed(query, a) && StaleHit.Undisturbed(book, b) && StaleHit.Undisturbed(fill, a) && StaleHit.Undisturbed(read, c)
    ensures forall e :: e in query + book + fill + read ==> Calm(e)
  {
  }

  // ---- Overlapping slots ----

  /** Two overlapping slots of the lane, in a run that asks for one schedule on it. */
  ghost predicate Overlaps(cfg: Config, r: Run, k: nat, req: ScheduleRequest, i: Id, j: Id) {
    && IsRun(cfg, r) && k < |r.states|
    && (forall x :: 0 <= x < |r.events| && Requests.AsksFor(r.events[x], req.lane) ==> r.events[x].request.schedule == req)
    && (var slots := r.states[k].db.slots;
        && i in slots && j in slots && i != j && slots[i].lane == req.lane == slots[j].lane
        && slots[i].start < slots[j].end && slots[j].start < slots[i].end)
  }

  /** A first window that holds its slots and no others. */
  lemma StartedFrom(cfg: Config, s: State, user: Id, req: ScheduleRequest, day: int, next: Id)
    requires ValidConfig(cfg) && InOrder(req) && JustScheduled(cfg, s, user, req, day) && FreshFrom(s.db.slots, next)
    ensures TwoGrids.Started(s.db, req, Midnight(day), cfg.window, cfg.duration, next)
  {
    var slots := InitialSlots(req, Midnight(day), cfg.window, cfg.duration);
    WindowLane(req.lane, InitialDays(req.days), RequestHours(req), DayOf(Midnight(day)), cfg.window, cfg.duration);
    forall x | x in slots ensures x in Generation.LaneSlots(s.db.slots, req.lane) {
      assert Present(s.db.slots, x);
    }
  }

  /** Two different overlapping slots of the lane. */
  lemma OverlappingIds(slots: map<Id, Slot>, lane: Id) returns (i: Id, j: Id)
    requires !TwoGrids.NoOverlap(Generation.LaneSlots(slots, lane))
    ensures i in slots && j in slots && i != j && slots[i].lane == lane == slots[j].lane
    ensures slots[i].start < slots[j].end && slots[j].start < slots[i].end
  {
    var a, b :| a in Generation.LaneSlots(slots, lane) && b in Generation.LaneSlots(slots, lane) && !TwoGrids.Disjoint(a, b);
    i :| i in slots && slots[i].lane == lane && slots[i] == a;
    j :| j in slots && slots[j].lane == lane && slots[j] == b;
  }

  /** From an empty database: the schedule is created, a pass follows on the same day, and two slots overlap. */
  lemma OverlapRun(cfg: Config, c: Id, req: ScheduleRequest, day: int) returns (r: Run, i: Id, j: Id)
    requires ValidConfig(cfg) && c in cfg.clients && Askable(req, cfg.duration) && cfg.window > 0 && cfg.lookahead > 0
    requires Due(StoredSchedule(req), day) && !TwoGrids.GridsAgree(RequestHours(req), TwoGrids.ColumnHours(req), cfg.duration)
    ensures |r.states| > 0 && Overlaps(cfg, r, |r.states| - 1, req, i, j)
  {
    DueDayInitial(req.days, day);
    var before := OpeningRun(cfg, c, 0, req, day, day);
    r, i, j := PassOverlaps(cfg, before, c, 0, req, day);
  }

  lemma PassOverlaps(cfg: Config, before: Run, c: Id, user: Id, req: ScheduleRequest, day: int) returns (r: Run, i: Id, j: Id)
    requires IsRun(cfg, before) && c in cfg.clients && InOrder(req) && AsksOnly(before, req) && cfg.window > 0 && cfg.lookahead > 0
    requires JustScheduled(cfg, End(before), user, req, day) && Due(StoredSchedule(req), day)
    requires !TwoGrids.GridsAgree(RequestHours(req), TwoGrids.ColumnHours(req), cfg.duration)
    ensures |r.states| > 0 && Overlaps(cfg, r, |r.states| - 1, req, i, j)
  {
    var s, now := End(before), Midnight(day);
    var next := Progress.AboveAll(s.db.slots.Keys);
    DayOfClock(day, now);
    StartedFrom(cfg, s, user, req, day, next);
    TwoGrids.NextBatch(s.db, req, now, cfg.window, next, now, cfg.lookahead, cfg.duration, day);
    OneLanePass(cfg, s.db, req.lane, now, next);
    var t := Solo.AfterGenerate(cfg, s, c, next);
    i, j := OverlappingIds(t.db.slots, req.lane);
    var events := Solo.GenerateAlone(cfg, s, c, next);
    CallEvents(cfg, s, c, GenerateAll, events, t, req);
    r := ExecExtends(cfg, before, events, t);
    StillAsksOnly(before, r, events, req);
    AskedOnLane(r, req);
  }

  lemma AskedOnLane(r: Run, req: ScheduleRequest)
    requires AsksOnly(r, req)
    ensures forall x :: 0 <= x < |r.events| && Requests.AsksFor(r.events[x], req.lane) ==> r.events[x].request.schedule == req
  {
    forall x | 0 <= x < |r.events| && Requests.AsksFor(r.events[x], req.lane) ensures r.events[x].request.schedule == req {
      assert OnlyAsks(r.events[x], req);
    }
  }

  lemma OneLanePass(cfg: Config, db: Db, lane: Id, now: Time, first: Id)
    requires cfg.duration > 0 && db.lanes == [lane]
    ensures Solo.Passed(cfg, db, now, db.lanes, first) == GenerateLane(db, lane, now, first, cfg.lookahead, cfg.duration)
  {
    Solo.FirstTurn(cfg, db, now, db.lanes, first);
    assert db.lanes[1..] == [];
  }

  /**
   Overlap, exactly: a request that the table takes, for at least one Monday to Saturday, can lead to
   overlapping slots on its lane in some run if and only if its two grids do not agree.
   */
  lemma OverlapExactly(cfg: Config, c: Id, req: ScheduleRequest, day: int)
    requires ValidConfig(cfg) && c in cfg.clients && cfg.window > 0 && cfg.lookahead > 0
    requires ValidDays(req.days) && InOrder(req) && Due(StoredSchedule(req), day)
    ensures (exists r: Run, k: nat, i: Id, j: Id :: Overlaps(cfg, r, k, req, i, j))
            <==> !TwoGrids.GridsAgree(RequestHours(req), TwoGrids.ColumnHours(req), cfg.duration)
  {
    if TwoGrids.GridsAgree(RequestHours(req), TwoGrids.ColumnHours(req), cfg.duration) {
      forall r: Run, k: nat, i: Id, j: Id ensures !Overlaps(cfg, r, k, req, i, j) {
        AgreeingNeverOverlaps(cfg, r, k, req, i, j);
      }
    } else {
      TwoGrids.DisagreeingHasSlot(RequestHours(req), TwoGrids.ColumnHours(req), cfg.duration);
      var r, i, j := OverlapRun(cfg, c, req, day);
      assert Overlaps(cfg, r, |r.states| - 1, req, i, j);
    }
  }

  lemma AgreeingNeverOverlaps(cfg: Config, r: Run, k: nat, req: ScheduleRequest, i: Id, j: Id)
    requires cfg.duration > 0 && TwoGrids.AgreeingRequest(req, cfg.duration)
    ensures !Overlaps(cfg, r, k, req, i, j)
  {
    if Overlaps(cfg, r, k, req, i, j) {
      forall x | 0 <= x < |r.events| ensures AgreeingRuns.AgreeingStep(r.states[x], r.events[x], req.lane, cfg.duration) {
        if Accepts(r.states[x], r.events[x]) && Accepted(r.states[x], r.events[x]).lane == req.lane {
          Requests.OnlyAsked(cfg, r, req.lane, req, x);
        }
      }
      AgreeingRuns.SlotsNeverOverlap(cfg, r, k, i, j);
    }
  }

  /** Opening at "9:5" with the deployed half-hour slots does so, on any scheduled Monday to Saturday. */
  lemma ShortMinuteRun(cfg: Config, c: Id, lane: Id, days: seq<int>, day: int) returns (r: Run, i: Id, j: Id)
    requires ValidConfig(cfg) && c in cfg.clients && cfg.duration == 30 * MINUTE && cfg.window > 0 && cfg.lookahead > 0
    requires ValidDays(days) && Weekday(day) in BackgroundDays(days)
    ensures |r.states| > 0 && Overlaps(cfg, r, |r.states| - 1, TwoGrids.ShortMinuteRequest(lane, days), i, j)
  {
    TwoGrids.ShortMinuteHours(lane, days);
    TwoGrids.FivePastNineAgainstMidnight();
    r, i, j := OverlapRun(cfg, c, TwoGrids.ShortMinuteRequest(lane, days), day);
  }
}
