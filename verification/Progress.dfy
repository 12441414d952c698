/**
 No call need wait for ever: who waits for whom, how many steps a call can take, and that from every
 reachable state all calls can be brought to their answers.
 */
module Progress {
  import opened Prelude
  import opened Models
  import opened Tables
  import opened Scheduling
  import opened Engine
  import opened Execution
  import opened Answers
  import Coherence
  import Solo

  // ---- Waiting ----

  /** Client `c` waits for an uncommitted statement of client `d`: of the slot, of the booking, of the lane. */
  predicate Waits(s: State, c: Id, d: Id) {
    c in s.sessions && d in s.sessions && c != d &&
    var p := s.sessions[d].pc;
    match s.sessions[c].pc
    case CreateInsert(_, slot, _, _) =>
      || (p.CreateCommit? && p.slot == slot)
      || (p.CancelCommit? && p.booking in s.db.bookings && s.db.bookings[p.booking].slot == slot && s.db.bookings[p.booking].status.Active?)
    case CancelUpdate(_, booking, _) => p.CancelCommit? && p.booking == booking
    case ScheduleInsert(req) => (p.ScheduleBuild? || p.ScheduleCommit?) && p.req.lane == req.lane
    case _ => false
  }

  ghost predicate Waiting(s: State, c: Id) {
    exists d :: Waits(s, c, d)
  }

  ghost predicate CanGo(cfg: Config, s: State, c: Id)
    requires cfg.duration > 0
  {
    exists ch: Choice :: Next(cfg, s, Go(c, ch)).Some?
  }

  lemma WaitingIsHeld(s: State, c: Id)
    requires c in s.sessions
    ensures Waiting(s, c) <==>
            match s.sessions[c].pc
            case CreateInsert(_, slot, _, _) => SlotHeld(s, c, slot)
            case CancelUpdate(_, booking, _) => RowHeld(s, c, booking)
            case ScheduleInsert(req) => LaneHeld(s, c, req.lane)
            case _ => false
  {
    match s.sessions[c].pc
    case CreateInsert(_, slot, _, _) =>
      if d :| d in s.sessions && d != c && HoldsSlot(s.sessions[d].pc, s.db.bookings, slot) {
        assert Waits(s, c, d);
      }
    case CancelUpdate(_, booking, _) =>
      if d :| d in s.sessions && d != c && s.sessions[d].pc.CancelCommit? && s.sessions[d].pc.booking == booking {
        assert Waits(s, c, d);
      }
    case ScheduleInsert(req) =>
      if d :| d in s.sessions && d != c && HoldsLane(s.sessions[d].pc, req.lane) {
        assert Waits(s, c, d);
      }
    case _ =>
  }

  /** An id above all others. */
  lemma {:induction false} AboveAll(used: set<Id>) returns (first: Id)
    ensures forall i :: i in used ==> i < first
  {
    if used == {} {
      first := 0;
    } else {
      var i :| i in used;
      var rest := used - {i};
      first := AboveAll(rest);
      assert forall x :: x in used ==> x == i || x in rest;
      if first <= i {
        first := i + 1;
      }
    }
  }

  /** Whether the step draws no ids, and so needs no choice. */
  predicate DrawsNone(pc: Pc) {
    !pc.CreateInsert? && !pc.ScheduleCommit? && !pc.GenerateInsert?
  }

  lemma DrawlessGo(cfg: Config, s: State, c: Id)
    requires cfg.duration > 0 && Busy(s, c) && DrawsNone(s.sessions[c].pc) && !Waiting(s, c)
    ensures StepGo(cfg, s, c, REACHED).Some?
  {
    WaitingIsHeld(s, c);
  }

  lemma InsertGoes(cfg: Config, s: State, c: Id) returns (ch: Choice)
    requires cfg.duration > 0 && c in s.sessions && s.sessions[c].pc.CreateInsert? && !Waiting(s, c)
    ensures StepCreate(cfg, s, c, ch).Some?
  {
    WaitingIsHeld(s, c);
    var id := FreshBooking(s);
    ch := Choice([id], true);
  }

  lemma BatchGoes(cfg: Config, s: State, c: Id) returns (ch: Choice)
    requires cfg.duration > 0 && c in s.sessions && (s.sessions[c].pc.ScheduleCommit? || s.sessions[c].pc.GenerateInsert?)
    ensures StepGo(cfg, s, c, ch).Some?
  {
    match s.sessions[c].pc
    case ScheduleCommit(req, at) => ch := FreshChoice(s.db.slots, |InitialSlots(req, at, cfg.window, cfg.duration)|);
    case GenerateInsert(lane, sch, at, _) =>
      ch := FreshChoice(s.db.slots, |BackgroundSlots(lane, sch, at, cfg.lookahead, cfg.duration)|);
  }

  /** What the database would generate for a client's next step. */
  lemma SomeChoice(cfg: Config, s: State, c: Id) returns (ch: Choice)
    requires cfg.duration > 0 && Busy(s, c) && !Waiting(s, c)
    ensures Next(cfg, s, Go(c, ch)).Some?
  {
    if DrawsNone(s.sessions[c].pc) {
      DrawlessGo(cfg, s, c);
      ch := REACHED;
    } else if s.sessions[c].pc.CreateInsert? {
      ch := InsertGoes(cfg, s, c);
    } else {
      ch := BatchGoes(cfg, s, c);
    }
  }

  lemma FreshBooking(s: State) returns (id: Id)
    ensures id !in s.db.bookings && !BookingIdHeld(s, id)
  {
    var held := set d | d in s.sessions && s.sessions[d].pc.CreateCommit? :: s.sessions[d].pc.booking;
    id := AboveAll(s.db.bookings.Keys + held);
    assert id !in held && id !in s.db.bookings.Keys;
  }

  lemma FreshChoice(slots: map<Id, Slot>, n: nat) returns (ch: Choice)
    ensures |ch.ids| == n && FreshIds(ch.ids, slots)
  {
    var first := AboveAll(slots.Keys);
    ch := Choice(Solo.Ids(first, n), true);
  }

  /** A client in a call can take its next step exactly when it waits for no one. */
  lemma GoesOnExactly(cfg: Config, s: State, c: Id)
    requires cfg.duration > 0 && Busy(s, c)
    ensures CanGo(cfg, s, c) <==> !Waiting(s, c)
  {
    WaitingIsHeld(s, c);
    if !Waiting(s, c) {
      var ch := SomeChoice(cfg, s, c);
    }
  }

  /** Whoever is waited for is in a transaction that waits for nobody: there is no deadlock. */
  lemma NoDeadlock(cfg: Config, s: State, c: Id, d: Id)
    requires cfg.duration > 0 && Waits(s, c, d)
    ensures Busy(s, d) && !Waiting(s, d) && CanGo(cfg, s, d)
  {
    GoesOnExactly(cfg, s, d);
  }

  /** The client's next statement goes to the database. */
  predicate AsksDatabase(pc: Pc) {
    && !pc.Idle? && !pc.CreateInvalidate? && !pc.CancelInvalidate? && !pc.ReadCache? && !pc.ReadFill? && !pc.GenerateBuild?
    && (pc.GenerateNext? ==> pc.rest != [])
  }

  /**
   What the surroundings may do is never held back: a call by any client that is in none, a failure of any
   database statement, a tick, an eviction, a new user or lane.
   */
  lemma SurroundingsExactly(cfg: Config, s: State, e: Event)
    requires cfg.duration > 0 && !e.Go?
    ensures Next(cfg, s, e).Some? <==>
            match e
            case Call(c, _) => c in s.sessions && s.sessions[c].pc.Idle?
            case Fault(c) => c in s.sessions && AsksDatabase(s.sessions[c].pc)
            case Tick(to) => s.now <= to
            case AddLane(lane, position) => lane !in s.db.lanes && position <= |s.db.lanes|
            case _ => true
  {
  }

  // ---- How long a call can take ----

  /** The most steps a client has before it, with so many lanes. */
  function Ahead(pc: Pc, lanes: nat): nat {
    match pc
    case Idle => 0
    case CreateGet(_, _) => 4
    case CreateInsert(_, _, _, _) => 3
    case CreateCommit(_, _, _, _, _) => 2
    case CreateInvalidate(_, _) => 1
    case CancelGet(_, _) => 5
    case CancelSlot(_, _, _) => 4
    case CancelUpdate(_, _, _) => 3
    case CancelCommit(_, _, _) => 2
    case CancelInvalidate(_, _) => 1
    case ReadCache(_) => 4
    case ReadLane(_) => 3
    case ReadQuery(_) => 2
    case ReadFill(_, _) => 1
    case ScheduleCheck(_) => 4
    case ScheduleInsert(_) => 3
    case ScheduleBuild(_) => 2
    case ScheduleCommit(_, _) => 1
    case GenerateStart => 3 * lanes + 2
    case GenerateNext(rest) => 3 * |rest| + 1
    case GenerateBuild(_, _, rest) => 3 * |rest| + 3
    case GenerateInsert(_, _, _, rest) => 3 * |rest| + 2
  }

  /** Every step of a call, failing ones included, brings it nearer to its end. */
  lemma StepDescends(cfg: Config, s: State, e: Event, t: State, c: Id, lanes: nat)
    requires cfg.duration > 0 && Next(cfg, s, e) == Some(t) && Busy(s, c) && ActsFor(e, c)
    ensures c in t.sessions && Ahead(t.sessions[c].pc, lanes) < Ahead(s.sessions[c].pc, |s.db.lanes|) && !t.sessions[c].pc.GenerateStart?
  {
    if e.Go? {
      GoDescends(cfg, s, c, e.choice, t, lanes);
    }
  }

  lemma GoDescends(cfg: Config, s: State, c: Id, ch: Choice, t: State, lanes: nat)
    requires cfg.duration > 0 && Busy(s, c) && StepGo(cfg, s, c, ch) == Some(t)
    ensures c in t.sessions && Ahead(t.sessions[c].pc, lanes) < Ahead(s.sessions[c].pc, |s.db.lanes|) && !t.sessions[c].pc.GenerateStart?
  {
    var pc := s.sessions[c].pc;
    if InCreate(pc) {
      CreateDescends(cfg, s, c, ch, t, lanes);
    } else if InCancel(pc) {
      CancelDescends(cfg, s, c, ch, t, lanes);
    } else if InRead(pc) {
      ReadDescends(cfg, s, c, ch, t, lanes);
    } else if InSchedule(pc) {
      ScheduleDescends(cfg, s, c, ch, t, lanes);
    } else {
      PassDescends(cfg, s, c, ch, t, lanes);
    }
  }

  lemma CreateDescends(cfg: Config, s: State, c: Id, ch: Choice, t: State, lanes: nat)
    requires cfg.duration > 0 && c in s.sessions && InCreate(s.sessions[c].pc) && StepCreate(cfg, s, c, ch) == Some(t)
    ensures c in t.sessions && Ahead(t.sessions[c].pc, lanes) < Ahead(s.sessions[c].pc, |s.db.lanes|) && !t.sessions[c].pc.GenerateStart?
  {
  }

  lemma CancelDescends(cfg: Config, s: State, c: Id, ch: Choice, t: State, lanes: nat)
    requires cfg.duration > 0 && c in s.sessions && InCancel(s.sessions[c].pc) && StepCancel(cfg, s, c, ch) == Some(t)
    ensures c in t.sessions && Ahead(t.sessions[c].pc, lanes) < Ahead(s.sessions[c].pc, |s.db.lanes|) && !t.sessions[c].pc.GenerateStart?
  {
  }

  lemma ReadDescends(cfg: Config, s: State, c: Id, ch: Choice, t: State, lanes: nat)
    requires cfg.duration > 0 && c in s.sessions && InRead(s.sessions[c].pc) && StepRead(cfg, s, c, ch) == Some(t)
    ensures c in t.sessions && Ahead(t.sessions[c].pc, lanes) < Ahead(s.sessions[c].pc, |s.db.lanes|) && !t.sessions[c].pc.GenerateStart?
  {
    ReadAct(cfg, s, c, ch, t);
    ReadPositions(s.sessions[c].pc, t.sessions[c].pc, lanes, |s.db.lanes|);
  }

  lemma ReadPositions(p: Pc, q: Pc, lanes: nat, before: nat)
    requires (p.ReadCache? && (q.Idle? || q.ReadLane?)) || (p.ReadLane? && (q.Idle? || q.ReadQuery?))
             || (p.ReadQuery? && (q.Idle? || q.ReadFill?)) || (p.ReadFill? && q.Idle?)
    ensures Ahead(q, lanes) < Ahead(p, before) && !q.GenerateStart?
  {
  }

  lemma ScheduleDescends(cfg: Config, s: State, c: Id, ch: Choice, t: State, lanes: nat)
    requires cfg.duration > 0 && c in s.sessions && InSchedule(s.sessions[c].pc) && StepSchedule(cfg, s, c, ch) == Some(t)
    ensures c in t.sessions && Ahead(t.sessions[c].pc, lanes) < Ahead(s.sessions[c].pc, |s.db.lanes|) && !t.sessions[c].pc.GenerateStart?
  {
  }

  lemma PassDescends(cfg: Config, s: State, c: Id, ch: Choice, t: State, lanes: nat)
    requires cfg.duration > 0 && c in s.sessions && Busy(s, c) && StepGenerate(cfg, s, c, ch) == Some(t)
    ensures c in t.sessions && Ahead(t.sessions[c].pc, lanes) < Ahead(s.sessions[c].pc, |s.db.lanes|) && !t.sessions[c].pc.GenerateStart?
  {
  }
  /** How many steps a call takes at most. */
  function Length(request: Request, lanes: nat): nat {
    match request
    case CreateBooking(_, _) => 4
    case CancelBookingOf(_, _) => 5
    case ListSlots(_) => 4
    case MakeSchedule(_) => 4
    case GenerateAll => 3 * lanes + 2
  }

  /** The steps of client `c`, failures included, from state `j` to state `k`. */
  function OwnSteps(r: Run, j: nat, k: nat, c: Id): nat
    requires j <= k <= |r.events|
    decreases k - j
  {
    if j == k then 0 else OwnSteps(r, j, k - 1, c) + (if ActsFor(r.events[k - 1], c) then 1 else 0)
  }

  /** No lane goes away. */
  lemma LanesStay(cfg: Config, s: State, e: Event, t: State)
    requires cfg.duration > 0 && Next(cfg, s, e) == Some(t)
    ensures |s.db.lanes| <= |t.db.lanes|
  {
    if e.Go? {
      LanesAlike(cfg, s, e.client, e.choice, t);
    }
  }

  lemma LanesAlike(cfg: Config, s: State, c: Id, ch: Choice, t: State)
    requires cfg.duration > 0 && c in s.sessions && StepGo(cfg, s, c, ch) == Some(t)
    ensures t.db.lanes == s.db.lanes
  {
    match s.sessions[c].pc
    case ScheduleCommit(_, _) => ScheduleLanes(cfg, s, c, ch, t);
    case GenerateInsert(lane, sch, at, _) =>
      InsertSlotsExact(s.db, WithIds(ch.ids, BackgroundSlots(lane, sch, at, cfg.lookahead, cfg.duration)));
    case CreateCommit(_, _, _, _, _) =>
    case CancelCommit(_, _, _) =>
    case _ => FrameGo(cfg, s, c, ch);
  }

  lemma ScheduleLanes(cfg: Config, s: State, c: Id, ch: Choice, t: State)
    requires cfg.duration > 0 && c in s.sessions && s.sessions[c].pc.ScheduleCommit? && StepSchedule(cfg, s, c, ch) == Some(t)
    ensures t.db.lanes == s.db.lanes
  {
    var req, at := s.sessions[c].pc.req, s.sessions[c].pc.at;
    var db1 := InsertSchedule(s.db, req.lane, req.days, req.open.column, req.close.column);
    if db1.Ok? {
      InsertSlotsExact(db1.value, WithIds(ch.ids, InitialSlots(req, at, cfg.window, cfg.duration)));
    }
  }

  /** Steps taken and steps ahead stay within the length of the call. */
  ghost predicate WithinLength(r: Run, j: nat, k: nat, c: Id, request: Request)
    requires j < k < |r.states| && |r.states| == |r.events| + 1 && c in r.states[k].sessions
  {
    Within(OwnSteps(r, j + 1, k, c), r.states[k].sessions[c].pc, request, |r.states[k].db.lanes|)
  }

  predicate Within(steps: nat, pc: Pc, request: Request, lanes: nat) {
    steps + Ahead(pc, lanes) <= Length(request, lanes) && (pc.GenerateStart? ==> request.GenerateAll?)
  }

  lemma WithMoreLanes(steps: nat, pc: Pc, request: Request, lanes: nat, more: nat)
    requires Within(steps, pc, request, lanes) && lanes <= more
    ensures Within(steps, pc, request, more)
  {
  }

  lemma AfterOwnStep(steps: nat, pc: Pc, request: Request, lanes: nat, next: Pc, more: nat)
    requires Within(steps, pc, request, lanes) && lanes <= more && Ahead(next, more) < Ahead(pc, lanes) && !next.GenerateStart?
    ensures Within(steps + 1, next, request, more)
  {
  }

  lemma OwnStepsNext(r: Run, j: nat, k: nat, next: nat, c: Id)
    requires j <= k < |r.events| && next == k + 1
    ensures OwnSteps(r, j, next, c) == OwnSteps(r, j, k, c) + (if ActsFor(r.events[k], c) then 1 else 0)
  {
  }

  lemma StepWithin(cfg: Config, s: State, e: Event, t: State, c: Id, steps: nat, request: Request)
    requires cfg.duration > 0 && Next(cfg, s, e) == Some(t) && Busy(s, c)
    requires Within(steps, s.sessions[c].pc, request, |s.db.lanes|)
    ensures c in t.sessions
    ensures Within(steps + (if ActsFor(e, c) then 1 else 0), t.sessions[c].pc, request, |t.db.lanes|)
  {
    LanesStay(cfg, s, e, t);
    if ActsFor(e, c) {
      StepDescends(cfg, s, e, t, c, |t.db.lanes|);
      AfterOwnStep(steps, s.sessions[c].pc, request, |s.db.lanes|, t.sessions[c].pc, |t.db.lanes|);
    } else {
      Untouched(cfg, s, e, t, c);
      WithMoreLanes(steps, s.sessions[c].pc, request, |s.db.lanes|, |t.db.lanes|);
    }
  }

  lemma StaysWithin(cfg: Config, r: Run, j: nat, k: nat, next: nat, c: Id, request: Request)
    requires IsRun(cfg, r) && j < k < |r.events| && next == k + 1 && Busy(r.states[k], c) && c in r.states[next].sessions
    requires WithinLength(r, j, k, c, request)
    ensures WithinLength(r, j, next, c, request)
  {
    var from: nat := j + 1;
    OwnStepsNext(r, from, k, next, c);
    StepWithin(cfg, r.states[k], r.events[k], r.states[next], c, OwnSteps(r, from, k, c), request);
  }

  lemma {:induction false} CallWithinLength(cfg: Config, r: Run, j: nat, k: nat, c: Id, request: Request)
    requires IsRun(cfg, r) && UnderWay(r, j, k, c, request)
    ensures WithinLength(r, j, k, c, request)
    decreases k
  {
    if k > j + 1 {
      var before: nat := k - 1;
      StillUnderWay(r, j, k, c, request);
      CallWithinLength(cfg, r, j, before, c, request);
      StaysWithin(cfg, r, j, before, k, c, request);
    } else {
      CallStarts(cfg, r.states[j], c, request, r.states[k]);
    }
  }

  lemma CallStarts(cfg: Config, s: State, c: Id, request: Request, t: State)
    requires cfg.duration > 0 && Next(cfg, s, Call(c, request)) == Some(t)
    ensures Within(0, t.sessions[c].pc, request, |t.db.lanes|)
  {
  }

  /**
   In any interleaving, whatever fails, a call takes at most as many steps of its own as it has statements:
   four for a create, a read or a schedule, five for a cancel, three for each lane and two more for a pass.
   */
  lemma CallsAreShort(cfg: Config, r: Run, j: nat, k: nat, c: Id, request: Request)
    requires IsRun(cfg, r) && UnderWay(r, j, k, c, request)
    ensures OwnSteps(r, j + 1, k, c) < Length(request, |r.states[k].db.lanes|)
  {
    CallWithinLength(cfg, r, j, k, c, request);
    assert Busy(r.states[k], c);
    assert Ahead(r.states[k].sessions[c].pc, |r.states[k].db.lanes|) > 0;
  }

  // ---- Coming to rest ----

  ghost predicate OnlySteps(events: seq<Event>) {
    forall i :: 0 <= i < |events| ==> events[i].Go?
  }

  /** The steps lead on to a state that differs in no other client than `c` being done. */
  ghost predicate Finishes(cfg: Config, s: State, c: Id, events: seq<Event>, t: State)
    requires cfg.duration > 0
  {
    && Exec(cfg, s, events) == Some(t) && OnlySteps(events) && t.sessions.Keys == s.sessions.Keys
    && c in t.sessions && t.sessions[c].pc.Idle?
    && forall d :: d in s.sessions && d != c ==> t.sessions[d] == s.sessions[d]
  }

  /** A client past its own waiting, which others may wait for. */
  predicate Unhindered(pc: Pc) {
    pc.CreateCommit? || pc.CreateInvalidate? || pc.CancelCommit? || pc.CancelInvalidate? || pc.ScheduleBuild? || pc.ScheduleCommit?
  }

  lemma UnhinderedStep(cfg: Config, s: State, c: Id, ch: Choice, t: State)
    requires cfg.duration > 0 && c in s.sessions && Unhindered(s.sessions[c].pc) && StepGo(cfg, s, c, ch) == Some(t)
    ensures c in t.sessions && (t.sessions[c].pc.Idle? || Unhindered(t.sessions[c].pc))
  {
  }

  lemma AfterStep(cfg: Config, s: State, c: Id, e: Event, u: State, rest: seq<Event>, t: State)
    requires cfg.duration > 0 && e.Go? && e.client == c && Next(cfg, s, e) == Some(u) && Finishes(cfg, u, c, rest, t)
    ensures Finishes(cfg, s, c, [e] + rest, t)
  {
    Exec1(cfg, s, e, u);
    ExecJoin(cfg, s, [e], u, rest);
    StepFrame(cfg, s, e, u);
  }

  /** A client that is waited for can finish by itself. */
  lemma {:induction false} HolderFinishes(cfg: Config, s: State, c: Id) returns (events: seq<Event>, t: State)
    requires cfg.duration > 0 && c in s.sessions && (s.sessions[c].pc.Idle? || Unhindered(s.sessions[c].pc))
    ensures Finishes(cfg, s, c, events, t)
    decreases Ahead(s.sessions[c].pc, |s.db.lanes|)
  {
    if s.sessions[c].pc.Idle? {
      events, t := [], s;
    } else {
      var ch := SomeChoice(cfg, s, c);
      var u := Next(cfg, s, Go(c, ch)).value;
      UnhinderedStep(cfg, s, c, ch, u);
      StepDescends(cfg, s, Go(c, ch), u, c, |u.db.lanes|);
      events, t := HolderFinishes(cfg, u, c);
      AfterStep(cfg, s, c, Go(c, ch), u, events, t);
      events := [Go(c, ch)] + events;
    }
  }

  function BusyClients(s: State): set<Id> {
    set c | c in s.sessions && Busy(s, c)
  }

  /** From any state with a client in a call, one call more can be brought to its end and none begun. */
  lemma {:induction false} OneFinishes(cfg: Config, s: State, c: Id) returns (events: seq<Event>, t: State)
    requires cfg.duration > 0 && Busy(s, c)
    ensures Exec(cfg, s, events) == Some(t) && OnlySteps(events) && t.sessions.Keys == s.sessions.Keys
    ensures BusyClients(t) < BusyClients(s)
    decreases Ahead(s.sessions[c].pc, |s.db.lanes|)
  {
    if Waiting(s, c) {
      var d :| Waits(s, c, d);
      events, t := HolderFinishes(cfg, s, d);
      assert d in BusyClients(s) && d !in BusyClients(t);
    } else {
      var ch := SomeChoice(cfg, s, c);
      var u := Next(cfg, s, Go(c, ch)).value;
      StepFrame(cfg, s, Go(c, ch), u);
      StepDescends(cfg, s, Go(c, ch), u, c, |u.db.lanes|);
      if u.sessions[c].pc.Idle? {
        events, t := [Go(c, ch)], u;
        Exec1(cfg, s, Go(c, ch), u);
        assert c in BusyClients(s) && c !in BusyClients(t);
      } else {
        events, t := OneFinishes(cfg, u, c);
        assert BusyClients(u) == BusyClients(s);
        Exec1(cfg, s, Go(c, ch), u);
        ExecJoin(cfg, s, [Go(c, ch)], u, events);
        events := [Go(c, ch)] + events;
      }
    }
  }

  /** Every state can come to rest by nothing but its clients going on. */
  lemma {:induction false} ComesToRest(cfg: Config, s: State) returns (events: seq<Event>, t: State)
    requires cfg.duration > 0
    ensures Exec(cfg, s, events) == Some(t) && OnlySteps(events) && t.sessions.Keys == s.sessions.Keys && Coherence.AllIdle(t)
    decreases |BusyClients(s)|
  {
    if Coherence.AllIdle(s) {
      events, t := [], s;
    } else {
      var c :| c in s.sessions && !s.sessions[c].pc.Idle?;
      var first, u := OneFinishes(cfg, s, c);
      Fewer(BusyClients(u), BusyClients(s));
      var rest;
      rest, t := ComesToRest(cfg, u);
      ExecJoin(cfg, s, first, u, rest);
      events := first + rest;
    }
  }

  lemma Fewer(a: set<Id>, b: set<Id>)
    requires a < b
    ensures |a| < |b|
  {
    assert |b| == |a| + |b - a|;
  }

  /** A call ends with an answer only. */
  lemma EndIsAnswer(cfg: Config, s: State, e: Event, t: State, c: Id) returns (a: Answer)
    requires cfg.duration > 0 && Next(cfg, s, e) == Some(t) && Busy(s, c) && !Busy(t, c)
    ensures Tells(s, t, c, a)
  {
    StepFrame(cfg, s, e, t);
    if e.Go? {
      EndOfGo(cfg, s, c, e.choice, t);
    } else {
      EndOfFault(s, c, t);
    }
    a :| Tells(s, t, c, a);
  }

  lemma EndOfGo(cfg: Config, s: State, c: Id, ch: Choice, t: State)
    requires cfg.duration > 0 && Busy(s, c) && StepGo(cfg, s, c, ch) == Some(t) && c in t.sessions && t.sessions[c].pc.Idle?
    ensures exists a :: Tells(s, t, c, a)
  {
    var pc := s.sessions[c].pc;
    if InCreate(pc) {
      EndOfCreate(cfg, s, c, ch, t);
    } else if InCancel(pc) {
      EndOfCancel(cfg, s, c, ch, t);
    } else if InRead(pc) {
      EndOfRead(cfg, s, c, ch, t);
    } else if InSchedule(pc) {
      EndOfSchedule(cfg, s, c, ch, t);
    } else {
      assert Tells(s, t, c, GenerationOver);
    }
  }

  lemma EndOfFault(s: State, c: Id, t: State)
    requires c in s.sessions && StepFault(s, c) == Some(t) && c in t.sessions && t.sessions[c].pc.Idle?
    ensures exists a :: Tells(s, t, c, a)
  {
    var said := t.sessions[c].answers;
    assert Tells(s, t, c, said[|said| - 1]);
  }

  lemma EndOfCreate(cfg: Config, s: State, c: Id, ch: Choice, t: State)
    requires cfg.duration > 0 && c in s.sessions && InCreate(s.sessions[c].pc) && StepCreate(cfg, s, c, ch) == Some(t)
    requires c in t.sessions && t.sessions[c].pc.Idle?
    ensures exists a :: Tells(s, t, c, a)
  {
    var said := t.sessions[c].answers;
    assert Tells(s, t, c, said[|said| - 1]);
  }

  lemma EndOfCancel(cfg: Config, s: State, c: Id, ch: Choice, t: State)
    requires cfg.duration > 0 && c in s.sessions && InCancel(s.sessions[c].pc) && StepCancel(cfg, s, c, ch) == Some(t)
    requires c in t.sessions && t.sessions[c].pc.Idle?
    ensures exists a :: Tells(s, t, c, a)
  {
    var said := t.sessions[c].answers;
    assert Tells(s, t, c, said[|said| - 1]);
  }

  lemma EndOfRead(cfg: Config, s: State, c: Id, ch: Choice, t: State)
    requires cfg.duration > 0 && c in s.sessions && InRead(s.sessions[c].pc) && StepRead(cfg, s, c, ch) == Some(t)
    requires c in t.sessions && t.sessions[c].pc.Idle?
    ensures exists a :: Tells(s, t, c, a)
  {
    var said := t.sessions[c].answers;
    assert Tells(s, t, c, said[|said| - 1]);
  }

  lemma EndOfSchedule(cfg: Config, s: State, c: Id, ch: Choice, t: State)
    requires cfg.duration > 0 && c in s.sessions && InSchedule(s.sessions[c].pc) && StepSchedule(cfg, s, c, ch) == Some(t)
    requires c in t.sessions && t.sessions[c].pc.Idle?
    ensures exists a :: Tells(s, t, c, a)
  {
    var said := t.sessions[c].answers;
    assert Tells(s, t, c, said[|said| - 1]);
  }

  lemma {:induction false} AnsweredBy(cfg: Config, r: Run, j: nat, k: nat, m: nat, c: Id, request: Request) returns (x: nat, a: Answer)
    requires IsRun(cfg, r) && UnderWay(r, j, k, c, request) && k < m < |r.states| && !Busy(r.states[m], c)
    ensures k <= x < m && Answered(r, j, x, c, request, a)
    decreases m - k
  {
    var next: nat := k + 1;
    if Busy(r.states[next], c) {
      assert UnderWay(r, j, next, c, request);
      x, a := AnsweredBy(cfg, r, j, next, m, c, request);
    } else {
      x := k;
      a := EndIsAnswer(cfg, r.states[k], r.events[k], r.states[next], c);
    }
  }

  /**
   In every reachable state every call under way can still be answered, with no failure, no call, no
   eviction and no tick of the clock in between: the run goes on to a state in which no call is open.
   */
  lemma EveryCallCanEnd(cfg: Config, r: Run) returns (q: Run)
    requires IsRun(cfg, r)
    ensures IsRun(cfg, q) && |q.states| >= |r.states| && q.states[..|r.states|] == r.states
    ensures q.events[..|r.events|] == r.events && OnlySteps(q.events[|r.events|..])
    ensures Coherence.AllIdle(q.states[|q.states| - 1])
    ensures forall j: nat, c, request :: UnderWay(r, j, |r.events|, c, request) ==> IsAnsweredIn(q, j, c, request)
  {
    var events, t := ComesToRest(cfg, r.states[|r.states| - 1]);
    q := ExecExtends(cfg, r, events, t);
    assert q.events[|r.events|..] == events;
    forall j: nat, c, request | UnderWay(r, j, |r.events|, c, request) ensures IsAnsweredIn(q, j, c, request) {
      SameCall(r, q, j, c, request);
      assert !Busy(t, c);
      var x, a := AnsweredBy(cfg, q, j, |r.events|, |q.events|, c, request);
    }
  }

  ghost predicate IsAnsweredIn(r: Run, j: nat, c: Id, request: Request)
    requires |r.states| == |r.events| + 1
  {
    exists k: nat, a: Answer :: Answered(r, j, k, c, request, a)
  }

  lemma SameCall(r: Run, q: Run, j: nat, c: Id, request: Request)
    requires |r.states| == |r.events| + 1 && |q.states| == |q.events| + 1 && |q.states| >= |r.states|
    requires q.states[..|r.states|] == r.states && q.events[..|r.events|] == r.events
    requires UnderWay(r, j, |r.events|, c, request)
    ensures UnderWay(q, j, |r.events|, c, request)
  {
    assert q.events[j] == q.events[..|r.events|][j];
    forall x: nat | j < x <= |r.events| ensures Busy(q.states[x], c) {
      assert q.states[x] == q.states[..|r.states|][x];
    }
  }
}
