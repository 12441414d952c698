/**
 Non-overlap over runs, whatever clock texts the requests carry: it is enough that the two readings
 of the request accepted for the lane lay grids that agree.
 */
module AgreeingRuns {
  import opened Prelude
  import opened Calendar
  import opened Models
  import opened Grid
  import opened Tables
  import opened Scheduling
  import opened Windows
  import opened Engine
  import opened SlotSafety
  import BookingSafety
  import TwoGrids

  /** A request accepted for the lane gives Go and PostgreSQL grids that agree. */
  predicate AgreeingStep(s: State, e: Event, lane: Id, dur: int)
    requires dur > 0
  {
    Accepts(s, e) && Accepted(s, e).lane == lane ==> TwoGrids.AgreeingRequest(Accepted(s, e), dur)
  }

  /** The requests the run accepts for the lane do so. */
  ghost predicate AgreeingLane(r: Run, lane: Id, dur: int)
    requires dur > 0 && |r.states| == |r.events| + 1
  {
    forall k :: 0 <= k < |r.events| ==> AgreeingStep(r.states[k], r.events[k], lane, dur)
  }

  predicate OnHours(slot: Slot, hours: Hours, dur: int)
    requires dur > 0
  {
    slot in DayGrid(slot.lane, hours, DayOf(slot.start), dur)
  }

  /** On the grid of `g` or of `h`, and on a selected weekday. */
  predicate OnGrids(slot: Slot, g: Hours, h: Hours, days: seq<int>, dur: int)
    requires dur > 0
  {
    (OnHours(slot, g, dur) || OnHours(slot, h, dur)) && Weekday(DayOf(slot.start)) in InitialDays(days)
  }

  /** Every slot of the lane lies on the grid of `g`, its first window's, or of its stored hours. */
  ghost predicate OnTwoGrids(db: Db, lane: Id, g: Hours, dur: int)
    requires dur > 0 && lane in db.schedules
  {
    var sch := db.schedules[lane];
    && WithinDay(g) && WithinDay(LaneHours(sch)) && TwoGrids.GridsAgree(g, LaneHours(sch), dur)
    && forall i :: i in db.slots && db.slots[i].lane == lane ==> OnGrids(db.slots[i], g, LaneHours(sch), sch.days, dur)
  }

  ghost predicate LaneGrids(db: Db, lane: Id, dur: int)
    requires dur > 0
  {
    lane in db.schedules ==> exists g :: OnTwoGrids(db, lane, g, dur)
  }

  // ---- The tables ----

  /** Slots that join the lane lie on one of its two grids, or none join. */
  lemma AddedOnGrids(a: Db, b: Db, lane: Id, g: Hours, dur: int)
    requires dur > 0 && lane in a.schedules && OnTwoGrids(a, lane, g, dur)
    requires lane in b.schedules && b.schedules[lane] == a.schedules[lane]
    requires forall i :: i in a.slots ==> i in b.slots && b.slots[i] == a.slots[i]
    requires forall i :: i in b.slots && i !in a.slots && b.slots[i].lane == lane ==>
      OnGrids(b.slots[i], g, LaneHours(a.schedules[lane]), a.schedules[lane].days, dur)
    ensures OnTwoGrids(b, lane, g, dur)
  {
    forall i | i in b.slots && b.slots[i].lane == lane
      ensures OnGrids(b.slots[i], g, LaneHours(a.schedules[lane]), a.schedules[lane].days, dur)
    {
      if i in a.slots {
        assert b.slots[i] == a.slots[i];
      }
    }
  }

  /** The slots of a batch lie on its hours and days, on its lane. */
  lemma BatchOnHours(before: map<Id, Slot>, after: map<Id, Slot>, lane: Id, open: set<int>, hours: Hours, first: int, n: nat, dur: int)
    requires dur > 0 && WithinDay(hours) && Adds(before, after, WindowSlots(lane, open, hours, first, n, dur))
    ensures forall i :: i in after && i !in before ==>
      after[i].lane == lane && OnHours(after[i], hours, dur) && Weekday(DayOf(after[i].start)) in open
  {
    forall i | i in after && i !in before
      ensures after[i].lane == lane && OnHours(after[i], hours, dur) && Weekday(DayOf(after[i].start)) in open
    {
      InWindow(lane, open, hours, first, n, dur, after[i]);
      DayGridInDay(lane, hours, DayOf(after[i].start), dur, after[i]);
    }
  }

  /** The first window of the request accepted for the lane. */
  lemma FirstBatchOnGrids(a: Db, b: Db, req: ScheduleRequest, at: Time, n: nat, dur: int)
    requires dur > 0 && InOrder(req) && TwoGrids.AgreeingRequest(req, dur) && forall i :: i in a.slots ==> a.slots[i].lane != req.lane
    requires req.lane in b.schedules && b.schedules[req.lane] == StoredSchedule(req)
    requires Adds(a.slots, b.slots, InitialSlots(req, at, n, dur))
    ensures LaneGrids(b, req.lane, dur)
  {
    BatchOnHours(a.slots, b.slots, req.lane, InitialDays(req.days), RequestHours(req), DayOf(at), n, dur);
    assert OnTwoGrids(b, req.lane, RequestHours(req), dur);
  }

  /** A batch of the generator on the lane. */
  lemma DueBatchOnGrids(a: Db, b: Db, lane: Id, at: Time, n: nat, dur: int)
    requires dur > 0 && lane in a.schedules && LaneGrids(a, lane, dur) && b.schedules == a.schedules
    requires Adds(a.slots, b.slots, BackgroundSlots(lane, a.schedules[lane], at, n, dur))
    ensures LaneGrids(b, lane, dur)
  {
    var g :| OnTwoGrids(a, lane, g, dur);
    var sch := a.schedules[lane];
    BatchOnHours(a.slots, b.slots, lane, BackgroundDays(sch.days), LaneHours(sch), DayOf(at), n, dur);
    forall i | i in b.slots && i !in a.slots && b.slots[i].lane == lane ensures OnGrids(b.slots[i], g, LaneHours(sch), sch.days, dur) {
      DueDayInitial(sch.days, DayOf(b.slots[i].start));
    }
    AddedOnGrids(a, b, lane, g, dur);
  }

  /** A batch on another lane, whatever its hours. */
  lemma OtherBatchOnGrids(a: Db, b: Db, added: seq<Slot>, lane: Id, dur: int)
    requires dur > 0 && lane in a.schedules && LaneGrids(a, lane, dur) && lane in b.schedules && b.schedules[lane] == a.schedules[lane]
    requires Adds(a.slots, b.slots, added) && forall s :: s in added ==> s.lane != lane
    ensures LaneGrids(b, lane, dur)
  {
    var g :| OnTwoGrids(a, lane, g, dur);
    AddedOnGrids(a, b, lane, g, dur);
  }

  // ---- Steps ----

  lemma CommitOnGrids(cfg: Config, s: State, e: Event, t: State, lane: Id)
    requires cfg.duration > 0 && ScheduleInv(cfg, s) && Next(cfg, s, e) == Some(t) && Accepts(s, e)
    requires LaneGrids(s.db, lane, cfg.duration) && AgreeingStep(s, e, lane, cfg.duration)
    ensures LaneGrids(t.db, lane, cfg.duration)
  {
    var pc := s.sessions[e.client].pc;
    StepEffect(cfg, s, e, t);
    if pc.req.lane == lane {
      FirstBatchOnGrids(s.db, t.db, pc.req, pc.at, cfg.window, cfg.duration);
    } else if lane in s.db.schedules {
      WindowLane(pc.req.lane, InitialDays(pc.req.days), RequestHours(pc.req), DayOf(pc.at), cfg.window, cfg.duration);
      OtherBatchOnGrids(s.db, t.db, InitialSlots(pc.req, pc.at, cfg.window, cfg.duration), lane, cfg.duration);
    }
  }

  lemma InsertOnGrids(cfg: Config, s: State, e: Event, t: State, lane: Id)
    requires cfg.duration > 0 && ScheduleInv(cfg, s) && Next(cfg, s, e) == Some(t) && Inserts(s, e)
    requires LaneGrids(s.db, lane, cfg.duration)
    ensures LaneGrids(t.db, lane, cfg.duration)
  {
    var pc := s.sessions[e.client].pc;
    StepEffect(cfg, s, e, t);
    assert PcOk(cfg, s.db, pc, s.now);
    if t.db.slots != s.db.slots && lane in s.db.schedules {
      if pc.lane == lane {
        DueBatchOnGrids(s.db, t.db, lane, pc.at, cfg.lookahead, cfg.duration);
      } else {
        WindowLane(pc.lane, BackgroundDays(pc.sch.days), StoredHours(pc.sch.hours), DayOf(pc.at), cfg.lookahead, cfg.duration);
        OtherBatchOnGrids(s.db, t.db, BackgroundSlots(pc.lane, pc.sch, pc.at, cfg.lookahead, cfg.duration), lane, cfg.duration);
      }
    } else if t.db.slots == s.db.slots {
      assert t.db == s.db;
    }
  }

  lemma StepOnGrids(cfg: Config, s: State, e: Event, t: State, lane: Id)
    requires cfg.duration > 0 && ScheduleInv(cfg, s) && Next(cfg, s, e) == Some(t)
    requires LaneGrids(s.db, lane, cfg.duration) && AgreeingStep(s, e, lane, cfg.duration)
    ensures LaneGrids(t.db, lane, cfg.duration)
  {
    if Accepts(s, e) {
      CommitOnGrids(cfg, s, e, t, lane);
    } else if Inserts(s, e) {
      InsertOnGrids(cfg, s, e, t, lane);
    } else {
      StepEffect(cfg, s, e, t);
      if lane in s.db.schedules {
        var g :| OnTwoGrids(s.db, lane, g, cfg.duration);
        assert OnTwoGrids(t.db, lane, g, cfg.duration);
      }
    }
  }

  // ---- Whole runs ----

  /** Every slot of the lane lies on one of two grids that agree, on a selected weekday, in every reachable state. */
  lemma {:induction false} RunAgrees(cfg: Config, r: Run, k: nat, lane: Id)
    requires IsRun(cfg, r) && AgreeingLane(r, lane, cfg.duration) && k < |r.states|
    ensures LaneGrids(r.states[k].db, lane, cfg.duration)
  {
    if k > 0 {
      RunAgrees(cfg, r, k - 1, lane);
      RunScheduleInv(cfg, r, k - 1);
      assert AgreeingStep(r.states[k - 1], r.events[k - 1], lane, cfg.duration);
      StepOnGrids(cfg, r.states[k - 1], r.events[k - 1], r.states[k], lane);
    }
  }

  /** Two slots of a lane that lie on agreeing grids do not overlap. */
  lemma OnGridsApart(db: Db, lane: Id, g: Hours, dur: int, a: Slot, b: Slot)
    requires dur > 0 && lane in db.schedules && OnTwoGrids(db, lane, g, dur) && a.lane == lane == b.lane
    requires var h := LaneHours(db.schedules[lane]);
      (OnHours(a, g, dur) || OnHours(a, h, dur)) && (OnHours(b, g, dur) || OnHours(b, h, dur))
    ensures TwoGrids.Disjoint(a, b)
  {
    var h := LaneHours(db.schedules[lane]);
    var p, q := if OnHours(a, g, dur) then g else h, if OnHours(b, g, dur) then g else h;
    DayGridInDay(lane, p, DayOf(a.start), dur, a);
    DayGridInDay(lane, q, DayOf(b.start), dur, b);
    if DayOf(a.start) == DayOf(b.start) {
      TwoGrids.SameHoursAgree(p, dur);
      if p == h && q == g {
        TwoGrids.AgreeingGridsApart(lane, DayOf(a.start), q, p, dur, b, a);
      } else {
        TwoGrids.AgreeingGridsApart(lane, DayOf(a.start), p, q, dur, a, b);
      }
    }
  }

  /**
   In every reachable state two slots of one lane never overlap, as long as the request accepted for
   that lane gives grids that agree, whatever else is asked for.
   */
  lemma SlotsNeverOverlap(cfg: Config, r: Run, k: nat, i: Id, j: Id)
    requires IsRun(cfg, r) && k < |r.states|
    requires var slots := r.states[k].db.slots;
      && i in slots && j in slots && i != j && slots[i].lane == slots[j].lane
      && AgreeingLane(r, slots[i].lane, cfg.duration)
    ensures var slots := r.states[k].db.slots; slots[i].end <= slots[j].start || slots[j].end <= slots[i].start
  {
    var db := r.states[k].db;
    var lane := db.slots[i].lane;
    RunAgrees(cfg, r, k, lane);
    RunScheduleInv(cfg, r, k);
    BookingSafety.RunInv(cfg, r, k);
    var g :| OnTwoGrids(db, lane, g, cfg.duration);
    OnGridsApart(db, lane, g, cfg.duration, db.slots[i], db.slots[j]);
  }

  /** A lane whose first grid covers its later ones has grids that agree. */
  lemma CoveringLaneAgrees(r: Run, lane: Id, dur: int)
    requires dur > 0 && |r.states| == |r.events| + 1 && CoveringLane(r, lane, dur)
    ensures AgreeingLane(r, lane, dur)
  {
    forall k | 0 <= k < |r.events| ensures AgreeingStep(r.states[k], r.events[k], lane, dur) {
      assert CoveringStep(r.states[k], r.events[k], lane, dur);
      if Accepts(r.states[k], r.events[k]) && InOrder(Accepted(r.states[k], r.events[k])) {
        var req := Accepted(r.states[k], r.events[k]);
        if req.lane == lane {
          TwoGrids.CoveringAgrees(RequestHours(req), TwoGrids.ColumnHours(req), dur);
        }
      }
    }
  }
}
