/** Conditions on accepted requests, traced back to the calls that made them. */
module Requests {
  import opened Prelude
  import opened Scheduling
  import opened Engine
  import opened SlotSafety
  import AgreeingRuns
  import TwoGrids

  /** A step leaves a client's schedule request as it is, or is the call that made it. */
  lemma RequestStep(cfg: Config, s: State, e: Event, t: State, c: Id)
    requires cfg.duration > 0 && Next(cfg, s, e) == Some(t) && c in t.sessions && InSchedule(t.sessions[c].pc)
    ensures c in s.sessions
    ensures e == Call(c, MakeSchedule(t.sessions[c].pc.req))
            || (InSchedule(s.sessions[c].pc) && s.sessions[c].pc.req == t.sessions[c].pc.req)
  {
    StepFrame(cfg, s, e, t);
    if ActsFor(e, c) {
      match e
      case Call(_, request) =>
      case Fault(_) => FaultPositions(s, c, t);
      case Go(_, ch) => RequestMoves(cfg, s, ch, c, t);
    }
  }

  lemma RequestMoves(cfg: Config, s: State, ch: Choice, c: Id, t: State)
    requires cfg.duration > 0 && c in s.sessions && StepGo(cfg, s, c, ch) == Some(t) && c in t.sessions && InSchedule(t.sessions[c].pc)
    ensures InSchedule(s.sessions[c].pc) && s.sessions[c].pc.req == t.sessions[c].pc.req
  {
    if !InSchedule(s.sessions[c].pc) {
      OthersAskNothing(cfg, s, ch, c, t);
    } else {
      SameRequest(cfg, s, ch, c, t);
    }
  }

  lemma OthersAskNothing(cfg: Config, s: State, ch: Choice, c: Id, t: State)
    requires cfg.duration > 0 && c in s.sessions && StepGo(cfg, s, c, ch) == Some(t) && c in t.sessions && !InSchedule(s.sessions[c].pc)
    ensures !InSchedule(t.sessions[c].pc)
  {
    if InCreate(s.sessions[c].pc) || InCancel(s.sessions[c].pc) || InRead(s.sessions[c].pc) {
      BookingStepsSpareSlots(cfg, s, c, ch, t);
    } else {
      GeneratorAsksNothing(cfg, s, ch, c, t);
    }
  }

  lemma GeneratorAsksNothing(cfg: Config, s: State, ch: Choice, c: Id, t: State)
    requires cfg.duration > 0 && c in s.sessions && StepGenerate(cfg, s, c, ch) == Some(t) && c in t.sessions
    ensures !InSchedule(t.sessions[c].pc)
  {
  }

  lemma SameRequest(cfg: Config, s: State, ch: Choice, c: Id, t: State)
    requires cfg.duration > 0 && c in s.sessions && InSchedule(s.sessions[c].pc) && StepSchedule(cfg, s, c, ch) == Some(t)
    requires c in t.sessions && InSchedule(t.sessions[c].pc)
    ensures s.sessions[c].pc.req == t.sessions[c].pc.req
  {
  }

  /** Whatever a client is asking for, it called for. */
  lemma {:induction false} RequestWasCalled(cfg: Config, r: Run, k: nat, c: Id) returns (j: nat)
    requires IsRun(cfg, r) && k < |r.states| && c in r.states[k].sessions && InSchedule(r.states[k].sessions[c].pc)
    ensures j < k && r.events[j] == Call(c, MakeSchedule(r.states[k].sessions[c].pc.req))
  {
    assert k > 0;
    RequestStep(cfg, r.states[k - 1], r.events[k - 1], r.states[k], c);
    if r.events[k - 1] == Call(c, MakeSchedule(r.states[k].sessions[c].pc.req)) {
      j := k - 1;
    } else {
      j := RequestWasCalled(cfg, r, k - 1, c);
    }
  }

  predicate AsksFor(e: Event, lane: Id) {
    e.Call? && e.request.MakeSchedule? && e.request.schedule.lane == lane
  }

  /** Calls that ask for covering grids only make accepted requests cover. */
  lemma CoveringCalls(cfg: Config, r: Run, lane: Id)
    requires IsRun(cfg, r)
    requires forall i :: 0 <= i < |r.events| && AsksFor(r.events[i], lane) ==> TwoGrids.CoveringRequest(r.events[i].request.schedule, cfg.duration)
    ensures CoveringLane(r, lane, cfg.duration)
  {
    forall k | 0 <= k < |r.events| ensures CoveringStep(r.states[k], r.events[k], lane, cfg.duration) {
      if Accepts(r.states[k], r.events[k]) && Accepted(r.states[k], r.events[k]).lane == lane {
        var j := RequestWasCalled(cfg, r, k, r.events[k].client);
        assert AsksFor(r.events[j], lane);
      }
    }
  }

  /** Runs whose clock texts the parser accepts qualify on every lane, for both conditions. */
  lemma FaithfulRunsQualify(cfg: Config, r: Run, lane: Id)
    requires IsRun(cfg, r)
    requires forall i :: 0 <= i < |r.events| && AsksFor(r.events[i], lane) ==> FaithfulRequest(r.events[i].request.schedule)
    ensures CoveringLane(r, lane, cfg.duration) && AgreeingRuns.AgreeingLane(r, lane, cfg.duration)
  {
    forall i | 0 <= i < |r.events| && AsksFor(r.events[i], lane)
      ensures TwoGrids.CoveringRequest(r.events[i].request.schedule, cfg.duration)
    {
      TwoGrids.FaithfulTimesCover(r.events[i].request.schedule, cfg.duration);
    }
    CoveringCalls(cfg, r, lane);
    AgreeingRuns.CoveringLaneAgrees(r, lane, cfg.duration);
  }

  /** A run that asks for one schedule on the lane can accept no other. */
  lemma OnlyAsked(cfg: Config, r: Run, lane: Id, req: ScheduleRequest, k: nat)
    requires IsRun(cfg, r) && k < |r.events| && Accepts(r.states[k], r.events[k]) && Accepted(r.states[k], r.events[k]).lane == lane
    requires forall i :: 0 <= i < |r.events| && AsksFor(r.events[i], lane) ==> r.events[i].request.schedule == req
    ensures Accepted(r.states[k], r.events[k]) == req
  {
    var j := RequestWasCalled(cfg, r, k, r.events[k].client);
    assert AsksFor(r.events[j], lane);
  }
}
