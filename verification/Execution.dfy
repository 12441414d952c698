/** Sequences of events run from any state. */
module Execution {
  import opened Prelude
  import opened Engine
  import Erasure

  /** The state after a sequence of events, `None` when one of them cannot happen. */
  function Exec(cfg: Config, s: State, events: seq<Event>): Option<State>
    requires cfg.duration > 0
    decreases |events|
  {
    if events == [] then Some(s) else
      match Next(cfg, s, events[0])
      case None => None
      case Some(t) => Exec(cfg, t, events[1..])
  }

  lemma {:induction false} ExecJoin(cfg: Config, s: State, first: seq<Event>, t: State, second: seq<Event>)
    requires cfg.duration > 0 && Exec(cfg, s, first) == Some(t)
    ensures Exec(cfg, s, first + second) == Exec(cfg, t, second)
    decreases |first|
  {
    if first == [] {
      assert first + second == second;
    } else {
      ExecJoin(cfg, Next(cfg, s, first[0]).value, first[1..], t, second);
      assert (first + second)[1..] == first[1..] + second;
    }
  }

  /** Events that run on from the end of a run make a longer run. */
  lemma {:induction false} ExecExtends(cfg: Config, r: Run, events: seq<Event>, t: State) returns (q: Run)
    requires IsRun(cfg, r) && Exec(cfg, r.states[|r.states| - 1], events) == Some(t)
    ensures IsRun(cfg, q) && q.events == r.events + events && q.states[|q.states| - 1] == t
    ensures |q.states| >= |r.states| && q.states[..|r.states|] == r.states
    decreases |events|
  {
    if events == [] {
      q := r;
      assert r.events + events == r.events;
    } else {
      var s := r.states[|r.states| - 1];
      var next := Next(cfg, s, events[0]).value;
      Erasure.ExtendRun(cfg, r, events[0], next);
      q := ExecExtends(cfg, Run(r.states + [next], r.events + [events[0]]), events[1..], t);
      assert r.events + events == r.events + [events[0]] + events[1..];
    }
  }

  const REACHED: Choice := Choice([], true)

  function Step(c: Id): Event {
    Go(c, REACHED)
  }

  lemma Exec1(cfg: Config, s: State, e: Event, t: State)
    requires cfg.duration > 0 && Next(cfg, s, e) == Some(t)
    ensures Exec(cfg, s, [e]) == Some(t)
  {
    assert [e][1..] == [];
  }

  /** A client's last position is the one that counts. */
  lemma MoveOn(s: State, c: Id, p: Pc)
    requires c in s.sessions
    ensures forall q :: Enter(Enter(s, c, p), c, q) == Enter(s, c, q)
    ensures forall a :: Reply(Enter(s, c, p), c, a) == Reply(s, c, a)
  {
    forall q ensures Enter(Enter(s, c, p), c, q) == Enter(s, c, q) {
      assert Enter(Enter(s, c, p), c, q).sessions == Enter(s, c, q).sessions;
    }
    forall a ensures Reply(Enter(s, c, p), c, a) == Reply(s, c, a) {
      assert Reply(Enter(s, c, p), c, a).sessions == Reply(s, c, a).sessions;
    }
  }
}
