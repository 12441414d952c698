/** How old an answer can be, in any interleaving. */
module Staleness {
  import opened Prelude
  import opened Models
  import opened Tables
  import opened Cache
  import opened Engine
  import BookingSafety

  /** At step `i` client `c` runs the availability query for `key` and gets `rows`. */
  ghost predicate Queries(r: Run, i: nat, c: Id, key: Key, rows: seq<SlotRow>)
    requires |r.states| == |r.events| + 1
  {
    && i < |r.events| && r.events[i].Go? && r.events[i].client == c
    && c in r.states[i].sessions && r.states[i].sessions[c].pc == ReadQuery(key)
    && rows == Available(r.states[i].db, key.lane, key.day)
  }

  predicate Stands(s: State, c: Id, pc: Pc) {
    c in s.sessions && s.sessions[c].pc == pc
  }

  /** `rows` is what client `c` queried at step `i`; from the next state up to state `m` it carries them towards the cache. */
  ghost predicate Carries(r: Run, i: nat, m: nat, c: Id, key: Key, rows: seq<SlotRow>)
    requires |r.states| == |r.events| + 1
  {
    && Queries(r, i, c, key, rows) && i <= m < |r.states|
    && forall x: nat :: i < x <= m ==> Stands(r.states[x], c, ReadFill(key, rows))
  }

  /** What client `c` queried at step `i` and set at step `m`. */
  ghost predicate Fills(cfg: Config, r: Run, i: nat, m: nat, c: Id, key: Key, e: Entry)
    requires |r.states| == |r.events| + 1
  {
    && i < m && Carries(r, i, m, c, key, e.rows)
    && m < |r.events| && r.events[m].Go? && r.events[m].client == c && r.events[m].choice.reached
    && e.expires == r.states[m].now + cfg.ttl
  }

  /** The entry has been in the cache, unchanged, since it was set at step `m`. */
  ghost predicate Stays(r: Run, m: nat, k: nat, key: Key, e: Entry) {
    forall x :: m < x <= k < |r.states| ==> key in r.states[x].cache && r.states[x].cache[key] == e
  }

  // ---- Where listings come from ----

  /** Only a query leads to a position that carries rows. */
  lemma CarrierStep(cfg: Config, s: State, e: Event, t: State, c: Id)
    requires cfg.duration > 0 && Next(cfg, s, e) == Some(t) && c in t.sessions && t.sessions[c].pc.ReadFill?
    ensures c in s.sessions
    ensures s.sessions[c].pc == t.sessions[c].pc
            || (e.Go? && e.client == c && s.sessions[c].pc == ReadQuery(t.sessions[c].pc.key)
                && t.sessions[c].pc.rows == Available(s.db, t.sessions[c].pc.key.lane, t.sessions[c].pc.key.day))
  {
    StepFrame(cfg, s, e, t);
    if ActsFor(e, c) {
      match e
      case Go(_, choice) => FillerMoves(cfg, s, choice, c, t);
      case _ =>
    }
  }

  lemma FillerMoves(cfg: Config, s: State, ch: Choice, c: Id, t: State)
    requires cfg.duration > 0 && c in s.sessions && StepGo(cfg, s, c, ch) == Some(t) && c in t.sessions && t.sessions[c].pc.ReadFill?
    ensures s.sessions[c].pc == ReadQuery(t.sessions[c].pc.key)
    ensures t.sessions[c].pc.rows == Available(s.db, t.sessions[c].pc.key.lane, t.sessions[c].pc.key.day)
  {
    if !InRead(s.sessions[c].pc) {
      OnlyReadersCarry(cfg, s, ch, c, t);
    } else {
      FillerQueries(cfg, s, ch, c, t);
    }
  }

  lemma OnlyReadersCarry(cfg: Config, s: State, ch: Choice, c: Id, t: State)
    requires cfg.duration > 0 && c in s.sessions && StepGo(cfg, s, c, ch) == Some(t) && c in t.sessions && !InRead(s.sessions[c].pc)
    ensures !t.sessions[c].pc.ReadFill?
  {
  }

  lemma FillerQueries(cfg: Config, s: State, ch: Choice, c: Id, t: State)
    requires c in s.sessions && StepRead(cfg, s, c, ch) == Some(t) && c in t.sessions && t.sessions[c].pc.ReadFill?
    ensures s.sessions[c].pc == ReadQuery(t.sessions[c].pc.key)
    ensures t.sessions[c].pc.rows == Available(s.db, t.sessions[c].pc.key.lane, t.sessions[c].pc.key.day)
  {
  }

  lemma CarrierBefore(cfg: Config, r: Run, k: nat, c: Id)
    requires IsRun(cfg, r) && k < |r.states| && c in r.states[k].sessions && r.states[k].sessions[c].pc.ReadFill?
    ensures var pc := r.states[k].sessions[c].pc;
      k > 0 && (Stands(r.states[k - 1], c, pc) || Carries(r, k - 1, k - 1, c, pc.key, pc.rows))
  {
    CarrierStep(cfg, r.states[k - 1], r.events[k - 1], r.states[k], c);
  }

  lemma CarryOn(r: Run, i: nat, k: nat, c: Id, key: Key, rows: seq<SlotRow>)
    requires |r.states| == |r.events| + 1 && 0 < k < |r.states| && i < k && Carries(r, i, k - 1, c, key, rows)
    requires c in r.states[k].sessions && r.states[k].sessions[c].pc == ReadFill(key, rows)
    ensures Carries(r, i, k, c, key, rows)
  {
  }

  /** Whoever carries rows got them from its own query. */
  lemma {:induction false} CarriedRowsWereQueried(cfg: Config, r: Run, k: nat, c: Id) returns (i: nat)
    requires IsRun(cfg, r) && k < |r.states| && c in r.states[k].sessions && r.states[k].sessions[c].pc.ReadFill?
    ensures i < k && Carries(r, i, k, c, r.states[k].sessions[c].pc.key, r.states[k].sessions[c].pc.rows)
  {
    var key, rows := r.states[k].sessions[c].pc.key, r.states[k].sessions[c].pc.rows;
    CarrierBefore(cfg, r, k, c);
    if Stands(r.states[k - 1], c, ReadFill(key, rows)) {
      i := CarriedRowsWereQueried(cfg, r, k - 1, c);
    } else {
      i := k - 1;
    }
    CarryOn(r, i, k, c, key, rows);
  }

  /** A cache entry was there before, or is what a client carrying rows has just set. */
  lemma EntryStep(cfg: Config, s: State, e: Event, t: State, key: Key)
    requires cfg.duration > 0 && Next(cfg, s, e) == Some(t) && key in t.cache
    ensures (key in s.cache && s.cache[key] == t.cache[key])
            || (e.Go? && e.choice.reached && e.client in s.sessions
                && s.sessions[e.client].pc == ReadFill(key, t.cache[key].rows) && t.cache[key].expires == s.now + cfg.ttl)
  {
    match e
    case Go(c, ch) => EntryMoves(cfg, s, ch, c, t, key);
    case Fault(c) => FrameFault(s, c);
    case _ =>
  }

  lemma EntryMoves(cfg: Config, s: State, ch: Choice, c: Id, t: State, key: Key)
    requires cfg.duration > 0 && c in s.sessions && StepGo(cfg, s, c, ch) == Some(t) && key in t.cache
    ensures (key in s.cache && s.cache[key] == t.cache[key])
            || (ch.reached && s.sessions[c].pc == ReadFill(key, t.cache[key].rows) && t.cache[key].expires == s.now + cfg.ttl)
  {
    CacheFrame(cfg, s, c, ch, t);
  }

  /** Only a reader's last step and an invalidation write to the cache. */
  lemma CacheFrame(cfg: Config, s: State, c: Id, ch: Choice, t: State)
    requires cfg.duration > 0 && c in s.sessions && StepGo(cfg, s, c, ch) == Some(t)
    ensures t.cache == match s.sessions[c].pc
      case ReadFill(key, rows) => if ch.reached then s.cache[key := Entry(rows, s.now + cfg.ttl)] else s.cache
      case CreateInvalidate(key, _) => if ch.reached then s.cache - {key} else s.cache
      case CancelInvalidate(key, _) => if ch.reached then s.cache - {key} else s.cache
      case _ => s.cache
  {
  }

  /** Every entry was queried and then set by one client, and has stayed since. */
  lemma {:induction false} EntriesWereFilled(cfg: Config, r: Run, k: nat, key: Key) returns (i: nat, m: nat, c: Id)
    requires IsRun(cfg, r) && k < |r.states| && key in r.states[k].cache
    ensures m < k && Fills(cfg, r, i, m, c, key, r.states[k].cache[key]) && Stays(r, m, k, key, r.states[k].cache[key])
  {
    EntryBefore(cfg, r, k, key);
    if key in r.states[k - 1].cache && r.states[k - 1].cache[key] == r.states[k].cache[key] {
      i, m, c := EntriesWereFilled(cfg, r, k - 1, key);
      StayOn(r, m, k, key, r.states[k].cache[key]);
    } else {
      i, m, c := JustFilled(cfg, r, k, key);
    }
  }

  lemma StayOn(r: Run, m: nat, k: nat, key: Key, e: Entry)
    requires 0 < k < |r.states| && Stays(r, m, k - 1, key, e) && key in r.states[k].cache && r.states[k].cache[key] == e
    ensures Stays(r, m, k, key, e)
  {
  }

  lemma JustFilled(cfg: Config, r: Run, k: nat, key: Key) returns (i: nat, m: nat, c: Id)
    requires IsRun(cfg, r) && 0 < k < |r.states| && key in r.states[k].cache
    requires var s, e, entry := r.states[k - 1], r.events[k - 1], r.states[k].cache[key];
      e.Go? && e.choice.reached && Stands(s, e.client, ReadFill(key, entry.rows)) && entry.expires == s.now + cfg.ttl
    ensures m < k && Fills(cfg, r, i, m, c, key, r.states[k].cache[key]) && Stays(r, m, k, key, r.states[k].cache[key])
  {
    m, c := k - 1, r.events[k - 1].client;
    i := CarriedRowsWereQueried(cfg, r, m, c);
  }

  lemma EntryBefore(cfg: Config, r: Run, k: nat, key: Key)
    requires IsRun(cfg, r) && k < |r.states| && key in r.states[k].cache
    ensures k > 0
    ensures var s, e, entry := r.states[k - 1], r.events[k - 1], r.states[k].cache[key];
      || (key in s.cache && s.cache[key] == entry)
      || (e.Go? && e.choice.reached && Stands(s, e.client, ReadFill(key, entry.rows)) && entry.expires == s.now + cfg.ttl)
  {
    EntryStep(cfg, r.states[k - 1], r.events[k - 1], r.states[k], key);
  }

  // ---- The bound ----

  /** One answer more, and it is this listing. */
  predicate Told(before: seq<Answer>, after: seq<Answer>, rows: seq<SlotRow>) {
    after == before + [Listing(rows, true)] || after == before + [Listing(rows, false)]
  }

  /** At step `k` client `c` is answered with a listing. */
  ghost predicate Answers(r: Run, k: nat, c: Id, rows: seq<SlotRow>)
    requires |r.states| == |r.events| + 1
  {
    && k < |r.events| && c in r.states[k].sessions && c in r.states[k + 1].sessions
    && Told(r.states[k].sessions[c].answers, r.states[k + 1].sessions[c].answers, rows)
  }

  /** A listing is given from the cache, from a query, or after a fill. */
  lemma AnswerStep(cfg: Config, s: State, e: Event, t: State, c: Id, rows: seq<SlotRow>)
    requires cfg.duration > 0 && Next(cfg, s, e) == Some(t) && c in s.sessions && c in t.sessions
    requires Told(s.sessions[c].answers, t.sessions[c].answers, rows)
    ensures e.Go? && e.client == c && InRead(s.sessions[c].pc)
    ensures match s.sessions[c].pc
      case ReadCache(key) => e.choice.reached && Lookup(s.cache, key, s.now) == Some(rows)
      case ReadQuery(key) => rows == Available(s.db, key.lane, key.day)
      case ReadFill(key, carried) => rows == carried
      case _ => false
  {
    StepFrame(cfg, s, e, t);
    var answers := s.sessions[c].answers;
    assert t.sessions[c].answers[|answers|].Listing?;
    match e
    case Go(_, choice) => AnswerMoves(cfg, s, choice, c, t, rows);
    case Fault(_) =>
      FaultAnswers(s, c, t);
    case _ =>
  }

  lemma FaultAnswers(s: State, c: Id, t: State)
    requires c in s.sessions && StepFault(s, c) == Some(t) && c in t.sessions
    ensures t.sessions[c].answers == s.sessions[c].answers
            || (|t.sessions[c].answers| == |s.sessions[c].answers| + 1 && !t.sessions[c].answers[|s.sessions[c].answers|].Listing?)
  {
  }

  lemma AnswerMoves(cfg: Config, s: State, ch: Choice, c: Id, t: State, rows: seq<SlotRow>)
    requires cfg.duration > 0 && c in s.sessions && StepGo(cfg, s, c, ch) == Some(t) && c in t.sessions
    requires Told(s.sessions[c].answers, t.sessions[c].answers, rows)
    ensures InRead(s.sessions[c].pc)
    ensures match s.sessions[c].pc
      case ReadCache(key) => ch.reached && Lookup(s.cache, key, s.now) == Some(rows)
      case ReadQuery(key) => rows == Available(s.db, key.lane, key.day)
      case ReadFill(key, carried) => rows == carried
      case _ => false
  {
    var answers := s.sessions[c].answers;
    assert t.sessions[c].answers[|answers|].Listing? && t.sessions[c].answers[|answers|].rows == rows;
  }

  /**
   Bounded staleness: whatever the interleaving, a listing is exactly what the availability query of
   that lane and day returned at an earlier instant `i`, to a client `d` that carried it until `m`, and
   less than the cache's time to live has passed since. So it is older than its age in the cache by no
   more than that reader took from query to `Set`; without the cache, or on a miss, `m` is now.
   */
  lemma BoundedStaleness(cfg: Config, r: Run, k: nat, c: Id, rows: seq<SlotRow>) returns (i: nat, m: nat, d: Id)
    requires IsRun(cfg, r) && Answers(r, k, c, rows)
    ensures InRead(r.states[k].sessions[c].pc)
    ensures m <= k && Carries(r, i, m, d, r.states[k].sessions[c].pc.key, rows)
    ensures r.states[k].now - r.states[m].now < cfg.ttl
    ensures !r.states[k].sessions[c].pc.ReadCache? ==> d == c && m == k
  {
    var s := r.states[k];
    AnswerStep(cfg, s, r.events[k], r.states[k + 1], c, rows);
    match s.sessions[c].pc
    case ReadCache(key) =>
      i, m, d := EntriesWereFilled(cfg, r, k, key);
    case ReadQuery(key) =>
      i, m, d := k, k, c;
    case ReadFill(key, carried) =>
      d, m := c, k;
      i := CarriedRowsWereQueried(cfg, r, k, c);
  }

  /** No reader takes longer than `gap` from its query to its `Set`. */
  ghost predicate ReadersWithin(r: Run, gap: int)
    requires |r.states| == |r.events| + 1
  {
    forall i: nat, m: nat, d: Id, key, rows :: Carries(r, i, m, d, key, rows) ==> r.states[m].now - r.states[i].now <= gap
  }

  /**
   Once a slot has been booked for longer than the time to live and the slowest reader's gap, no
   answer lists it, however calls interleave and whether or not its invalidation reached the cache.
   */
  lemma LongBookedNeverListed(cfg: Config, r: Run, k: nat, c: Id, rows: seq<SlotRow>, slot: Id, gap: int)
    requires IsRun(cfg, r) && Answers(r, k, c, rows) && ReadersWithin(r, gap)
    requires forall x: nat | x <= k :: r.states[k].now - r.states[x].now < cfg.ttl + gap ==> Taken(r.states[x].db.bookings, slot)
    ensures forall j :: 0 <= j < |rows| ==> rows[j].id != slot
  {
    var i, m, d := BoundedStaleness(cfg, r, k, c, rows);
    BookingSafety.RunInv(cfg, r, i);
    AvailableExact(r.states[i].db, r.states[k].sessions[c].pc.key.lane, r.states[k].sessions[c].pc.key.day);
    assert Taken(r.states[i].db.bookings, slot);
  }
}
