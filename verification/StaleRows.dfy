/** Exactly which rows of a listing are out of date, in any interleaving. */
module StaleRows {
  import opened Prelude
  import opened Calendar
  import opened Models
  import opened Tables
  import opened Cache
  import opened Engine
  import opened BookingSafety
  import opened Staleness
  import opened Coherence
  import BookingHistory

  /** Step `j` commits the booking `b` of the slot, by client `c`. */
  predicate Books(s: State, e: Event, slot: Id, b: Id) {
    e.Go? && e.client in s.sessions && s.sessions[e.client].pc.CreateCommit?
    && s.sessions[e.client].pc.slot == slot && s.sessions[e.client].pc.booking == b
  }

  predicate IsActive(db: Db, b: Id) {
    b in db.bookings && db.bookings[b].status.Active?
  }

  /** The client of step `j` is still to invalidate for booking `b` in state `k`. */
  predicate StillToInvalidate(r: Run, j: nat, k: nat, key: Key, b: Id)
    requires j < |r.events| && k < |r.states| && r.events[j].Go?
  {
    Stands(r.states[k], r.events[j].client, CreateInvalidate(key, b))
  }

  /** At step `x` the client of step `j` tried to invalidate for booking `b` and did not reach the cache. */
  ghost predicate Lost(r: Run, j: nat, x: nat, key: Key, b: Id)
    requires |r.states| == |r.events| + 1 && j < |r.events| && r.events[j].Go?
  {
    && j < x < |r.events| && r.events[x].Go? && r.events[x].client == r.events[j].client && !r.events[x].choice.reached
    && Stands(r.states[x], r.events[j].client, CreateInvalidate(key, b))
  }

  /**
   The booking `b` of a listed slot, committed at step `j` after the query at `i`, has escaped the
   listing: the listing was stored after the commit, or the invalidation is still to come, or was lost.
   */
  ghost predicate Escapes(r: Run, i: nat, m: nat, k: nat, key: Key, slot: Id, j: nat, b: Id)
    requires |r.states| == |r.events| + 1
  {
    && i <= j < k < |r.states| && Books(r.states[j], r.events[j], slot, b) && IsActive(r.states[k].db, b)
    && (j < m || StillToInvalidate(r, j, k, key, b) || LostBefore(r, j, k, key, b))
  }

  // ---- Where an active booking came from ----

  /** A booking that appears was committed by that very step. */
  lemma AppearsByCommit(cfg: Config, s: State, e: Event, t: State, b: Id)
    requires cfg.duration > 0 && BookingInv(s) && Next(cfg, s, e) == Some(t) && b !in s.db.bookings && b in t.db.bookings
    ensures Books(s, e, t.db.bookings[b].slot, b)
  {
    StepFrame(cfg, s, e, t);
    if e.Go? && !s.sessions[e.client].pc.CreateCommit? {
      if s.sessions[e.client].pc.CancelCommit? {
        CancelEvolves(s.db, s.sessions[e.client].pc.booking);
      } else {
        BookingHistory.OtherWritesSpareBookings(cfg, s, e.client, e.choice, t);
      }
    }
  }

  lemma {:induction false} CommitOf(cfg: Config, r: Run, i: nat, k: nat, b: Id) returns (j: nat)
    requires IsRun(cfg, r) && i <= k < |r.states| && b !in r.states[i].db.bookings && b in r.states[k].db.bookings
    ensures i <= j < k && Books(r.states[j], r.events[j], r.states[k].db.bookings[b].slot, b)
    decreases k - i
  {
    RunInv(cfg, r, k - 1);
    CommitStep(cfg, r.states[k - 1], r.events[k - 1], r.states[k], b);
    if b in r.states[k - 1].db.bookings {
      j := CommitOf(cfg, r, i, k - 1, b);
    } else {
      j := k - 1;
    }
  }

  lemma CommitStep(cfg: Config, s: State, e: Event, t: State, b: Id)
    requires cfg.duration > 0 && BookingInv(s) && Next(cfg, s, e) == Some(t) && b in t.db.bookings
    ensures if b in s.db.bookings then t.db.bookings[b].slot == s.db.bookings[b].slot else Books(s, e, t.db.bookings[b].slot, b)
  {
    if b in s.db.bookings {
      SlotStays(cfg, s, e, t, b);
    } else {
      AppearsByCommit(cfg, s, e, t, b);
    }
  }

  lemma SlotStays(cfg: Config, s: State, e: Event, t: State, b: Id)
    requires cfg.duration > 0 && BookingInv(s) && Next(cfg, s, e) == Some(t) && b in s.db.bookings
    ensures b in t.db.bookings && t.db.bookings[b].slot == s.db.bookings[b].slot
  {
    StepKeeps(cfg, s, e, t);
    assert Forward(s.db.bookings[b], t.db.bookings[b]);
  }

  lemma NotTakenBefore(cfg: Config, r: Run, i: nat, k: nat, slot: Id, b: Id)
    requires IsRun(cfg, r) && i <= k < |r.states| && !Taken(r.states[i].db.bookings, slot)
    requires IsActive(r.states[k].db, b) && r.states[k].db.bookings[b].slot == slot
    ensures b !in r.states[i].db.bookings
  {
    RowsOnlyMoveForward(cfg, r, i, k);
    NeverFree(r.states[i].db, r.states[k].db, b);
  }

  /** An active booking has been active since it was there. */
  lemma NeverFree(a: Db, z: Db, b: Id)
    requires Evolves(a, z) && IsActive(z, b)
    ensures b in a.bookings ==> a.bookings[b] == z.bookings[b]
  {
    assert b in a.bookings ==> Forward(a.bookings[b], z.bookings[b]);
  }

  /** A slot free at `i` and taken at `k` was booked in between, by the booking that holds it. */
  lemma TakenSince(cfg: Config, r: Run, i: nat, k: nat, slot: Id) returns (j: nat, b: Id)
    requires IsRun(cfg, r) && i <= k < |r.states|
    requires !Taken(r.states[i].db.bookings, slot) && Taken(r.states[k].db.bookings, slot)
    ensures i <= j < k && Books(r.states[j], r.events[j], slot, b) && IsActive(r.states[k].db, b)
  {
    b :| b in r.states[k].db.bookings && r.states[k].db.bookings[b].slot == slot && r.states[k].db.bookings[b].status.Active?;
    NotTakenBefore(cfg, r, i, k, slot, b);
    j := CommitOf(cfg, r, i, k, b);
  }

  /** A committed booking that is still active holds its slot. */
  lemma BookedHolds(cfg: Config, r: Run, j: nat, k: nat, slot: Id, b: Id)
    requires IsRun(cfg, r) && j < k < |r.states| && Books(r.states[j], r.events[j], slot, b) && IsActive(r.states[k].db, b)
    ensures Taken(r.states[k].db.bookings, slot)
  {
    var s, t := r.states[j], r.states[j + 1];
    assert t.db.bookings[b].slot == slot;
    RowsOnlyMoveForward(cfg, r, j + 1, k);
    assert Forward(t.db.bookings[b], r.states[k].db.bookings[b]);
  }

  // ---- What becomes of its invalidation ----

  /** A client that is to invalidate stays so, or tries to. */
  lemma InvalidationStep(cfg: Config, s: State, e: Event, t: State, c: Id, key: Key, b: Id)
    requires cfg.duration > 0 && Next(cfg, s, e) == Some(t) && Stands(s, c, CreateInvalidate(key, b))
    ensures Stands(t, c, CreateInvalidate(key, b)) || (e.Go? && e.client == c && (e.choice.reached ==> key !in t.cache))
  {
    StepFrame(cfg, s, e, t);
  }

  ghost predicate LostBefore(r: Run, j: nat, k: nat, key: Key, b: Id)
    requires |r.states| == |r.events| + 1 && j < |r.events| && r.events[j].Go?
  {
    exists x: nat :: x < k && Lost(r, j, x, key, b)
  }

  /** Since step `j` the key has had no entry at least once. */
  ghost predicate DroppedBy(r: Run, j: nat, k: nat, key: Key) {
    exists x: nat :: j + 1 < x <= k < |r.states| && key !in r.states[x].cache
  }

  /** The invalidation is still to come, has been lost, or the entry was gone on the way. */
  ghost predicate Fate(r: Run, j: nat, k: nat, key: Key, b: Id)
    requires |r.states| == |r.events| + 1 && j < |r.events| && r.events[j].Go?
  {
    k < |r.states| && (StillToInvalidate(r, j, k, key, b) || LostBefore(r, j, k, key, b) || DroppedBy(r, j, k, key))
  }

  lemma FateStep(cfg: Config, r: Run, j: nat, k: nat, next: nat, key: Key, b: Id)
    requires IsRun(cfg, r) && j < k < |r.events| && next == k + 1 && r.events[j].Go? && Fate(r, j, k, key, b)
    ensures Fate(r, j, next, key, b)
  {
    if StillToInvalidate(r, j, k, key, b) {
      InvalidationStep(cfg, r.states[k], r.events[k], r.states[next], r.events[j].client, key, b);
      if !StillToInvalidate(r, j, next, key, b) && !r.events[k].choice.reached {
        assert Lost(r, j, k, key, b);
      }
    }
  }

  lemma {:induction false} InvalidationFate(cfg: Config, r: Run, j: nat, k: nat, key: Key, b: Id)
    requires IsRun(cfg, r) && j < k < |r.states| && r.events[j].Go?
    requires Fate(r, j, j + 1, key, b)
    ensures Fate(r, j, k, key, b)
    decreases k - j
  {
    if j + 1 != k {
      var before: nat := k - 1;
      InvalidationFate(cfg, r, j, before, key, b);
      FateStep(cfg, r, j, before, k, key, b);
    }
  }

  /** The commit leaves its client about to invalidate the slot's own key. */
  lemma CommitInvalidates(cfg: Config, s: State, e: Event, t: State, slot: Id, b: Id)
    requires cfg.cached && cfg.duration > 0 && BookingInv(s) && Next(cfg, s, e) == Some(t) && Books(s, e, slot, b)
    ensures slot in s.db.slots && Stands(t, e.client, CreateInvalidate(SlotKey(s.db.slots[slot]), b))
  {
    assert SessionOk(s.db, s.sessions[e.client].pc);
  }

  // ---- The exact condition ----

  /** `rows` was queried at `i`, carried to `m`, and has been the entry under `key` from there to state `k`. */
  ghost predicate Holds(cfg: Config, r: Run, i: nat, m: nat, k: nat, d: Id, key: Key, rows: seq<SlotRow>)
    requires |r.states| == |r.events| + 1
  {
    && Carries(r, i, m, d, key, rows) && m <= k < |r.states|
    && (m < k ==> exists e: Entry :: e.rows == rows && Fills(cfg, r, i, m, d, key, e) && Stays(r, m, k, key, e))
  }

  predicate Lists(rows: seq<SlotRow>, slot: Id) {
    exists x :: 0 <= x < |rows| && rows[x].id == slot
  }

  /** A listed slot was free when queried, and it is of the key. */
  lemma ListedAtQuery(cfg: Config, r: Run, i: nat, d: Id, key: Key, rows: seq<SlotRow>, slot: Id)
    requires IsRun(cfg, r) && Queries(r, i, d, key, rows) && Lists(rows, slot)
    ensures slot in r.states[i].db.slots && SlotKey(r.states[i].db.slots[slot]) == key && !Taken(r.states[i].db.bookings, slot)
  {
    RunInv(cfg, r, i);
    AvailableExact(r.states[i].db, key.lane, key.day);
    KeyMatchesWindow(r.states[i].db.slots[slot].start, key.day);
  }

  lemma KeyOfBooked(cfg: Config, r: Run, i: nat, j: nat, slot: Id, b: Id, key: Key)
    requires cfg.cached && IsRun(cfg, r) && i <= j < |r.events| && Books(r.states[j], r.events[j], slot, b)
    requires slot in r.states[i].db.slots && SlotKey(r.states[i].db.slots[slot]) == key
    ensures Stands(r.states[j + 1], r.events[j].client, CreateInvalidate(key, b))
  {
    RunInv(cfg, r, j);
    RowsOnlyMoveForward(cfg, r, i, j);
    CommitInvalidates(cfg, r.states[j], r.events[j], r.states[j + 1], slot, b);
  }

  /** A booking committed while the entry stood either escaped it or deleted it. */
  lemma LateBookingEscapes(cfg: Config, r: Run, i: nat, m: nat, k: nat, d: Id, key: Key, rows: seq<SlotRow>, slot: Id, j: nat, b: Id)
    requires cfg.cached && IsRun(cfg, r) && Holds(cfg, r, i, m, k, d, key, rows) && Lists(rows, slot)
    requires i <= j < k && m <= j && Books(r.states[j], r.events[j], slot, b) && IsActive(r.states[k].db, b)
    ensures Escapes(r, i, m, k, key, slot, j, b)
  {
    ListedAtQuery(cfg, r, i, d, key, rows, slot);
    KeyOfBooked(cfg, r, i, j, slot, b, key);
    InvalidationFate(cfg, r, j, k, key, b);
    NotDropped(cfg, r, i, m, k, d, key, rows, j);
  }

  lemma NotDropped(cfg: Config, r: Run, i: nat, m: nat, k: nat, d: Id, key: Key, rows: seq<SlotRow>, j: nat)
    requires |r.states| == |r.events| + 1 && Holds(cfg, r, i, m, k, d, key, rows) && m <= j < k
    ensures !DroppedBy(r, j, k, key)
  {
    var e: Entry :| e.rows == rows && Fills(cfg, r, i, m, d, key, e) && Stays(r, m, k, key, e);
    forall x: nat | j + 1 < x <= k ensures key in r.states[x].cache {
      assert m < x <= k;
    }
  }

  /**
   The exact condition, over every interleaving: a slot that a listing shows, queried at step `i` and
   stored at step `m`, is booked in state `k` if and only if its booking was committed after the query
   and either before the store, or with an invalidation still to come or lost.
   */
  lemma BookedRowExactly(cfg: Config, r: Run, i: nat, m: nat, k: nat, d: Id, key: Key, rows: seq<SlotRow>, slot: Id)
    requires cfg.cached && IsRun(cfg, r) && Holds(cfg, r, i, m, k, d, key, rows) && Lists(rows, slot)
    ensures Taken(r.states[k].db.bookings, slot) <==> exists j, b :: Escapes(r, i, m, k, key, slot, j, b)
  {
    if Taken(r.states[k].db.bookings, slot) {
      ListedAtQuery(cfg, r, i, d, key, rows, slot);
      var j, b := TakenSince(cfg, r, i, k, slot);
      if j >= m {
        LateBookingEscapes(cfg, r, i, m, k, d, key, rows, slot, j, b);
      }
      assert Escapes(r, i, m, k, key, slot, j, b);
    }
    if j: nat, b: Id :| Escapes(r, i, m, k, key, slot, j, b) {
      BookedHolds(cfg, r, j, k, slot, b);
    }
  }

  /** Every invalidation that took place reached the cache. */
  ghost predicate DeletesReach(r: Run)
    requires |r.states| == |r.events| + 1
  {
    forall k :: 0 <= k < |r.events| ==> DeleteReaches(r.states[k], r.events[k])
  }

  predicate DeleteReaches(s: State, e: Event) {
    e.Go? && e.client in s.sessions && IsInvalidation(s.sessions[e.client].pc) ==> e.choice.reached
  }

  lemma NoneLost(r: Run, j: nat, key: Key, b: Id)
    requires |r.states| == |r.events| + 1 && DeletesReach(r) && j < |r.events| && r.events[j].Go?
    ensures forall x: nat :: !Lost(r, j, x, key, b)
  {
    forall x: nat ensures !Lost(r, j, x, key, b) {
      assert x < |r.events| ==> DeleteReaches(r.states[x], r.events[x]);
    }
  }

  /**
   With deletes that reach the cache and none of the key pending, an entry shows a booked slot exactly
   when a booking of it, active still, was committed between that reader's query and its store.
   */
  lemma StaleRowExactly(cfg: Config, r: Run, i: nat, m: nat, k: nat, d: Id, key: Key, e: Entry, slot: Id)
    requires cfg.cached && IsRun(cfg, r) && DeletesReach(r) && k < |r.states| && !Invalidating(r.states[k], key)
    requires m < k && Fills(cfg, r, i, m, d, key, e) && Stays(r, m, k, key, e) && Lists(e.rows, slot)
    ensures Taken(r.states[k].db.bookings, slot) <==>
      exists j, b :: i <= j < m && Books(r.states[j], r.events[j], slot, b) && IsActive(r.states[k].db, b)
  {
    BookedRowExactly(cfg, r, i, m, k, d, key, e.rows, slot);
    if Taken(r.states[k].db.bookings, slot) {
      var j: nat, b: Id :| Escapes(r, i, m, k, key, slot, j, b);
      NoneLost(r, j, key, b);
      if StillToInvalidate(r, j, k, key, b) {
        assert InvalidatesKey(r.states[k].sessions[r.events[j].client].pc, key);
      }
      assert i <= j < m && Books(r.states[j], r.events[j], slot, b) && IsActive(r.states[k].db, b);
    }
    if j: nat, b: Id :| i <= j < m && Books(r.states[j], r.events[j], slot, b) && IsActive(r.states[k].db, b) {
      assert Escapes(r, i, m, k, key, slot, j, b);
    }
  }

  /**
   Every answer, hit or miss, of every run: its rows come from one query and one store, and a slot it
   shows is booked at that moment exactly under the condition above.
   */
  lemma AnswerShowsBookedExactly(cfg: Config, r: Run, k: nat, c: Id, rows: seq<SlotRow>) returns (i: nat, m: nat, d: Id)
    requires cfg.cached && IsRun(cfg, r) && Answers(r, k, c, rows)
    ensures InRead(r.states[k].sessions[c].pc) && Holds(cfg, r, i, m, k, d, r.states[k].sessions[c].pc.key, rows)
    ensures forall slot :: Lists(rows, slot) ==>
      (Taken(r.states[k].db.bookings, slot) <==>
       exists j, b :: Escapes(r, i, m, k, r.states[k].sessions[c].pc.key, slot, j, b))
  {
    AnswerStep(cfg, r.states[k], r.events[k], r.states[k + 1], c, rows);
    i, m, d := AnswerSource(cfg, r, k, c, rows);
    forall slot | Lists(rows, slot)
      ensures Taken(r.states[k].db.bookings, slot) <==>
              exists j, b :: Escapes(r, i, m, k, r.states[k].sessions[c].pc.key, slot, j, b)
    {
      BookedRowExactly(cfg, r, i, m, k, d, r.states[k].sessions[c].pc.key, rows, slot);
    }
  }

  lemma AnswerSource(cfg: Config, r: Run, k: nat, c: Id, rows: seq<SlotRow>) returns (i: nat, m: nat, d: Id)
    requires cfg.cached && IsRun(cfg, r) && Answers(r, k, c, rows)
    ensures InRead(r.states[k].sessions[c].pc) && Holds(cfg, r, i, m, k, d, r.states[k].sessions[c].pc.key, rows)
  {
    var s := r.states[k];
    AnswerStep(cfg, s, r.events[k], r.states[k + 1], c, rows);
    match s.sessions[c].pc
    case ReadCache(key) =>
      i, m, d := EntriesWereFilled(cfg, r, k, key);
      assert s.cache[key].rows == rows;
    case ReadQuery(key) =>
      i, m, d := k, k, c;
    case ReadFill(key, carried) =>
      d, m := c, k;
      i := CarriedRowsWereQueried(cfg, r, k, c);
  }
}
