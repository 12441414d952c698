/**
 When calls do not overlap and every delete reaches the cache, a listing from the cache is the
 fresh query result with the slots inserted since crossed out.
 */
module Coherence {
  import opened Prelude
  import opened Calendar
  import opened Models
  import opened Tables
  import opened Cache
  import opened Engine
  import opened BookingSafety
  import opened Staleness
  import BookingHistory
  import Ordering

  // ---- Sequential runs ----

  predicate AllIdle(s: State) {
    forall c :: c in s.sessions ==> s.sessions[c].pc.Idle?
  }

  predicate OneAtATime(s: State) {
    forall c, d :: c in s.sessions && d in s.sessions && !s.sessions[c].pc.Idle? && !s.sessions[d].pc.Idle? ==> c == d
  }

  predicate IsInvalidation(pc: Pc) {
    pc.CreateInvalidate? || pc.CancelInvalidate?
  }

  /** A call starts only when no other is under way, and a delete reaches the cache. */
  predicate Orderly(s: State, e: Event) {
    && (e.Call? ==> AllIdle(s))
    && (e.Go? && e.client in s.sessions && IsInvalidation(s.sessions[e.client].pc) ==> e.choice.reached)
  }

  ghost predicate Sequential(r: Run)
    requires |r.states| == |r.events| + 1
  {
    forall k :: 0 <= k < |r.events| ==> Orderly(r.states[k], r.events[k])
  }

  lemma StepsOneAtATime(cfg: Config, s: State, e: Event, t: State)
    requires cfg.duration > 0 && Next(cfg, s, e) == Some(t) && OneAtATime(s) && Orderly(s, e)
    ensures OneAtATime(t)
    ensures e.Go? || e.Fault? ==> e.client in s.sessions && !s.sessions[e.client].pc.Idle?
  {
    StepFrame(cfg, s, e, t);
  }

  lemma {:induction false} RunsOneAtATime(cfg: Config, r: Run, k: nat)
    requires IsRun(cfg, r) && Sequential(r) && k < |r.states|
    ensures OneAtATime(r.states[k])
  {
    if k > 0 {
      RunsOneAtATime(cfg, r, k - 1);
      StepsOneAtATime(cfg, r.states[k - 1], r.events[k - 1], r.states[k]);
    }
  }

  // ---- Listings with slots crossed out ----

  /** The listing without the slots outside `seen`. */
  function KeepRows(rows: seq<SlotRow>, seen: set<Id>): (r: seq<SlotRow>)
    ensures forall i :: 0 <= i < |r| ==> r[i] in rows && r[i].id in seen
  {
    if rows == [] then [] else
      (if rows[0].id in seen then [rows[0]] else []) + KeepRows(rows[1..], seen)
  }

  function OnKey(slots: map<Id, Slot>, key: Key): set<Id> {
    SlotsOn(slots, key.lane, key.day)
  }

  function Fresh(db: Db, key: Key): seq<SlotRow> {
    Available(db, key.lane, key.day)
  }

  function AmongKeys(db: Db, key: Key, seen: set<Id>): map<Id, int> {
    Ordering.Restrict(FreeKeys(db, key.lane, key.day), seen)
  }

  /** The query restricted to the slots in `seen`. */
  function Among(db: Db, key: Key, seen: set<Id>): seq<SlotRow> {
    SlotRows(db.slots, Ordering.Sorted(AmongKeys(db, key, seen)))
  }

  lemma AmongAll(db: Db, key: Key, seen: set<Id>)
    requires FreeSlots(db, key.lane, key.day) <= seen
    ensures Among(db, key, seen) == Fresh(db, key)
  {
    assert AmongKeys(db, key, seen) == FreeKeys(db, key.lane, key.day);
  }

  /** Nothing that happens to other slots shows. */
  lemma AmongSame(a: Db, b: Db, key: Key, seen: set<Id>)
    requires seen <= OnKey(a.slots, key)
    requires forall i :: i in seen ==> i in b.slots && b.slots[i] == a.slots[i] && (Taken(b.bookings, i) <==> Taken(a.bookings, i))
    ensures Among(a, key, seen) == Among(b, key, seen)
  {
    AmongKeysSame(a, b, key, seen);
    var ids := Ordering.Sorted(AmongKeys(a, key, seen));
    assert SlotRows(a.slots, ids) == SlotRows(b.slots, ids);
  }

  lemma AmongKeysSame(a: Db, b: Db, key: Key, seen: set<Id>)
    requires seen <= OnKey(a.slots, key)
    requires forall i :: i in seen ==> i in b.slots && b.slots[i] == a.slots[i] && (Taken(b.bookings, i) <==> Taken(a.bookings, i))
    ensures AmongKeys(a, key, seen) == AmongKeys(b, key, seen)
  {
    FreeSlotsExact(a, key.lane, key.day);
    FreeSlotsExact(b, key.lane, key.day);
    var p, q := AmongKeys(a, key, seen), AmongKeys(b, key, seen);
    assert p.Keys == q.Keys;
  }

  lemma {:induction false} KeepRowsOf(slots: map<Id, Slot>, ids: seq<Id>, seen: set<Id>)
    requires forall i :: 0 <= i < |ids| ==> ids[i] in slots
    ensures forall i :: 0 <= i < |Ordering.Keep(ids, seen)| ==> Ordering.Keep(ids, seen)[i] in slots
    ensures KeepRows(SlotRows(slots, ids), seen) == SlotRows(slots, Ordering.Keep(ids, seen))
  {
    if ids != [] {
      KeepRowsOf(slots, ids[1..], seen);
      var first, rest := if ids[0] in seen then [ids[0]] else [], Ordering.Keep(ids[1..], seen);
      assert SlotRows(slots, ids)[1..] == SlotRows(slots, ids[1..]);
      assert Ordering.Keep(ids, seen) == first + rest;
      SlotRowsConcat(slots, first, rest);
    }
  }

  lemma SlotRowsConcat(slots: map<Id, Slot>, a: seq<Id>, b: seq<Id>)
    requires forall i :: 0 <= i < |a| ==> a[i] in slots
    requires forall i :: 0 <= i < |b| ==> b[i] in slots
    ensures forall i :: 0 <= i < |a + b| ==> (a + b)[i] in slots
    ensures SlotRows(slots, a + b) == SlotRows(slots, a) + SlotRows(slots, b)
  {
  }

  /** Restricting the query to some slots is crossing the others out of its result. */
  lemma AmongKept(db: Db, key: Key, seen: set<Id>)
    ensures Among(db, key, seen) == KeepRows(Fresh(db, key), seen)
  {
    Ordering.SortedKeep(FreeKeys(db, key.lane, key.day), seen);
    KeepRowsOf(db.slots, Ordering.Sorted(FreeKeys(db, key.lane, key.day)), seen);
  }

  /** Which slots are crossed out decides whether the listing is still the fresh one. */
  lemma KeptIsFresh(db: Db, key: Key, seen: set<Id>)
    requires UniqueSlots(db.slots)
    ensures KeepRows(Fresh(db, key), seen) == Fresh(db, key) <==> FreeSlots(db, key.lane, key.day) <= seen
  {
    AmongKept(db, key, seen);
    if FreeSlots(db, key.lane, key.day) <= seen {
      AmongAll(db, key, seen);
    }
    if KeepRows(Fresh(db, key), seen) == Fresh(db, key) {
      FreeSlotsExact(db, key.lane, key.day);
      AvailableExact(db, key.lane, key.day);
      forall i | i in FreeSlots(db, key.lane, key.day) ensures i in seen {
        assert SlotRow(i, db.slots[i]) in Fresh(db, key);
      }
    }
  }

  // ---- Invalidation ----

  predicate InvalidatesKey(pc: Pc, key: Key) {
    IsInvalidation(pc) && pc.key == key
  }

  predicate Invalidating(s: State, key: Key) {
    exists c :: c in s.sessions && InvalidatesKey(s.sessions[c].pc, key)
  }

  /** A change to the bookings of one slot shows under that slot's own key only. */
  lemma OtherKeysSpared(a: Db, b: Db, slot: Id, key: Key, seen: set<Id>)
    requires slot in a.slots && SlotKey(a.slots[slot]) != key && seen <= OnKey(a.slots, key)
    requires b.slots == a.slots && forall i :: i != slot ==> (Taken(b.bookings, i) <==> Taken(a.bookings, i))
    ensures Among(a, key, seen) == Among(b, key, seen)
  {
    KeyMatchesWindow(a.slots[slot].start, key.day);
    assert slot !in seen;
    AmongSame(a, b, key, seen);
  }

  lemma BookingSpares(db: Db, id: Id, row: Booking, slot: Id)
    requires id !in db.bookings && slot != row.slot
    ensures Taken(db.bookings[id := row], slot) <==> Taken(db.bookings, slot)
  {
    if Taken(db.bookings, slot) {
      var b :| b in db.bookings && db.bookings[b].slot == slot && db.bookings[b].status.Active?;
      assert db.bookings[id := row][b] == db.bookings[b];
    }
  }

  lemma CancelSpares(db: Db, id: Id, slot: Id)
    requires id in db.bookings && slot != db.bookings[id].slot
    ensures Taken(CancelBooking(db, id).bookings, slot) <==> Taken(db.bookings, slot)
  {
    var after := CancelBooking(db, id);
    if Taken(db.bookings, slot) {
      var b :| b in db.bookings && db.bookings[b].slot == slot && db.bookings[b].status.Active?;
      assert after.bookings[b] == db.bookings[b];
    }
  }

  lemma CreateCommitCoherent(cfg: Config, s: State, c: Id, ch: Choice, t: State, key: Key, seen: set<Id>)
    requires cfg.cached && BookingInv(s) && c in s.sessions && s.sessions[c].pc.CreateCommit?
    requires StepCreate(cfg, s, c, ch) == Some(t) && seen <= OnKey(s.db.slots, key)
    ensures Among(t.db, key, seen) == Among(s.db, key, seen) || Invalidating(t, key)
  {
    var pc := s.sessions[c].pc;
    assert SessionOk(s.db, pc);
    if SlotKey(pc.row) == key {
      assert InvalidatesKey(t.sessions[c].pc, key);
    } else {
      forall i | i != pc.slot ensures Taken(t.db.bookings, i) <==> Taken(s.db.bookings, i) {
        BookingSpares(s.db, pc.booking, Booking(pc.user, pc.slot, Active, pc.at), i);
      }
      OtherKeysSpared(s.db, t.db, pc.slot, key, seen);
    }
  }

  lemma CancelCommitCoherent(cfg: Config, s: State, c: Id, ch: Choice, t: State, key: Key, seen: set<Id>)
    requires cfg.cached && BookingInv(s) && c in s.sessions && s.sessions[c].pc.CancelCommit?
    requires StepCancel(cfg, s, c, ch) == Some(t) && seen <= OnKey(s.db.slots, key)
    ensures Among(t.db, key, seen) == Among(s.db, key, seen) || Invalidating(t, key)
  {
    var pc := s.sessions[c].pc;
    assert SessionOk(s.db, pc);
    if SlotKey(pc.row) == key {
      assert InvalidatesKey(t.sessions[c].pc, key);
    } else {
      var slot := s.db.bookings[pc.booking].slot;
      forall i | i != slot ensures Taken(t.db.bookings, i) <==> Taken(s.db.bookings, i) {
        CancelSpares(s.db, pc.booking, i);
      }
      OtherKeysSpared(s.db, t.db, slot, key, seen);
    }
  }

  /** Any other step leaves the seen slots and their bookings alone. */
  lemma OtherStepsCoherent(cfg: Config, s: State, e: Event, t: State, key: Key, seen: set<Id>)
    requires cfg.duration > 0 && BookingInv(s) && Next(cfg, s, e) == Some(t) && seen <= OnKey(s.db.slots, key)
    requires e.Go? && e.client in s.sessions ==> !s.sessions[e.client].pc.CreateCommit? && !s.sessions[e.client].pc.CancelCommit?
    ensures Among(t.db, key, seen) == Among(s.db, key, seen)
  {
    StepKeeps(cfg, s, e, t);
    StepFrame(cfg, s, e, t);
    match e {
      case Go(c, ch) => BookingHistory.OtherWritesSpareBookings(cfg, s, c, ch, t);
      case _ =>
    }
    assert t.db.bookings == s.db.bookings;
    AmongSame(s.db, t.db, key, seen);
  }

  /** An entry agrees with the tables as far as it has seen them, or is about to be deleted. */
  ghost predicate Agrees(s: State, key: Key, rows: seq<SlotRow>, seen: set<Id>) {
    seen <= OnKey(s.db.slots, key) && (rows == Among(s.db, key, seen) || Invalidating(s, key))
  }

  lemma SeenStay(cfg: Config, s: State, e: Event, t: State, key: Key, seen: set<Id>)
    requires cfg.duration > 0 && BookingInv(s) && Next(cfg, s, e) == Some(t) && seen <= OnKey(s.db.slots, key)
    ensures seen <= OnKey(t.db.slots, key)
  {
    StepKeeps(cfg, s, e, t);
  }

  /** While an invalidation is pending its client has the service to itself, and its next step deletes the entry. */
  lemma PendingInvalidation(cfg: Config, s: State, e: Event, t: State, key: Key)
    requires cfg.duration > 0 && Next(cfg, s, e) == Some(t) && OneAtATime(s) && Orderly(s, e)
    requires Invalidating(s, key) && key in t.cache
    ensures Invalidating(t, key)
  {
    var c :| c in s.sessions && InvalidatesKey(s.sessions[c].pc, key);
    StepFrame(cfg, s, e, t);
    StepsOneAtATime(cfg, s, e, t);
    if e.Go? {
      CacheFrame(cfg, s, c, e.choice, t);
      assert false;
    } else if !e.Call? && !e.Fault? {
      assert InvalidatesKey(t.sessions[c].pc, key);
    }
  }

  lemma StepAgrees(cfg: Config, s: State, e: Event, t: State, key: Key, rows: seq<SlotRow>, seen: set<Id>)
    requires cfg.cached && cfg.duration > 0 && BookingInv(s) && Next(cfg, s, e) == Some(t) && OneAtATime(s) && Orderly(s, e)
    requires Agrees(s, key, rows, seen) && key in t.cache
    ensures Agrees(t, key, rows, seen)
  {
    SeenStay(cfg, s, e, t, key, seen);
    if Invalidating(s, key) {
      PendingInvalidation(cfg, s, e, t, key);
    } else if e.Go? && e.client in s.sessions && s.sessions[e.client].pc.CreateCommit? {
      CreateCommitCoherent(cfg, s, e.client, e.choice, t, key, seen);
    } else if e.Go? && e.client in s.sessions && s.sessions[e.client].pc.CancelCommit? {
      CancelCommitCoherent(cfg, s, e.client, e.choice, t, key, seen);
    } else {
      OtherStepsCoherent(cfg, s, e, t, key, seen);
    }
  }

  // ---- Whole runs ----

  /** A reader that carries rows holds up nobody, so nobody has written. */
  lemma CarrierQuiet(cfg: Config, s: State, e: Event, t: State, c: Id, key: Key, rows: seq<SlotRow>)
    requires cfg.duration > 0 && Next(cfg, s, e) == Some(t) && OneAtATime(s) && Orderly(s, e)
    requires Stands(s, c, ReadFill(key, rows)) && Stands(t, c, ReadFill(key, rows))
    ensures t.db.slots == s.db.slots && t.db.bookings == s.db.bookings
  {
    StepFrame(cfg, s, e, t);
    StepsOneAtATime(cfg, s, e, t);
  }

  lemma FreshSame(a: Db, b: Db, key: Key)
    requires a.slots == b.slots && a.bookings == b.bookings
    ensures Fresh(a, key) == Fresh(b, key)
  {
    var seen := OnKey(a.slots, key);
    FreeSlotsExact(a, key.lane, key.day);
    FreeSlotsExact(b, key.lane, key.day);
    AmongAll(a, key, seen);
    AmongAll(b, key, seen);
    AmongSame(a, b, key, seen);
  }

  lemma StillFresh(cfg: Config, s: State, e: Event, t: State, c: Id, key: Key, rows: seq<SlotRow>)
    requires cfg.duration > 0 && Next(cfg, s, e) == Some(t) && OneAtATime(s) && Orderly(s, e) && Stands(t, c, ReadFill(key, rows))
    requires Stands(s, c, ReadFill(key, rows)) ==> rows == Fresh(s.db, key)
    ensures rows == Fresh(t.db, key)
  {
    CarrierStep(cfg, s, e, t, c);
    if Stands(s, c, ReadFill(key, rows)) {
      CarrierQuiet(cfg, s, e, t, c, key, rows);
    } else {
      QueryQuiet(cfg, s, e, t, c, key);
    }
    FreshSame(s.db, t.db, key);
  }

  /** In a sequential run the rows a reader carries are still fresh. */
  lemma {:induction false} CarriedRowsFresh(cfg: Config, r: Run, k: nat, c: Id)
    requires IsRun(cfg, r) && Sequential(r) && k < |r.states| && c in r.states[k].sessions && r.states[k].sessions[c].pc.ReadFill?
    ensures r.states[k].sessions[c].pc.rows == Fresh(r.states[k].db, r.states[k].sessions[c].pc.key)
  {
    var key, rows := r.states[k].sessions[c].pc.key, r.states[k].sessions[c].pc.rows;
    assert k > 0;
    RunsOneAtATime(cfg, r, k - 1);
    if Stands(r.states[k - 1], c, ReadFill(key, rows)) {
      CarriedRowsFresh(cfg, r, k - 1, c);
    }
    StillFresh(cfg, r.states[k - 1], r.events[k - 1], r.states[k], c, key, rows);
  }

  lemma QueryQuiet(cfg: Config, s: State, e: Event, t: State, c: Id, key: Key)
    requires cfg.duration > 0 && Next(cfg, s, e) == Some(t) && e.Go? && e.client == c && Stands(s, c, ReadQuery(key))
    ensures t.db == s.db
  {
    StepFrame(cfg, s, e, t);
  }

  lemma AgreesWhenFresh(s: State, key: Key, rows: seq<SlotRow>)
    requires rows == Fresh(s.db, key)
    ensures Agrees(s, key, rows, OnKey(s.db.slots, key))
  {
    FreeSlotsExact(s.db, key.lane, key.day);
    AmongAll(s.db, key, OnKey(s.db.slots, key));
  }

  lemma FilledAgrees(cfg: Config, r: Run, i: nat, m: nat, c: Id, key: Key, e: Entry)
    requires IsRun(cfg, r) && Sequential(r) && Fills(cfg, r, i, m, c, key, e)
    ensures Agrees(r.states[m], key, e.rows, OnKey(r.states[m].db.slots, key))
  {
    assert Stands(r.states[m], c, ReadFill(key, e.rows));
    CarriedRowsFresh(cfg, r, m, c);
    AgreesWhenFresh(r.states[m], key, e.rows);
  }

  /** An entry set at step `m` keeps agreeing with the tables for as long as it stays. */
  lemma {:induction false} EntryAgrees(cfg: Config, r: Run, m: nat, k: nat, key: Key, e: Entry, seen: set<Id>)
    requires cfg.cached && IsRun(cfg, r) && Sequential(r) && m <= k < |r.states|
    requires Agrees(r.states[m], key, e.rows, seen) && Stays(r, m, k, key, e)
    ensures Agrees(r.states[k], key, e.rows, seen)
    decreases k
  {
    if m < k {
      EntryAgrees(cfg, r, m, k - 1, key, e, seen);
      RunInv(cfg, r, k - 1);
      RunsOneAtATime(cfg, r, k - 1);
      StepAgrees(cfg, r.states[k - 1], r.events[k - 1], r.states[k], key, e.rows, seen);
    }
  }

  /** The entry under `key` in state `k` was set at step `m` and has stayed. */
  ghost predicate SetAt(cfg: Config, r: Run, m: nat, k: nat, key: Key, rows: seq<SlotRow>)
    requires |r.states| == |r.events| + 1
  {
    m < k < |r.states| && Stays(r, m, k, key, Entry(rows, r.states[m].now + cfg.ttl))
  }

  /**
   Sequential coherence: with calls that do not overlap and deletes that reach the cache, a listing is
   the fresh query result with the slots crossed out that were inserted since step `m`, when the
   entry was set (`m` is now when it does not come from the cache). So it never shows a booked slot,
   and it is exactly the fresh result unless a slot now free was inserted in between.
   */
  lemma SequentialCoherence(cfg: Config, r: Run, k: nat, c: Id, rows: seq<SlotRow>) returns (m: nat)
    requires cfg.cached && IsRun(cfg, r) && Sequential(r) && Answers(r, k, c, rows)
    ensures InRead(r.states[k].sessions[c].pc) && m <= k
    ensures var key, now := r.states[k].sessions[c].pc.key, r.states[k].db;
      var seen := OnKey(r.states[m].db.slots, key);
      && rows == KeepRows(Fresh(now, key), seen)
      && (forall j :: 0 <= j < |rows| ==> !Taken(now.bookings, rows[j].id))
      && (rows == Fresh(now, key) <==> FreeSlots(now, key.lane, key.day) <= seen)
      && (if r.states[k].sessions[c].pc.ReadCache? then SetAt(cfg, r, m, k, key, rows) else m == k)
  {
    AnswerStep(cfg, r.states[k], r.events[k], r.states[k + 1], c, rows);
    if r.states[k].sessions[c].pc.ReadCache? {
      m := HitAgrees(cfg, r, k, c, rows);
    } else {
      m := k;
      MissAgrees(cfg, r, k, c, rows);
    }
    RunInv(cfg, r, k);
    AmongMeans(r.states[k].db, r.states[k].sessions[c].pc.key, OnKey(r.states[m].db.slots, r.states[k].sessions[c].pc.key));
  }

  lemma AmongMeans(db: Db, key: Key, seen: set<Id>)
    requires UniqueSlots(db.slots)
    ensures var rows := Among(db, key, seen);
      && rows == KeepRows(Fresh(db, key), seen)
      && (forall j :: 0 <= j < |rows| ==> !Taken(db.bookings, rows[j].id))
      && (rows == Fresh(db, key) <==> FreeSlots(db, key.lane, key.day) <= seen)
  {
    AmongKept(db, key, seen);
    KeptIsFresh(db, key, seen);
    AvailableExact(db, key.lane, key.day);
  }

  lemma MissAgrees(cfg: Config, r: Run, k: nat, c: Id, rows: seq<SlotRow>)
    requires IsRun(cfg, r) && Sequential(r) && k < |r.states| && c in r.states[k].sessions
    requires match r.states[k].sessions[c].pc
      case ReadQuery(key) => rows == Fresh(r.states[k].db, key)
      case ReadFill(_, carried) => rows == carried
      case _ => false
    ensures var key := r.states[k].sessions[c].pc.key;
      rows == Among(r.states[k].db, key, OnKey(r.states[k].db.slots, key))
  {
    var db, key := r.states[k].db, r.states[k].sessions[c].pc.key;
    if r.states[k].sessions[c].pc.ReadFill? {
      CarriedRowsFresh(cfg, r, k, c);
    }
    FreeSlotsExact(db, key.lane, key.day);
    AmongAll(db, key, OnKey(db.slots, key));
  }

  lemma HitAgrees(cfg: Config, r: Run, k: nat, c: Id, rows: seq<SlotRow>) returns (m: nat)
    requires cfg.cached && IsRun(cfg, r) && Sequential(r) && k < |r.states|
    requires c in r.states[k].sessions && r.states[k].sessions[c].pc.ReadCache?
    requires Lookup(r.states[k].cache, r.states[k].sessions[c].pc.key, r.states[k].now) == Some(rows)
    ensures SetAt(cfg, r, m, k, r.states[k].sessions[c].pc.key, rows)
    ensures rows == Among(r.states[k].db, r.states[k].sessions[c].pc.key, OnKey(r.states[m].db.slots, r.states[k].sessions[c].pc.key))
  {
    var key := r.states[k].sessions[c].pc.key;
    var i, d;
    i, m, d := EntriesWereFilled(cfg, r, k, key);
    var e := r.states[k].cache[key];
    FilledAgrees(cfg, r, i, m, d, key, e);
    EntryAgrees(cfg, r, m, k, key, e, OnKey(r.states[m].db.slots, key));
    RunsOneAtATime(cfg, r, k);
  }
}
