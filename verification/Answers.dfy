/**
 What every call is told, in any interleaving: each answer is traced from the call to the step that
 gave it, with the tables it saw and the one change, if any, that the call made.
 */
module Answers {
  import opened Prelude
  import opened Calendar
  import opened Models
  import opened Tables
  import opened Scheduling
  import opened Cache
  import opened Engine
  import opened BookingSafety
  import opened SlotSafety
  import Staleness
  import Windows
  import Passes

  // ---- Calls and answers ----

  /** The call client `c` made at step `j` is under way in state `k`. */
  ghost predicate UnderWay(r: Run, j: nat, k: nat, c: Id, request: Request)
    requires |r.states| == |r.events| + 1
  {
    && j < k < |r.states| && r.events[j] == Call(c, request)
    && forall x: nat :: j < x <= k ==> Busy(r.states[x], c)
  }

  predicate Busy(s: State, c: Id) {
    c in s.sessions && !s.sessions[c].pc.Idle?
  }

  /** At step `k` the call of step `j` is answered with `a`. */
  ghost predicate Answered(r: Run, j: nat, k: nat, c: Id, request: Request, a: Answer)
    requires |r.states| == |r.events| + 1
  {
    && k < |r.events| && (UnderWay(r, j, k, c, request) || (j == k && r.events[k] == Call(c, request)))
    && Tells(r.states[k], r.states[k + 1], c, a)
  }

  /** One answer more, and the client is idle. */
  predicate Tells(s: State, t: State, c: Id, a: Answer) {
    c in s.sessions && c in t.sessions && t.sessions[c] == Session(Idle, s.sessions[c].answers + [a])
  }

  /** From state `j` to state `k` no step of client `c` changes the tables. */
  ghost predicate NoWrites(r: Run, j: nat, k: nat, c: Id)
    requires |r.states| == |r.events| + 1
  {
    forall x: nat :: j <= x < k && x < |r.events| && ActsFor(r.events[x], c) ==> r.states[x + 1].db == r.states[x].db
  }

  /** Client `c` has taken no step since its call. */
  ghost predicate FirstStep(r: Run, j: nat, k: nat, c: Id) {
    forall x: nat :: j < x < k && x < |r.events| ==> !ActsFor(r.events[x], c)
  }

  lemma NoWritesOn(r: Run, j: nat, k: nat, c: Id)
    requires |r.states| == |r.events| + 1 && k < |r.events| && NoWrites(r, j, k, c)
    requires ActsFor(r.events[k], c) ==> r.states[k + 1].db == r.states[k].db
    ensures NoWrites(r, j, k + 1, c)
  {
  }

  lemma StillUnderWay(r: Run, j: nat, k: nat, c: Id, request: Request)
    requires |r.states| == |r.events| + 1 && UnderWay(r, j, k, c, request) && j + 1 < k
    ensures UnderWay(r, j, k - 1, c, request) && Busy(r.states[k - 1], c) && Busy(r.states[k], c)
  {
  }

  /** Whoever is busy has made a call. */
  lemma {:induction false} BusyCalled(cfg: Config, r: Run, k: nat, c: Id) returns (j: nat, request: Request)
    requires IsRun(cfg, r) && k < |r.states| && Busy(r.states[k], c)
    ensures UnderWay(r, j, k, c, request)
  {
    assert k > 0;
    StepFrame(cfg, r.states[k - 1], r.events[k - 1], r.states[k]);
    if Busy(r.states[k - 1], c) {
      j, request := BusyCalled(cfg, r, k - 1, c);
    } else {
      IdleMoves(cfg, r.states[k - 1], r.events[k - 1], r.states[k], c);
      j, request := k - 1, r.events[k - 1].request;
    }
  }

  /** Only a call moves an idle client. */
  lemma IdleMoves(cfg: Config, s: State, e: Event, t: State, c: Id)
    requires cfg.duration > 0 && Next(cfg, s, e) == Some(t) && c in s.sessions && s.sessions[c].pc.Idle? && c in t.sessions
    ensures t.sessions[c] == s.sessions[c] || (e.Call? && e.client == c)
  {
    StepFrame(cfg, s, e, t);
  }

  /** Every answer is the answer to a call. */
  lemma AnswerHasCall(cfg: Config, r: Run, k: nat, c: Id, a: Answer) returns (j: nat, request: Request)
    requires IsRun(cfg, r) && k < |r.events| && Tells(r.states[k], r.states[k + 1], c, a)
    ensures Answered(r, j, k, c, request, a)
  {
    if Busy(r.states[k], c) {
      j, request := BusyCalled(cfg, r, k, c);
    } else {
      IdleMoves(cfg, r.states[k], r.events[k], r.states[k + 1], c);
      assert r.states[k + 1].sessions[c].answers != r.states[k].sessions[c].answers;
      j, request := k, r.events[k].request;
    }
  }

  /** A client that another step leaves alone. */
  lemma Untouched(cfg: Config, s: State, e: Event, t: State, c: Id)
    requires cfg.duration > 0 && Next(cfg, s, e) == Some(t) && c in s.sessions && !ActsFor(e, c)
    ensures c in t.sessions && t.sessions[c] == s.sessions[c]
  {
    StepFrame(cfg, s, e, t);
  }

  /** A busy client acts by going on or by failing. */
  lemma BusyActs(cfg: Config, s: State, e: Event, t: State, c: Id)
    requires cfg.duration > 0 && Next(cfg, s, e) == Some(t) && Busy(s, c) && ActsFor(e, c)
    ensures e.Go? || e.Fault?
  {
  }

  // ---- Create ----

  /** The transaction of the call of step `j` began at instant `at`. */
  ghost predicate BeganAt(r: Run, j: nat, k: nat, c: Id, at: Time)
    requires |r.states| == |r.events| + 1
  {
    exists g: nat :: j < g < k && BeginsAt(r, g, c, at)
  }

  predicate BeginsAt(r: Run, g: nat, c: Id, at: Time) {
    g < |r.events| && g < |r.states| && r.events[g].Go? && r.events[g].client == c
    && c in r.states[g].sessions && r.states[g].sessions[c].pc.CreateGet? && r.states[g].now == at
  }

  /** At step `i` the call commits the row, its only change to the tables up to state `k`. */
  ghost predicate Made(r: Run, j: nat, i: nat, k: nat, c: Id, user: Id, slot: Id, b: Id, at: Time)
    requires |r.states| == |r.events| + 1
  {
    && j < i < k < |r.states| && r.events[i].Go? && r.events[i].client == c
    && NoWrites(r, j, i, c) && NoWrites(r, i + 1, k, c) && BeganAt(r, j, i, c, at)
    && b !in r.states[i].db.bookings && !Taken(r.states[i].db.bookings, slot) && slot in r.states[i].db.slots
    && r.states[i + 1].db == r.states[i].db.(bookings := r.states[i].db.bookings[b := Booking(user, slot, Active, at)])
  }

  /** The call has made booking `b` by state `k`. */
  ghost predicate HasMade(r: Run, j: nat, k: nat, c: Id, user: Id, slot: Id, b: Id)
    requires |r.states| == |r.events| + 1
  {
    exists i: nat, at: Time :: Made(r, j, i, k, c, user, slot, b, at)
  }

  /** The key of the slot's own lane and day. */
  predicate OwnKey(db: Db, slot: Id, key: Key) {
    slot in db.slots && SlotKey(db.slots[slot]) == key
  }

  /** In the cached service, step `k` drops the slot's own key and nothing else, if the cache is reached. */
  predicate DropsKeyOf(cfg: Config, r: Run, k: nat, slot: Id)
    requires |r.states| == |r.events| + 1 && k < |r.events|
  {
    var s, e, t := r.states[k], r.events[k], r.states[k + 1];
    cfg.cached ==> slot in s.db.slots && e.Go? && t.cache == if e.choice.reached then s.cache - {SlotKey(s.db.slots[slot])} else s.cache
  }

  lemma SlotsStay(cfg: Config, r: Run, k: nat, next: nat, slot: Id, key: Key)
    requires IsRun(cfg, r) && k < |r.events| && next == k + 1 && OwnKey(r.states[k].db, slot, key)
    ensures OwnKey(r.states[next].db, slot, key)
  {
    RowsOnlyMoveForward(cfg, r, k, next);
  }

  /** How far a create call has come. */
  ghost predicate CreateSoFar(r: Run, j: nat, k: nat, c: Id, user: Id, slot: Id)
    requires |r.states| == |r.events| + 1 && k < |r.states| && c in r.states[k].sessions
  {
    match r.states[k].sessions[c].pc
    case CreateGet(u, x) => u == user && x == slot && NoWrites(r, j, k, c)
    case CreateInsert(u, x, _, since) => u == user && x == slot && NoWrites(r, j, k, c) && BeganAt(r, j, k, c, since)
    case CreateCommit(u, x, _, _, at) => u == user && x == slot && NoWrites(r, j, k, c) && BeganAt(r, j, k, c, at)
    case CreateInvalidate(key, b) => HasMade(r, j, k, c, user, slot, b) && OwnKey(r.states[k].db, slot, key)
    case _ => false
  }

  /** What a step of a create call does and says. */
  lemma CreateAct(cfg: Config, s: State, c: Id, ch: Choice, t: State)
    requires cfg.duration > 0 && BookingInv(s) && c in s.sessions && InCreate(s.sessions[c].pc) && StepGo(cfg, s, c, ch) == Some(t)
    ensures c in t.sessions
    ensures match s.sessions[c].pc
      case CreateGet(u, x) => t.db == s.db &&
        (if x !in s.db.slots then Tells(s, t, c, SlotMissing) else t.sessions[c].pc == CreateInsert(u, x, s.db.slots[x], s.now))
      case CreateInsert(u, x, row, since) => t.db == s.db &&
        (|| (t.sessions[c].pc.CreateCommit? && t.sessions[c].pc.user == u && t.sessions[c].pc.slot == x && t.sessions[c].pc.at == since)
         || (Tells(s, t, c, SlotTaken) && Taken(s.db.bookings, x))
         || (Tells(s, t, c, Failed) && u !in s.db.users))
      case CreateCommit(u, x, row, b, at) =>
        && b !in s.db.bookings && !Taken(s.db.bookings, x) && x in s.db.slots
        && t.db == s.db.(bookings := s.db.bookings[b := Booking(u, x, Active, at)])
        && s.db.slots[x] == row
        && (if cfg.cached then t.sessions[c].pc == CreateInvalidate(SlotKey(row), b) else Tells(s, t, c, BookingMade(b)))
      case CreateInvalidate(key, b) => t.db == s.db && Tells(s, t, c, BookingMade(b))
        && t.cache == if ch.reached then s.cache - {key} else s.cache
      case _ => false
  {
    assert SessionOk(s.db, s.sessions[c].pc);
  }

  /** What a failure does and says. */
  lemma FaultAct(s: State, c: Id, t: State)
    requires c in s.sessions && StepFault(s, c) == Some(t)
    ensures t.db == s.db && t.cache == s.cache
    ensures InCreate(s.sessions[c].pc) || InCancel(s.sessions[c].pc) || InSchedule(s.sessions[c].pc) ==> Tells(s, t, c, Failed)
    ensures s.sessions[c].pc.CreateInvalidate? || s.sessions[c].pc.CancelInvalidate? ==> false
    ensures InRead(s.sessions[c].pc) ==> Tells(s, t, c, ListingFailed)
  {
    FrameFault(s, c);
  }

  lemma BeganOn(r: Run, j: nat, k: nat, c: Id, at: Time)
    requires |r.states| == |r.events| + 1 && BeganAt(r, j, k, c, at)
    ensures BeganAt(r, j, k + 1, c, at)
  {
  }

  lemma MadeOn(r: Run, j: nat, i: nat, k: nat, c: Id, user: Id, slot: Id, b: Id, at: Time)
    requires |r.states| == |r.events| + 1 && k + 1 < |r.states| && Made(r, j, i, k, c, user, slot, b, at)
    requires ActsFor(r.events[k], c) ==> r.states[k + 1].db == r.states[k].db
    ensures Made(r, j, i, k + 1, c, user, slot, b, at)
  {
    NoWritesOn(r, i + 1, k, c);
  }

  /** A step of someone else. */
  lemma CreateWaits(cfg: Config, r: Run, j: nat, k: nat, c: Id, user: Id, slot: Id)
    requires IsRun(cfg, r) && k < |r.events| && c in r.states[k].sessions && CreateSoFar(r, j, k, c, user, slot)
    requires !ActsFor(r.events[k], c)
    ensures c in r.states[k + 1].sessions && CreateSoFar(r, j, k + 1, c, user, slot)
  {
    Untouched(cfg, r.states[k], r.events[k], r.states[k + 1], c);
    match r.states[k].sessions[c].pc
    case CreateGet(_, _) => NoWritesOn(r, j, k, c);
    case CreateInsert(_, _, _, since) => NoWritesOn(r, j, k, c); BeganOn(r, j, k, c, since);
    case CreateCommit(_, _, _, _, at) => NoWritesOn(r, j, k, c); BeganOn(r, j, k, c, at);
    case CreateInvalidate(key, b) =>
      var i: nat, at: Time :| Made(r, j, i, k, c, user, slot, b, at);
      MadeOn(r, j, i, k, c, user, slot, b, at);
      SlotsStay(cfg, r, k, k + 1, slot, key);
  }

  /** The commit. */
  lemma CreateCommits(cfg: Config, r: Run, j: nat, k: nat, c: Id, user: Id, slot: Id, ch: Choice)
    requires IsRun(cfg, r) && j < k < |r.events| && r.events[k] == Go(c, ch) && c in r.states[k].sessions
    requires r.states[k].sessions[c].pc.CreateCommit? && CreateSoFar(r, j, k, c, user, slot)
    ensures Made(r, j, k, k + 1, c, user, slot, r.states[k].sessions[c].pc.booking, r.states[k].sessions[c].pc.at)
  {
    RunInv(cfg, r, k);
    CreateAct(cfg, r.states[k], c, ch, r.states[k + 1]);
  }

  /** A step of the call itself that does not end it. */
  lemma CreateGoesOn(cfg: Config, r: Run, j: nat, k: nat, c: Id, user: Id, slot: Id, ch: Choice)
    requires IsRun(cfg, r) && j < k < |r.events| && r.events[k] == Go(c, ch) && c in r.states[k].sessions
    requires CreateSoFar(r, j, k, c, user, slot) && Busy(r.states[k + 1], c)
    ensures CreateSoFar(r, j, k + 1, c, user, slot)
  {
    RunInv(cfg, r, k);
    CreateAct(cfg, r.states[k], c, ch, r.states[k + 1]);
    match r.states[k].sessions[c].pc
    case CreateGet(_, _) =>
      NoWritesOn(r, j, k, c);
      assert BeginsAt(r, k, c, r.states[k].now);
    case CreateInsert(_, _, _, since) => NoWritesOn(r, j, k, c); BeganOn(r, j, k, c, since);
    case CreateCommit(_, _, _, b, at) => CreateCommits(cfg, r, j, k, c, user, slot, ch);
    case CreateInvalidate(_, _) =>
  }

  lemma CreateStays(cfg: Config, r: Run, j: nat, k: nat, next: nat, c: Id, user: Id, slot: Id)
    requires IsRun(cfg, r) && j < k < |r.events| && next == k + 1 && Busy(r.states[k], c) && Busy(r.states[next], c)
    requires CreateSoFar(r, j, k, c, user, slot)
    ensures CreateSoFar(r, j, next, c, user, slot)
  {
    var e := r.events[k];
    if !ActsFor(e, c) {
      CreateWaits(cfg, r, j, k, c, user, slot);
    } else {
      BusyActs(cfg, r.states[k], e, r.states[k + 1], c);
      if e.Fault? {
        FaultAct(r.states[k], c, r.states[k + 1]);
      } else {
        CreateGoesOn(cfg, r, j, k, c, user, slot, e.choice);
      }
    }
  }

  /** The call itself. */
  lemma CreateStarts(cfg: Config, r: Run, j: nat, c: Id, user: Id, slot: Id)
    requires IsRun(cfg, r) && j < |r.events| && r.events[j] == Call(c, CreateBooking(user, slot))
    ensures c in r.states[j + 1].sessions && CreateSoFar(r, j, j + 1, c, user, slot)
  {
    assert r.states[j + 1].db == r.states[j].db;
  }

  lemma {:induction false} CreateTracked(cfg: Config, r: Run, j: nat, k: nat, c: Id, user: Id, slot: Id)
    requires IsRun(cfg, r) && UnderWay(r, j, k, c, CreateBooking(user, slot))
    ensures c in r.states[k].sessions && CreateSoFar(r, j, k, c, user, slot)
    decreases k
  {
    if k == j + 1 {
      CreateStarts(cfg, r, j, c, user, slot);
    } else {
      var before: nat := k - 1;
      StillUnderWay(r, j, k, c, CreateBooking(user, slot));
      CreateTracked(cfg, r, j, before, c, user, slot);
      CreateStays(cfg, r, j, before, k, c, user, slot);
    }
  }

  /**
   Every answer to a create call. Told that booking `b` is made, the call has committed exactly that row,
   active and for its own user and slot, stamped with the beginning of its transaction, under a new id on
   a free slot, has changed nothing else, and with its last step drops the slot's own key. Otherwise it has changed nothing: the slot was absent, or had a
   committed active booking at that step, or the database failed, or the user was absent.
   */
  lemma CreateAnswered(cfg: Config, r: Run, j: nat, k: nat, c: Id, user: Id, slot: Id, a: Answer)
    requires IsRun(cfg, r) && Answered(r, j, k, c, CreateBooking(user, slot), a)
    ensures match a
      case BookingMade(b) => HasMade(r, j, k + 1, c, user, slot, b) && DropsKeyOf(cfg, r, k, slot)
      case SlotMissing => NoWrites(r, j, k + 1, c) && slot !in r.states[k].db.slots
      case SlotTaken => NoWrites(r, j, k + 1, c) && Taken(r.states[k].db.bookings, slot)
      case Failed => NoWrites(r, j, k + 1, c) && (r.events[k] == Fault(c) || user !in r.states[k].db.users)
      case _ => false
  {
    assert UnderWay(r, j, k, c, CreateBooking(user, slot));
    CreateTracked(cfg, r, j, k, c, user, slot);
    var s, t := r.states[k], r.states[k + 1];
    assert Busy(s, c) && t.sessions[c] != s.sessions[c];
    if !ActsFor(r.events[k], c) {
      Untouched(cfg, s, r.events[k], t, c);
    }
    BusyActs(cfg, s, r.events[k], t, c);
    if r.events[k].Fault? {
      FaultAct(s, c, t);
      SameAnswer(s, t, c, a, Failed);
      NoWritesOn(r, j, k, c);
    } else {
      CreateEnds(cfg, r, j, k, c, user, slot, r.events[k].choice, a);
    }
  }

  lemma SameAnswer(s: State, t: State, c: Id, a: Answer, b: Answer)
    requires Tells(s, t, c, a) && Tells(s, t, c, b)
    ensures a == b
  {
    assert (s.sessions[c].answers + [a])[|s.sessions[c].answers|] == a;
    assert (s.sessions[c].answers + [b])[|s.sessions[c].answers|] == b;
  }

  lemma CreateEnds(cfg: Config, r: Run, j: nat, k: nat, c: Id, user: Id, slot: Id, ch: Choice, a: Answer)
    requires IsRun(cfg, r) && j < k < |r.events| && r.events[k] == Go(c, ch) && c in r.states[k].sessions
    requires CreateSoFar(r, j, k, c, user, slot) && Tells(r.states[k], r.states[k + 1], c, a)
    ensures match a
      case BookingMade(b) => HasMade(r, j, k + 1, c, user, slot, b) && DropsKeyOf(cfg, r, k, slot)
      case SlotMissing => NoWrites(r, j, k + 1, c) && slot !in r.states[k].db.slots
      case SlotTaken => NoWrites(r, j, k + 1, c) && Taken(r.states[k].db.bookings, slot)
      case Failed => NoWrites(r, j, k + 1, c) && user !in r.states[k].db.users
      case _ => false
  {
    var s, t := r.states[k], r.states[k + 1];
    RunInv(cfg, r, k);
    CreateAct(cfg, s, c, ch, t);
    match s.sessions[c].pc
    case CreateGet(_, _) =>
      SameAnswer(s, t, c, a, SlotMissing);
      NoWritesOn(r, j, k, c);
    case CreateInsert(_, _, _, _) =>
      if Tells(s, t, c, SlotTaken) && Taken(s.db.bookings, slot) {
        SameAnswer(s, t, c, a, SlotTaken);
      } else {
        SameAnswer(s, t, c, a, Failed);
      }
      NoWritesOn(r, j, k, c);
    case CreateCommit(_, _, _, b, at) =>
      SameAnswer(s, t, c, a, BookingMade(b));
      CreateCommits(cfg, r, j, k, c, user, slot, ch);
    case CreateInvalidate(_, b) =>
      SameAnswer(s, t, c, a, BookingMade(b));
      var i: nat, at: Time :| Made(r, j, i, k, c, user, slot, b, at);
      MadeOn(r, j, i, k, c, user, slot, b, at);
  }

  // ---- Cancel ----

  /** At step `i` the call commits the cancellation of `booking`, a row of `user`, its only change to the tables up to state `k`. */
  ghost predicate Ended(r: Run, j: nat, i: nat, k: nat, c: Id, user: Id, booking: Id)
    requires |r.states| == |r.events| + 1
  {
    && j < i < k < |r.states| && r.events[i].Go? && r.events[i].client == c
    && NoWrites(r, j, i, c) && NoWrites(r, i + 1, k, c)
    && var db := r.states[i].db;
       && booking in db.bookings && db.bookings[booking].user == user
       && r.states[i + 1].db == db.(bookings := db.bookings[booking := db.bookings[booking].(status := Cancelled)])
  }

  ghost predicate HasEnded(r: Run, j: nat, k: nat, c: Id, user: Id, booking: Id)
    requires |r.states| == |r.events| + 1
  {
    exists i: nat :: Ended(r, j, i, k, c, user, booking)
  }

  /** How far a cancel call has come. */
  ghost predicate CancelSoFar(r: Run, j: nat, k: nat, c: Id, user: Id, booking: Id)
    requires |r.states| == |r.events| + 1 && k < |r.states| && c in r.states[k].sessions
  {
    match r.states[k].sessions[c].pc
    case CancelGet(u, b) => u == user && b == booking && NoWrites(r, j, k, c)
    case CancelSlot(u, b, _) => u == user && b == booking && NoWrites(r, j, k, c)
    case CancelUpdate(u, b, _) => u == user && b == booking && NoWrites(r, j, k, c)
    case CancelCommit(u, b, _) => u == user && b == booking && NoWrites(r, j, k, c)
    case CancelInvalidate(key, b) => b == booking && HasEnded(r, j, k, c, user, booking)
      && booking in r.states[k].db.bookings && OwnKey(r.states[k].db, r.states[k].db.bookings[booking].slot, key)
    case _ => false
  }

  /** What a step of a cancel call does and says. */
  lemma CancelAct(cfg: Config, s: State, c: Id, ch: Choice, t: State)
    requires cfg.duration > 0 && BookingInv(s) && c in s.sessions && InCancel(s.sessions[c].pc) && StepGo(cfg, s, c, ch) == Some(t)
    ensures c in t.sessions
    ensures match s.sessions[c].pc
      case CancelGet(u, b) => t.db == s.db &&
        (if b !in s.db.bookings then Tells(s, t, c, BookingMissing)
         else if s.db.bookings[b].user != u then Tells(s, t, c, NotOwner)
         else if s.db.bookings[b].status.Cancelled? then Tells(s, t, c, BookingCancelled(b))
         else t.sessions[c].pc == CancelSlot(u, b, s.db.bookings[b].slot))
      case CancelSlot(u, b, _) => t.db == s.db && t.sessions[c].pc.CancelUpdate? && t.sessions[c].pc.user == u && t.sessions[c].pc.booking == b
      case CancelUpdate(u, b, row) => t.db == s.db && t.sessions[c].pc == CancelCommit(u, b, row)
      case CancelCommit(u, b, row) =>
        && b in s.db.bookings && s.db.bookings[b].user == u
        && t.db == s.db.(bookings := s.db.bookings[b := s.db.bookings[b].(status := Cancelled)])
        && OwnKey(s.db, s.db.bookings[b].slot, SlotKey(row))
        && (if cfg.cached then t.sessions[c].pc == CancelInvalidate(SlotKey(row), b) else Tells(s, t, c, BookingCancelled(b)))
      case CancelInvalidate(key, b) => t.db == s.db && Tells(s, t, c, BookingCancelled(b))
        && t.cache == if ch.reached then s.cache - {key} else s.cache
      case _ => false
  {
    assert SessionOk(s.db, s.sessions[c].pc);
  }

  lemma EndedOn(r: Run, j: nat, i: nat, k: nat, c: Id, user: Id, booking: Id)
    requires |r.states| == |r.events| + 1 && k + 1 < |r.states| && Ended(r, j, i, k, c, user, booking)
    requires ActsFor(r.events[k], c) ==> r.states[k + 1].db == r.states[k].db
    ensures Ended(r, j, i, k + 1, c, user, booking)
  {
    NoWritesOn(r, i + 1, k, c);
  }

  lemma CancelWaits(cfg: Config, r: Run, j: nat, k: nat, c: Id, user: Id, booking: Id)
    requires IsRun(cfg, r) && k < |r.events| && c in r.states[k].sessions && CancelSoFar(r, j, k, c, user, booking)
    requires !ActsFor(r.events[k], c)
    ensures c in r.states[k + 1].sessions && CancelSoFar(r, j, k + 1, c, user, booking)
  {
    Untouched(cfg, r.states[k], r.events[k], r.states[k + 1], c);
    if r.states[k].sessions[c].pc.CancelInvalidate? {
      var i: nat :| Ended(r, j, i, k, c, user, booking);
      EndedOn(r, j, i, k, c, user, booking);
      RowsOnlyMoveForward(cfg, r, k, k + 1);
      SlotsStay(cfg, r, k, k + 1, r.states[k].db.bookings[booking].slot, r.states[k].sessions[c].pc.key);
    } else {
      NoWritesOn(r, j, k, c);
    }
  }

  /** The commit. */
  lemma CancelCommits(cfg: Config, r: Run, j: nat, k: nat, c: Id, user: Id, booking: Id, ch: Choice)
    requires IsRun(cfg, r) && j < k < |r.events| && r.events[k] == Go(c, ch) && c in r.states[k].sessions
    requires r.states[k].sessions[c].pc.CancelCommit? && CancelSoFar(r, j, k, c, user, booking)
    ensures Ended(r, j, k, k + 1, c, user, booking)
  {
    RunInv(cfg, r, k);
    CancelAct(cfg, r.states[k], c, ch, r.states[k + 1]);
  }

  lemma CancelGoesOn(cfg: Config, r: Run, j: nat, k: nat, c: Id, user: Id, booking: Id, ch: Choice)
    requires IsRun(cfg, r) && j < k < |r.events| && r.events[k] == Go(c, ch) && c in r.states[k].sessions
    requires CancelSoFar(r, j, k, c, user, booking) && Busy(r.states[k + 1], c)
    ensures CancelSoFar(r, j, k + 1, c, user, booking)
  {
    RunInv(cfg, r, k);
    CancelAct(cfg, r.states[k], c, ch, r.states[k + 1]);
    if r.states[k].sessions[c].pc.CancelCommit? {
      CancelCommits(cfg, r, j, k, c, user, booking, ch);
    } else {
      NoWritesOn(r, j, k, c);
    }
  }

  lemma CancelStays(cfg: Config, r: Run, j: nat, k: nat, next: nat, c: Id, user: Id, booking: Id)
    requires IsRun(cfg, r) && j < k < |r.events| && next == k + 1 && Busy(r.states[k], c) && Busy(r.states[next], c)
    requires CancelSoFar(r, j, k, c, user, booking)
    ensures CancelSoFar(r, j, next, c, user, booking)
  {
    var e := r.events[k];
    if !ActsFor(e, c) {
      CancelWaits(cfg, r, j, k, c, user, booking);
    } else {
      BusyActs(cfg, r.states[k], e, r.states[next], c);
      if e.Fault? {
        FaultAct(r.states[k], c, r.states[next]);
      } else {
        CancelGoesOn(cfg, r, j, k, c, user, booking, e.choice);
      }
    }
  }

  lemma CancelStarts(cfg: Config, r: Run, j: nat, c: Id, user: Id, booking: Id)
    requires IsRun(cfg, r) && j < |r.events| && r.events[j] == Call(c, CancelBookingOf(user, booking))
    ensures c in r.states[j + 1].sessions && CancelSoFar(r, j, j + 1, c, user, booking)
  {
    assert r.states[j + 1].db == r.states[j].db;
  }

  lemma {:induction false} CancelTracked(cfg: Config, r: Run, j: nat, k: nat, c: Id, user: Id, booking: Id)
    requires IsRun(cfg, r) && UnderWay(r, j, k, c, CancelBookingOf(user, booking))
    ensures c in r.states[k].sessions && CancelSoFar(r, j, k, c, user, booking)
    decreases k
  {
    if k == j + 1 {
      CancelStarts(cfg, r, j, c, user, booking);
    } else {
      var before: nat := k - 1;
      StillUnderWay(r, j, k, c, CancelBookingOf(user, booking));
      CancelTracked(cfg, r, j, before, c, user, booking);
      CancelStays(cfg, r, j, before, k, c, user, booking);
    }
  }

  /** The same for the slot of a booking. */
  predicate DropsBookedKey(cfg: Config, r: Run, k: nat, booking: Id)
    requires |r.states| == |r.events| + 1 && k < |r.events|
  {
    booking in r.states[k].db.bookings && DropsKeyOf(cfg, r, k, r.states[k].db.bookings[booking].slot)
  }

  /** The booking is the user's and cancelled. */
  predicate IsCancelled(db: Db, user: Id, booking: Id) {
    booking in db.bookings && db.bookings[booking].user == user && db.bookings[booking].status.Cancelled?
  }

  /**
   Every answer to a cancel call. Told that its booking is cancelled, it is, in the tables, when the answer
   is given: the call has committed that and nothing else, and with its last step drops the slot's own key,
   or has found it so and changed nothing.
   Otherwise it has changed nothing: the booking was absent or another user's at that step, or the
   database failed.
   */
  lemma CancelAnswered(cfg: Config, r: Run, j: nat, k: nat, c: Id, user: Id, booking: Id, a: Answer)
    requires IsRun(cfg, r) && Answered(r, j, k, c, CancelBookingOf(user, booking), a)
    ensures match a
      case BookingCancelled(b) => b == booking && IsCancelled(r.states[k + 1].db, user, booking)
        && (NoWrites(r, j, k + 1, c) || (HasEnded(r, j, k + 1, c, user, booking) && DropsBookedKey(cfg, r, k, booking)))
      case BookingMissing => NoWrites(r, j, k + 1, c) && booking !in r.states[k].db.bookings
      case NotOwner => NoWrites(r, j, k + 1, c) && booking in r.states[k].db.bookings && r.states[k].db.bookings[booking].user != user
      case Failed => NoWrites(r, j, k + 1, c) && r.events[k] == Fault(c)
      case _ => false
  {
    assert UnderWay(r, j, k, c, CancelBookingOf(user, booking));
    CancelTracked(cfg, r, j, k, c, user, booking);
    var s, t := r.states[k], r.states[k + 1];
    assert Busy(s, c) && t.sessions[c] != s.sessions[c];
    if !ActsFor(r.events[k], c) {
      Untouched(cfg, s, r.events[k], t, c);
    }
    BusyActs(cfg, s, r.events[k], t, c);
    if r.events[k].Fault? {
      FaultAct(s, c, t);
      SameAnswer(s, t, c, a, Failed);
      NoWritesOn(r, j, k, c);
    } else {
      CancelEnds(cfg, r, j, k, c, user, booking, r.events[k].choice, a);
    }
  }

  lemma CancelEnds(cfg: Config, r: Run, j: nat, k: nat, c: Id, user: Id, booking: Id, ch: Choice, a: Answer)
    requires IsRun(cfg, r) && j < k < |r.events| && r.events[k] == Go(c, ch) && c in r.states[k].sessions
    requires CancelSoFar(r, j, k, c, user, booking) && Tells(r.states[k], r.states[k + 1], c, a)
    ensures match a
      case BookingCancelled(b) => b == booking && IsCancelled(r.states[k + 1].db, user, booking)
        && (NoWrites(r, j, k + 1, c) || (HasEnded(r, j, k + 1, c, user, booking) && DropsBookedKey(cfg, r, k, booking)))
      case BookingMissing => NoWrites(r, j, k + 1, c) && booking !in r.states[k].db.bookings
      case NotOwner => NoWrites(r, j, k + 1, c) && booking in r.states[k].db.bookings && r.states[k].db.bookings[booking].user != user
      case _ => false
  {
    var s, t := r.states[k], r.states[k + 1];
    RunInv(cfg, r, k);
    CancelAct(cfg, s, c, ch, t);
    match s.sessions[c].pc
    case CancelGet(_, _) =>
      NoWritesOn(r, j, k, c);
      SameAnswer(s, t, c, a, if booking !in s.db.bookings then BookingMissing
                             else if s.db.bookings[booking].user != user then NotOwner else BookingCancelled(booking));
    case CancelCommit(_, _, _) =>
      SameAnswer(s, t, c, a, BookingCancelled(booking));
      CancelCommits(cfg, r, j, k, c, user, booking, ch);
    case CancelInvalidate(_, _) =>
      SameAnswer(s, t, c, a, BookingCancelled(booking));
      var i: nat :| Ended(r, j, i, k, c, user, booking);
      EndedOn(r, j, i, k, c, user, booking);
      StaysCancelled(cfg, r, i + 1, k + 1, user, booking);
  }

  lemma StaysCancelled(cfg: Config, r: Run, i: nat, k: nat, user: Id, booking: Id)
    requires IsRun(cfg, r) && i <= k < |r.states| && IsCancelled(r.states[i].db, user, booking)
    ensures IsCancelled(r.states[k].db, user, booking)
  {
    RowsOnlyMoveForward(cfg, r, i, k);
    assert Forward(r.states[i].db.bookings[booking], r.states[k].db.bookings[booking]);
  }

  /**
   An owner's cancel of an existing booking, unless the database fails, is answered with that booking,
   and it is cancelled by then, however many others cancel it at the same time.
   */
  lemma OwnersCancelSucceeds(cfg: Config, r: Run, j: nat, k: nat, c: Id, user: Id, booking: Id, a: Answer)
    requires IsRun(cfg, r) && Answered(r, j, k, c, CancelBookingOf(user, booking), a) && r.events[k] != Fault(c)
    requires booking in r.states[j].db.bookings && r.states[j].db.bookings[booking].user == user
    ensures a == BookingCancelled(booking) && IsCancelled(r.states[k + 1].db, user, booking)
  {
    CancelAnswered(cfg, r, j, k, c, user, booking, a);
    RowsOnlyMoveForward(cfg, r, j, k);
    assert Forward(r.states[j].db.bookings[booking], r.states[k].db.bookings[booking]);
  }

  // ---- Read ----

  /** How far an availability call has come: it never writes, and what it carries it has queried itself. */
  ghost predicate ReadSoFar(r: Run, j: nat, k: nat, c: Id, key: Key)
    requires |r.states| == |r.events| + 1 && k < |r.states| && c in r.states[k].sessions
  {
    && InRead(r.states[k].sessions[c].pc) && r.states[k].sessions[c].pc.key == key && NoWrites(r, j, k, c)
    && (r.states[k].sessions[c].pc.ReadQuery? || r.states[k].sessions[c].pc.ReadFill? ==> key.lane in r.states[k].db.lanes)
    && (r.states[k].sessions[c].pc.ReadFill? ==> HasQueried(r, j, k, c, key, r.states[k].sessions[c].pc.rows))
  }

  /** Since its call the client has queried, with these rows. */
  ghost predicate HasQueried(r: Run, j: nat, k: nat, c: Id, key: Key, rows: seq<SlotRow>)
    requires |r.states| == |r.events| + 1
  {
    exists i: nat :: j < i < k && Staleness.Queries(r, i, c, key, rows)
  }

  /** At step `k` the cache is reached and holds these rows. */
  predicate FoundAt(r: Run, k: nat, key: Key, rows: seq<SlotRow>) {
    k < |r.events| && k < |r.states| && r.events[k].Go? && r.events[k].choice.reached
    && Lookup(r.states[k].cache, key, r.states[k].now) == Some(rows)
  }

  lemma HasQueriedOn(r: Run, j: nat, k: nat, next: nat, c: Id, key: Key, rows: seq<SlotRow>)
    requires |r.states| == |r.events| + 1 && next == k + 1 && HasQueried(r, j, k, c, key, rows)
    ensures HasQueried(r, j, next, c, key, rows)
  {
  }

  /** What a step of an availability call says. */
  lemma ReadAct(cfg: Config, s: State, c: Id, ch: Choice, t: State)
    requires cfg.duration > 0 && c in s.sessions && InRead(s.sessions[c].pc) && StepGo(cfg, s, c, ch) == Some(t)
    ensures c in t.sessions && t.db == s.db
    ensures match s.sessions[c].pc
      case ReadCache(key) =>
        || (ch.reached && Lookup(s.cache, key, s.now).Some? && Tells(s, t, c, Listing(Lookup(s.cache, key, s.now).value, true)))
        || ((Lookup(s.cache, key, s.now).None? || !ch.reached) && t.sessions[c].pc == ReadLane(key))
      case ReadLane(key) => if key.lane !in s.db.lanes then Tells(s, t, c, ListingNoLane) else t.sessions[c].pc == ReadQuery(key)
      case ReadQuery(key) =>
        var rows := Available(s.db, key.lane, key.day);
        t.sessions[c].pc == ReadFill(key, rows) || Tells(s, t, c, Listing(rows, false))
      case ReadFill(key, rows) => Tells(s, t, c, Listing(rows, false))
      case _ => false
  {
  }

  lemma ReadStays(cfg: Config, r: Run, j: nat, k: nat, next: nat, c: Id, key: Key)
    requires IsRun(cfg, r) && j < k < |r.events| && next == k + 1 && Busy(r.states[k], c) && Busy(r.states[next], c)
    requires ReadSoFar(r, j, k, c, key)
    ensures ReadSoFar(r, j, next, c, key)
  {
    var e := r.events[k];
    RowsOnlyMoveForward(cfg, r, k, next);
    if !ActsFor(e, c) {
      Untouched(cfg, r.states[k], e, r.states[next], c);
      NoWritesOn(r, j, k, c);
    } else {
      BusyActs(cfg, r.states[k], e, r.states[next], c);
      if e.Fault? {
        FaultAct(r.states[k], c, r.states[next]);
      } else {
        ReadAct(cfg, r.states[k], c, e.choice, r.states[next]);
        NoWritesOn(r, j, k, c);
        if r.states[next].sessions[c].pc.ReadFill? {
          assert Staleness.Queries(r, k, c, key, r.states[next].sessions[c].pc.rows);
        }
      }
    }
  }

  lemma ReadStarts(cfg: Config, r: Run, j: nat, c: Id, key: Key)
    requires IsRun(cfg, r) && j < |r.events| && r.events[j] == Call(c, ListSlots(key))
    ensures c in r.states[j + 1].sessions && ReadSoFar(r, j, j + 1, c, key)
  {
    assert r.states[j + 1].db == r.states[j].db;
  }

  lemma {:induction false} ReadTracked(cfg: Config, r: Run, j: nat, k: nat, c: Id, key: Key)
    requires IsRun(cfg, r) && UnderWay(r, j, k, c, ListSlots(key))
    ensures c in r.states[k].sessions && ReadSoFar(r, j, k, c, key)
    decreases k
  {
    if k == j + 1 {
      ReadStarts(cfg, r, j, c, key);
    } else {
      var before: nat := k - 1;
      StillUnderWay(r, j, k, c, ListSlots(key));
      ReadTracked(cfg, r, j, before, c, key);
      ReadStays(cfg, r, j, before, k, c, key);
    }
  }

  /**
   Every answer to an availability call, which never changes the tables: a hit is what the cache held at
   that step, any other listing is the call's own query on an existing lane, the lane is reported missing
   only when it is, and the rest are failures of the database.
   */
  lemma ReadAnswered(cfg: Config, r: Run, j: nat, k: nat, c: Id, key: Key, a: Answer)
    requires IsRun(cfg, r) && Answered(r, j, k, c, ListSlots(key), a)
    ensures NoWrites(r, j, k + 1, c)
    ensures match a
      case Listing(rows, hit) =>
        if hit then FoundAt(r, k, key, rows)
        else HasQueried(r, j, k + 1, c, key, rows) && key.lane in r.states[k].db.lanes
      case ListingNoLane => key.lane !in r.states[k].db.lanes
      case ListingFailed => r.events[k] == Fault(c)
      case _ => false
  {
    assert UnderWay(r, j, k, c, ListSlots(key));
    ReadTracked(cfg, r, j, k, c, key);
    var s, t := r.states[k], r.states[k + 1];
    assert Busy(s, c) && t.sessions[c] != s.sessions[c];
    if !ActsFor(r.events[k], c) {
      Untouched(cfg, s, r.events[k], t, c);
    }
    BusyActs(cfg, s, r.events[k], t, c);
    if r.events[k].Fault? {
      FaultAct(s, c, t);
      SameAnswer(s, t, c, a, ListingFailed);
      NoWritesOn(r, j, k, c);
    } else {
      ReadEnds(cfg, r, j, k, c, key, r.events[k].choice, a);
    }
  }

  lemma QueriedNow(r: Run, j: nat, k: nat, next: nat, c: Id, key: Key)
    requires |r.states| == |r.events| + 1 && j < k < |r.events| && next == k + 1 && c in r.states[k].sessions
    requires r.events[k].Go? && r.events[k].client == c && r.states[k].sessions[c].pc == ReadQuery(key)
    ensures HasQueried(r, j, next, c, key, Available(r.states[k].db, key.lane, key.day))
  {
    assert Staleness.Queries(r, k, c, key, Available(r.states[k].db, key.lane, key.day));
  }

  lemma ReadEnds(cfg: Config, r: Run, j: nat, k: nat, c: Id, key: Key, ch: Choice, a: Answer)
    requires IsRun(cfg, r) && j < k < |r.events| && r.events[k] == Go(c, ch) && c in r.states[k].sessions
    requires ReadSoFar(r, j, k, c, key) && Tells(r.states[k], r.states[k + 1], c, a)
    ensures NoWrites(r, j, k + 1, c)
    ensures match a
      case Listing(rows, hit) =>
        if hit then FoundAt(r, k, key, rows)
        else HasQueried(r, j, k + 1, c, key, rows) && key.lane in r.states[k].db.lanes
      case ListingNoLane => key.lane !in r.states[k].db.lanes
      case _ => false
  {
    var s, t, next := r.states[k], r.states[k + 1], k + 1;
    ReadAct(cfg, s, c, ch, t);
    NoWritesOn(r, j, k, c);
    match s.sessions[c].pc
    case ReadCache(_) => SameAnswer(s, t, c, a, Listing(Lookup(s.cache, key, s.now).value, true));
    case ReadLane(_) => SameAnswer(s, t, c, a, ListingNoLane);
    case ReadQuery(_) =>
      SameAnswer(s, t, c, a, Listing(Available(s.db, key.lane, key.day), false));
      QueriedNow(r, j, k, next, c, key);
    case ReadFill(_, rows) =>
      SameAnswer(s, t, c, a, Listing(rows, false));
      HasQueriedOn(r, j, k, next, c, key, rows);
  }

  // ---- CreateSchedule ----

  /** Since its call the client's clock has read this instant. */
  ghost predicate ClockRead(r: Run, j: nat, k: nat, c: Id, at: Time)
    requires |r.states| == |r.events| + 1
  {
    exists g: nat :: j < g < k && ReadsClock(r, g, c, at)
  }

  predicate ReadsClock(r: Run, g: nat, c: Id, at: Time) {
    g < |r.events| && g < |r.states| && r.events[g].Go? && r.events[g].client == c
    && c in r.states[g].sessions && r.states[g].sessions[c].pc.ScheduleBuild? && r.states[g].now == at
  }

  lemma ClockReadOn(r: Run, j: nat, k: nat, next: nat, c: Id, at: Time)
    requires |r.states| == |r.events| + 1 && next == k + 1 && ClockRead(r, j, k, c, at)
    ensures ClockRead(r, j, next, c, at)
  {
  }

  /** How far a schedule call has come. */
  ghost predicate ScheduleSoFar(r: Run, j: nat, k: nat, c: Id, req: ScheduleRequest)
    requires |r.states| == |r.events| + 1 && k < |r.states| && c in r.states[k].sessions
  {
    var pc := r.states[k].sessions[c].pc;
    && InSchedule(pc) && pc.req == req && ValidDays(req.days) && NoWrites(r, j, k, c)
    && (if pc.ScheduleCheck? then FirstStep(r, j, k, c) else req.lane in r.states[k].db.lanes && !FirstStep(r, j, k, c))
    && (pc.ScheduleCommit? ==> ClockRead(r, j, k, c, pc.at))
  }

  /** What a step of a schedule call does and says. */
  lemma ScheduleAct(cfg: Config, s: State, c: Id, ch: Choice, t: State)
    requires cfg.duration > 0 && ScheduleInv(cfg, s) && c in s.sessions && InSchedule(s.sessions[c].pc) && StepGo(cfg, s, c, ch) == Some(t)
    ensures c in t.sessions
    ensures match s.sessions[c].pc
      case ScheduleCheck(req) => t.db == s.db &&
        (if req.lane !in s.db.lanes then Tells(s, t, c, NoLane)
         else if req.lane in s.db.schedules then Tells(s, t, c, ScheduleExists)
         else t.sessions[c].pc == ScheduleInsert(req))
      case ScheduleInsert(req) => t.db == s.db &&
        (t.sessions[c].pc == ScheduleBuild(req)
         || (Tells(s, t, c, Failed) && (!InOrder(req) || req.lane in s.db.schedules || req.lane !in s.db.lanes)))
      case ScheduleBuild(req) => t.db == s.db &&
        (if InitialSlots(req, s.now, cfg.window, cfg.duration) == [] then Tells(s, t, c, Failed)
         else t.sessions[c].pc == ScheduleCommit(req, s.now))
      case ScheduleCommit(req, at) =>
        && InOrder(req) && req.lane !in s.db.schedules && Tells(s, t, c, ScheduleMade)
        && t.db == s.db.(schedules := s.db.schedules[req.lane := StoredSchedule(req)], slots := t.db.slots)
        && Windows.Adds(s.db.slots, t.db.slots, InitialSlots(req, at, cfg.window, cfg.duration))
      case _ => false
  {
    assert PcOk(cfg, s.db, s.sessions[c].pc, s.now);
    if s.sessions[c].pc.ScheduleCommit? {
      CommitStep(cfg, s, c, ch, t);
    }
  }

  lemma ScheduleWaits(cfg: Config, r: Run, j: nat, k: nat, next: nat, c: Id, req: ScheduleRequest)
    requires IsRun(cfg, r) && j < k < |r.events| && next == k + 1 && Busy(r.states[k], c) && !ActsFor(r.events[k], c)
    requires ScheduleSoFar(r, j, k, c, req)
    ensures c in r.states[next].sessions && ScheduleSoFar(r, j, next, c, req)
  {
    RowsOnlyMoveForward(cfg, r, k, next);
    Untouched(cfg, r.states[k], r.events[k], r.states[next], c);
    NoWritesOn(r, j, k, c);
    FirstStepOn(r, j, k, next, c);
    if r.states[k].sessions[c].pc.ScheduleCommit? {
      ClockReadOn(r, j, k, next, c, r.states[k].sessions[c].pc.at);
    }
  }

  lemma FirstStepOn(r: Run, j: nat, k: nat, next: nat, c: Id)
    requires j < k < |r.events| && next == k + 1
    ensures FirstStep(r, j, next, c) <==> FirstStep(r, j, k, c) && !ActsFor(r.events[k], c)
  {
  }

  lemma ScheduleGoesOn(cfg: Config, r: Run, j: nat, k: nat, next: nat, c: Id, req: ScheduleRequest, ch: Choice)
    requires IsRun(cfg, r) && j < k < |r.events| && next == k + 1 && r.events[k] == Go(c, ch)
    requires Busy(r.states[k], c) && Busy(r.states[next], c) && ScheduleSoFar(r, j, k, c, req)
    ensures ScheduleSoFar(r, j, next, c, req)
  {
    RunScheduleInv(cfg, r, k);
    ScheduleAct(cfg, r.states[k], c, ch, r.states[next]);
    NoWritesOn(r, j, k, c);
    FirstStepOn(r, j, k, next, c);
    if r.states[k].sessions[c].pc.ScheduleBuild? {
      assert ReadsClock(r, k, c, r.states[k].now);
    }
  }

  lemma ScheduleStays(cfg: Config, r: Run, j: nat, k: nat, next: nat, c: Id, req: ScheduleRequest)
    requires IsRun(cfg, r) && j < k < |r.events| && next == k + 1 && Busy(r.states[k], c) && Busy(r.states[next], c)
    requires ScheduleSoFar(r, j, k, c, req)
    ensures ScheduleSoFar(r, j, next, c, req)
  {
    var e := r.events[k];
    if !ActsFor(e, c) {
      ScheduleWaits(cfg, r, j, k, next, c, req);
    } else {
      BusyActs(cfg, r.states[k], e, r.states[next], c);
      if e.Fault? {
        FaultAct(r.states[k], c, r.states[next]);
      } else {
        ScheduleGoesOn(cfg, r, j, k, next, c, req, e.choice);
      }
    }
  }

  lemma ScheduleStarts(cfg: Config, r: Run, j: nat, c: Id, req: ScheduleRequest)
    requires IsRun(cfg, r) && j < |r.events| && r.events[j] == Call(c, MakeSchedule(req)) && Busy(r.states[j + 1], c)
    ensures ScheduleSoFar(r, j, j + 1, c, req)
  {
    assert r.states[j + 1].db == r.states[j].db;
  }

  lemma {:induction false} ScheduleTracked(cfg: Config, r: Run, j: nat, k: nat, c: Id, req: ScheduleRequest)
    requires IsRun(cfg, r) && UnderWay(r, j, k, c, MakeSchedule(req))
    ensures c in r.states[k].sessions && ScheduleSoFar(r, j, k, c, req)
    decreases k
  {
    if k == j + 1 {
      ScheduleStarts(cfg, r, j, c, req);
    } else {
      var before: nat := k - 1;
      StillUnderWay(r, j, k, c, MakeSchedule(req));
      ScheduleTracked(cfg, r, j, before, c, req);
      ScheduleStays(cfg, r, j, before, k, c, req);
    }
  }

  /** At step `k` the schedule and exactly its first window, for an instant the call has read, are stored. */
  ghost predicate Stores(cfg: Config, r: Run, j: nat, k: nat, c: Id, req: ScheduleRequest, at: Time)
    requires cfg.duration > 0 && |r.states| == |r.events| + 1 && k + 1 < |r.states|
  {
    var s, t := r.states[k].db, r.states[k + 1].db;
    && InOrder(req) && req.lane !in s.schedules && ClockRead(r, j, k, c, at)
    && t == s.(schedules := s.schedules[req.lane := StoredSchedule(req)], slots := t.slots)
    && Windows.Adds(s.slots, t.slots, InitialSlots(req, at, cfg.window, cfg.duration))
  }

  /**
   Every answer to a schedule call. Told that it is made, the answering step has stored the schedule and
   exactly its first window, and no earlier step of the call has changed anything. Otherwise the call
   has changed nothing: the days were invalid, the lane was missing, it had a schedule already at the
   call's first step or got one later from another call, the table took the times for none, the window
   held no slot, or the database failed.
   */
  lemma ScheduleAnswered(cfg: Config, r: Run, j: nat, k: nat, c: Id, req: ScheduleRequest, a: Answer)
    requires IsRun(cfg, r) && Answered(r, j, k, c, MakeSchedule(req), a)
    ensures a == RequestInvalid <==> !ValidDays(req.days)
    ensures match a
      case ScheduleMade => NoWrites(r, j, k, c) && exists at: Time :: Stores(cfg, r, j, k, c, req, at)
      case RequestInvalid => NoWrites(r, j, k + 1, c)
      case NoLane => NoWrites(r, j, k + 1, c) && req.lane !in r.states[k].db.lanes
      case ScheduleExists => NoWrites(r, j, k + 1, c) && req.lane in r.states[k].db.schedules && FirstStep(r, j, k, c)
      case Failed => NoWrites(r, j, k + 1, c)
        && (r.events[k] == Fault(c) || !InOrder(req) || (req.lane in r.states[k].db.schedules && !FirstStep(r, j, k, c))
            || InitialSlots(req, r.states[k].now, cfg.window, cfg.duration) == [])
      case _ => false
  {
    var s, t := r.states[k], r.states[k + 1];
    if j == k {
      ScheduleTurnedAway(cfg, r, j, c, req, a);
    } else {
      ScheduleTracked(cfg, r, j, k, c, req);
      assert Busy(s, c) && t.sessions[c] != s.sessions[c];
      if !ActsFor(r.events[k], c) {
        Untouched(cfg, s, r.events[k], t, c);
      }
      BusyActs(cfg, s, r.events[k], t, c);
      if r.events[k].Fault? {
        FaultAct(s, c, t);
        SameAnswer(s, t, c, a, Failed);
        NoWritesOn(r, j, k, c);
      } else {
        ScheduleEnds(cfg, r, j, k, c, req, r.events[k].choice, a);
      }
    }
  }

  /** An answer at the very call. */
  lemma ScheduleTurnedAway(cfg: Config, r: Run, j: nat, c: Id, req: ScheduleRequest, a: Answer)
    requires IsRun(cfg, r) && j < |r.events| && r.events[j] == Call(c, MakeSchedule(req)) && Tells(r.states[j], r.states[j + 1], c, a)
    ensures a == RequestInvalid && !ValidDays(req.days) && NoWrites(r, j, j + 1, c)
  {
    assert r.states[j + 1].db == r.states[j].db;
    if !ValidDays(req.days) {
      SameAnswer(r.states[j], r.states[j + 1], c, a, RequestInvalid);
    }
  }

  lemma ScheduleEnds(cfg: Config, r: Run, j: nat, k: nat, c: Id, req: ScheduleRequest, ch: Choice, a: Answer)
    requires IsRun(cfg, r) && j < k < |r.events| && r.events[k] == Go(c, ch) && c in r.states[k].sessions
    requires ScheduleSoFar(r, j, k, c, req) && Tells(r.states[k], r.states[k + 1], c, a)
    ensures match a
      case ScheduleMade => NoWrites(r, j, k, c) && exists at: Time :: Stores(cfg, r, j, k, c, req, at)
      case NoLane => NoWrites(r, j, k + 1, c) && req.lane !in r.states[k].db.lanes
      case ScheduleExists => NoWrites(r, j, k + 1, c) && req.lane in r.states[k].db.schedules && FirstStep(r, j, k, c)
      case Failed => NoWrites(r, j, k + 1, c)
        && (!InOrder(req) || (req.lane in r.states[k].db.schedules && !FirstStep(r, j, k, c))
            || InitialSlots(req, r.states[k].now, cfg.window, cfg.duration) == [])
      case _ => false
  {
    var s, t := r.states[k], r.states[k + 1];
    RunScheduleInv(cfg, r, k);
    ScheduleAct(cfg, s, c, ch, t);
    match s.sessions[c].pc
    case ScheduleCheck(_) =>
      SameAnswer(s, t, c, a, if req.lane !in s.db.lanes then NoLane else ScheduleExists);
      NoWritesOn(r, j, k, c);
    case ScheduleInsert(_) =>
      SameAnswer(s, t, c, a, Failed);
      NoWritesOn(r, j, k, c);
    case ScheduleBuild(_) =>
      SameAnswer(s, t, c, a, Failed);
      NoWritesOn(r, j, k, c);
    case ScheduleCommit(_, at) =>
      SameAnswer(s, t, c, a, ScheduleMade);
      assert Stores(cfg, r, j, k, c, req, at);
  }

  // ---- GenerateAll ----

  lemma PassStays(cfg: Config, r: Run, k: nat, next: nat, c: Id)
    requires IsRun(cfg, r) && k < |r.events| && next == k + 1 && Busy(r.states[k], c) && Busy(r.states[next], c)
    requires Passes.InPass(r.states[k].sessions[c].pc)
    ensures Passes.InPass(r.states[next].sessions[c].pc)
  {
    var e := r.events[k];
    if !ActsFor(e, c) {
      Untouched(cfg, r.states[k], e, r.states[next], c);
    } else {
      BusyActs(cfg, r.states[k], e, r.states[next], c);
      if e.Fault? {
        FaultPositions(r.states[k], c, r.states[next]);
      } else {
        PassAct(cfg, r.states[k], c, e.choice, r.states[next]);
      }
    }
  }

  /** A step of a pass goes on with it or ends it. */
  lemma PassAct(cfg: Config, s: State, c: Id, ch: Choice, t: State)
    requires cfg.duration > 0 && c in s.sessions && Passes.InPass(s.sessions[c].pc) && StepGo(cfg, s, c, ch) == Some(t)
    ensures c in t.sessions && (Passes.InPass(t.sessions[c].pc) || Tells(s, t, c, GenerationOver))
    ensures s.sessions[c].pc.GenerateInsert? || t.db == s.db
  {
  }

  lemma {:induction false} PassTracked(cfg: Config, r: Run, j: nat, k: nat, c: Id)
    requires IsRun(cfg, r) && UnderWay(r, j, k, c, GenerateAll)
    ensures c in r.states[k].sessions && Passes.InPass(r.states[k].sessions[c].pc)
    decreases k
  {
    if k > j + 1 {
      var before: nat := k - 1;
      StillUnderWay(r, j, k, c, GenerateAll);
      PassTracked(cfg, r, j, before, c);
      PassStays(cfg, r, before, k, c);
    }
  }

  /** A pass ends in one way only, whatever fails on its way. */
  lemma PassAnswered(cfg: Config, r: Run, j: nat, k: nat, c: Id, a: Answer)
    requires IsRun(cfg, r) && Answered(r, j, k, c, GenerateAll, a)
    ensures a == GenerationOver
  {
    PassTracked(cfg, r, j, k, c);
    var s, t := r.states[k], r.states[k + 1];
    assert Busy(s, c) && t.sessions[c] != s.sessions[c];
    if !ActsFor(r.events[k], c) {
      Untouched(cfg, s, r.events[k], t, c);
    }
    BusyActs(cfg, s, r.events[k], t, c);
    if r.events[k].Go? {
      PassAct(cfg, s, c, r.events[k].choice, t);
    } else {
      PassFault(s, c, t);
    }
    SameAnswer(s, t, c, a, GenerationOver);
  }

  /** A failure ends a pass only while it lists the lanes. */
  lemma PassFault(s: State, c: Id, t: State)
    requires c in s.sessions && Passes.InPass(s.sessions[c].pc) && StepFault(s, c) == Some(t)
    ensures c in t.sessions
    ensures if s.sessions[c].pc.GenerateStart? then Tells(s, t, c, GenerationOver) else Passes.InPass(t.sessions[c].pc)
  {
  }
}
