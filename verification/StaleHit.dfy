/** What the cache does not promise: two ways in which a hit differs from the fresh query. */
module StaleHit {
  import opened Prelude
  import opened Calendar
  import opened Models
  import opened Tables
  import opened Cache
  import opened Engine
  import opened Execution
  import opened Coherence
  import opened Solo
  import BookingSafety
  import BookingHistory
  import Staleness

  /** `events` are client `c`'s alone, and no infrastructure fails in them. */
  predicate Undisturbed(events: seq<Event>, c: Id) {
    forall i :: 0 <= i < |events| ==> ActsFor(events[i], c) && (events[i].Call? || Smooth(events[i], c))
  }

  /** Such events lead from `s` to `t`. */
  predicate Leads(cfg: Config, s: State, c: Id, events: seq<Event>, t: State)
    requires cfg.duration > 0
  {
    Undisturbed(events, c) && Exec(cfg, s, events) == Some(t)
  }

  lemma Then(cfg: Config, s: State, c: Id, before: seq<Event>, t: State, e: Event, u: State) returns (events: seq<Event>)
    requires cfg.duration > 0 && Leads(cfg, s, c, before, t) && Smooth(e, c) && Next(cfg, t, e) == Some(u)
    ensures Leads(cfg, s, c, events, u)
  {
    events := before + [e];
    ExecJoin(cfg, s, before, t, [e]);
    Exec1(cfg, t, e, u);
  }

  lemma CallLeads(cfg: Config, s: State, c: Id, request: Request, events: seq<Event>, t: State)
    requires cfg.duration > 0 && Calls(cfg, s, c, request, events, t)
    ensures Leads(cfg, s, c, events, t)
  {
    CallsExec(cfg, s, c, request, events, t);
    forall i | 1 <= i < |events| ensures Smooth(events[i], c) {
      assert events[i] == events[1..][i - 1];
    }
  }

  /** A reader's steps on a miss, up to where it carries the query result. */
  lemma QueryAlone(cfg: Config, s: State, c: Id, key: Key) returns (events: seq<Event>)
    requires cfg.cached && cfg.duration > 0 && c in s.sessions && s.sessions[c].pc.Idle?
    requires Lookup(s.cache, key, s.now).None? && key.lane in s.db.lanes
    ensures Leads(cfg, s, c, events, Carrying(s, c, key))
  {
    events := [Call(c, ListSlots(key))];
    Exec1(cfg, s, events[0], Enter(s, c, ReadCache(key)));
    ReadFirstSteps(cfg, s, c, key, Step(c));
    ReadLastSteps(cfg, s, c, key, Step(c));
    events := Then(cfg, s, c, events, Enter(s, c, ReadCache(key)), Step(c), Enter(s, c, ReadLane(key)));
    events := Then(cfg, s, c, events, Enter(s, c, ReadLane(key)), Step(c), Enter(s, c, ReadQuery(key)));
    events := Then(cfg, s, c, events, Enter(s, c, ReadQuery(key)), Step(c), Carrying(s, c, key));
  }

  lemma FreeSlotFresh(db: Db, slot: Id)
    requires Consistent(db) && slot in db.slots && !Taken(db.bookings, slot)
    ensures SlotRow(slot, db.slots[slot]) in Fresh(db, SlotKey(db.slots[slot]))
    ensures SlotKey(db.slots[slot]).lane in db.lanes
  {
    var key := SlotKey(db.slots[slot]);
    KeyMatchesWindow(db.slots[slot].start, key.day);
    AvailableExact(db, key.lane, key.day);
  }

  /** The end of a read: the reader sets what it carries. */
  lemma SetAlone(cfg: Config, s: State, c: Id, key: Key, rows: seq<SlotRow>) returns (events: seq<Event>, t: State)
    requires cfg.cached && ValidConfig(cfg) && c in s.sessions && s.sessions[c].pc == ReadFill(key, rows)
    ensures Leads(cfg, s, c, events, t) && t.db == s.db && t.now == s.now && OnlyClient(s, t, c)
    ensures Lookup(t.cache, key, t.now) == Some(rows)
  {
    t := Next(cfg, s, Step(c)).value;
    events := [Step(c)];
    Exec1(cfg, s, Step(c), t);
  }

  lemma BookedAfter(s: State, c: Id, user: Id, slot: Id, id: Id)
    requires c in s.sessions && slot in s.db.slots && user in s.db.users && id !in s.db.bookings && !Taken(s.db.bookings, slot)
    ensures var t := AfterCreate(s, c, user, slot, id);
      Taken(t.db.bookings, slot) && OnlyClient(s, t, c)
  {
    var t := AfterCreate(s, c, user, slot, id);
    assert t.db.bookings[id] == Booking(user, slot, Active, s.now);
  }

  /** A reader queries, then a booking of a slot it found commits and invalidates. */
  lemma QueryThenBook(cfg: Config, s: State, reader: Id, creator: Id, user: Id, slot: Id, id: Id)
    returns (query: seq<Event>, book: seq<Event>, t: State)
    requires cfg.cached && ValidConfig(cfg) && AllIdle(s) && reader in s.sessions && creator in s.sessions && reader != creator
    requires slot in s.db.slots && user in s.db.users && id !in s.db.bookings && !Taken(s.db.bookings, slot)
    requires SlotKey(s.db.slots[slot]) !in s.cache && SlotKey(s.db.slots[slot]).lane in s.db.lanes
    ensures Undisturbed(query, reader) && Undisturbed(book, creator) && Exec(cfg, s, query + book) == Some(t)
    ensures Taken(t.db.bookings, slot) && Others(s, t, reader, creator) && reader in t.sessions
    ensures var key := SlotKey(s.db.slots[slot]);
      t.sessions[reader].pc == ReadFill(key, Fresh(s.db, key))
  {
    var key := SlotKey(s.db.slots[slot]);
    var s1 := Enter(s, reader, ReadFill(key, Fresh(s.db, key)));
    query := QueryAlone(cfg, s, reader, key);
    book := CreateAlone(cfg, s1, creator, user, slot, id);
    CallLeads(cfg, s1, creator, CreateBooking(user, slot), book, AfterCreate(s1, creator, user, slot, id));
    t := AfterCreate(s1, creator, user, slot, id);
    BookedAfter(s1, creator, user, slot, id);
    ExecJoin(cfg, s, query, s1, book);
  }

  /** Everyone else stands where they stood. */
  predicate Others(s: State, t: State, c: Id, d: Id) {
    t.sessions.Keys == s.sessions.Keys && forall x :: x in s.sessions && x != c && x != d ==> t.sessions[x] == s.sessions[x]
  }

  /** The reader then sets what it carries: the entry lists the booked slot. */
  lemma Race(cfg: Config, s: State, reader: Id, creator: Id, user: Id, slot: Id, id: Id)
    returns (query: seq<Event>, book: seq<Event>, fill: seq<Event>, t: State)
    requires cfg.cached && ValidConfig(cfg) && AllIdle(s) && reader in s.sessions && creator in s.sessions && reader != creator
    requires slot in s.db.slots && user in s.db.users && id !in s.db.bookings && !Taken(s.db.bookings, slot)
    requires SlotKey(s.db.slots[slot]) !in s.cache && SlotKey(s.db.slots[slot]).lane in s.db.lanes
    ensures Undisturbed(query, reader) && Undisturbed(book, creator) && Undisturbed(fill, reader)
    ensures Exec(cfg, s, query + book + fill) == Some(t)
    ensures Taken(t.db.bookings, slot) && Others(s, t, reader, creator)
    ensures var key := SlotKey(s.db.slots[slot]);
      Lookup(t.cache, key, t.now) == Some(Fresh(s.db, key))
  {
    var key := SlotKey(s.db.slots[slot]);
    var s2;
    query, book, s2 := QueryThenBook(cfg, s, reader, creator, user, slot, id);
    fill, t := SetAlone(cfg, s2, reader, key, Fresh(s.db, key));
    ExecJoin(cfg, s, query + book, s2, fill);
  }

  /**
   A hit can list a booked slot although nothing fails and every delete reaches the cache: any state
   with three idle clients, a free slot and no entry for its day leads there.
   */
  lemma StaleHitPossible(cfg: Config, s: State, reader: Id, creator: Id, late: Id, user: Id, slot: Id, id: Id)
    returns (query: seq<Event>, book: seq<Event>, fill: seq<Event>, read: seq<Event>, t: State, rows: seq<SlotRow>)
    requires cfg.cached && ValidConfig(cfg) && AllIdle(s) && Consistent(s.db)
    requires reader in s.sessions && creator in s.sessions && late in s.sessions
    requires reader != creator && creator != late && reader != late
    requires slot in s.db.slots && user in s.db.users && id !in s.db.bookings && !Taken(s.db.bookings, slot)
    requires SlotKey(s.db.slots[slot]) !in s.cache
    ensures Undisturbed(query, reader) && Undisturbed(book, creator) && Undisturbed(fill, reader) && Undisturbed(read, late)
    ensures Exec(cfg, s, query + book + fill + read) == Some(t)
    ensures late in t.sessions && t.sessions[late].answers == s.sessions[late].answers + [Listing(rows, true)]
    ensures SlotRow(slot, s.db.slots[slot]) in rows && Taken(t.db.bookings, slot)
  {
    var key := SlotKey(s.db.slots[slot]);
    FreeSlotFresh(s.db, slot);
    var t1;
    query, book, fill, t1 := Race(cfg, s, reader, creator, user, slot, id);
    rows := Fresh(s.db, key);
    read := ReadAlone(cfg, t1, late, key);
    CallLeads(cfg, t1, late, ListSlots(key), read, AfterRead(cfg, t1, late, key));
    t := AfterRead(cfg, t1, late, key);
    ExecJoin(cfg, s, query + book + fill, t1, read);
    HitAfter(cfg, t1, late, key, rows);
  }

  lemma HitAfter(cfg: Config, s: State, c: Id, key: Key, rows: seq<SlotRow>)
    requires c in s.sessions && Lookup(s.cache, key, s.now) == Some(rows)
    ensures AfterRead(cfg, s, c, key) == Reply(s, c, Listing(rows, true))
  {
    assert DayOf(Midnight(key.day)) == key.day;
  }

  /**
   No generator invalidates: when a batch commits, whatever the cache holds for a lane and day on
   which it put a slot stays, and a hit there keeps leaving that free slot out.
   */
  lemma GeneratorsLeaveTheCacheBehind(cfg: Config, s: State, c: Id, ch: Choice, t: State, i: Id, key: Key)
    requires cfg.duration > 0 && BookingSafety.BookingInv(s) && c in s.sessions && StepGo(cfg, s, c, ch) == Some(t)
    requires i in t.db.slots && i !in s.db.slots && key == SlotKey(t.db.slots[i])
    ensures t.cache == s.cache
    ensures forall now, rows :: Lookup(s.cache, key, now) == Some(rows) && rows == Fresh(s.db, key) ==>
      Lookup(t.cache, key, now) == Some(rows) && rows != Fresh(t.db, key) && SlotRow(i, t.db.slots[i]) in Fresh(t.db, key)
  {
    BookingSafety.GoKeeps(cfg, s, c, ch, t);
    SlotsNeedGenerators(cfg, s, c, ch, t);
    Staleness.CacheFrame(cfg, s, c, ch, t);
    NewSlotFree(cfg, s, c, ch, t, i);
    KeyMatchesWindow(t.db.slots[i].start, key.day);
    AvailableExact(t.db, key.lane, key.day);
    AvailableExact(s.db, key.lane, key.day);
    assert SlotRow(i, t.db.slots[i]) in Fresh(t.db, key);
    assert SlotRow(i, t.db.slots[i]) !in Fresh(s.db, key);
  }

  lemma SlotsNeedGenerators(cfg: Config, s: State, c: Id, ch: Choice, t: State)
    requires cfg.duration > 0 && c in s.sessions && StepGo(cfg, s, c, ch) == Some(t) && t.db.slots != s.db.slots
    ensures s.sessions[c].pc.ScheduleCommit? || s.sessions[c].pc.GenerateInsert?
  {
    FrameGo(cfg, s, c, ch);
  }

  lemma NewSlotFree(cfg: Config, s: State, c: Id, ch: Choice, t: State, i: Id)
    requires cfg.duration > 0 && BookingSafety.BookingInv(s) && c in s.sessions && StepGo(cfg, s, c, ch) == Some(t)
    requires i in t.db.slots && i !in s.db.slots
    ensures !Taken(t.db.bookings, i)
  {
    SlotsNeedGenerators(cfg, s, c, ch, t);
    BookingHistory.OtherWritesSpareBookings(cfg, s, c, ch, t);
  }
}
