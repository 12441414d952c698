/**
 The running service: clients whose calls interleave statement by statement over one database
 and one cache. Committed tables are `db`; an uncommitted statement is the position of the client
 that sent it, and holds its index entry or row lock until that client commits or rolls back.
 With `cached` off it is the same service without its cache.
 */
module Engine {
  import opened Prelude
  import opened Calendar
  import opened Models
  import opened Tables
  import opened Scheduling
  import opened Cache

  datatype Config = Config(clients: set<Id>, duration: int, window: nat, lookahead: nat, ttl: int, cached: bool)

  predicate ValidConfig(cfg: Config) {
    cfg.duration > 0 && cfg.ttl > 0
  }

  datatype Request =
    | CreateBooking(user: Id, slot: Id)
    | CancelBookingOf(user: Id, booking: Id)
    | ListSlots(key: Key)
    | MakeSchedule(schedule: ScheduleRequest)
    | GenerateAll

  /** What a call is told. A listing also says, for the model's use only, whether it came from the cache. */
  datatype Answer =
    | BookingMade(booking: Id) | SlotMissing | SlotTaken
    | BookingCancelled(booking: Id) | BookingMissing | NotOwner
    | ScheduleMade | NoLane | ScheduleExists | RequestInvalid
    | GenerationOver | Failed
    | Listing(rows: seq<SlotRow>, hit: bool) | ListingNoLane | ListingFailed

  /** Where a client stands: before the named step. */
  datatype Pc =
    | Idle
    | CreateGet(user: Id, slot: Id)
    | CreateInsert(user: Id, slot: Id, row: Slot, since: Time)
    | CreateCommit(user: Id, slot: Id, row: Slot, booking: Id, at: Time)
    | CreateInvalidate(key: Key, booking: Id)
    | CancelGet(user: Id, booking: Id)
    | CancelSlot(user: Id, booking: Id, slot: Id)
    | CancelUpdate(user: Id, booking: Id, row: Slot)
    | CancelCommit(user: Id, booking: Id, row: Slot)
    | CancelInvalidate(key: Key, booking: Id)
    | ReadCache(key: Key)
    | ReadLane(key: Key)
    | ReadQuery(key: Key)
    | ReadFill(key: Key, rows: seq<SlotRow>)
    | ScheduleCheck(req: ScheduleRequest)
    | ScheduleInsert(req: ScheduleRequest)
    | ScheduleBuild(req: ScheduleRequest)
    | ScheduleCommit(req: ScheduleRequest, at: Time)
    | GenerateStart
    | GenerateNext(rest: seq<Id>)
    | GenerateBuild(lane: Id, sch: Schedule, rest: seq<Id>)
    | GenerateInsert(lane: Id, sch: Schedule, at: Time, rest: seq<Id>)

  /** A client: its position and the answers it has had. */
  datatype Session = Session(pc: Pc, answers: seq<Answer>)

  datatype State = State(db: Db, cache: map<Key, Entry>, sessions: map<Id, Session>, now: Time)

  /** What the surroundings choose for a step: generated ids, and whether the cache server was reached. */
  datatype Choice = Choice(ids: seq<Id>, reached: bool)

  datatype Event =
    | Tick(to: Time)
    | Evict(key: Key)
    | AddUser(user: Id)
    | AddLane(lane: Id, position: nat)
    | Call(client: Id, request: Request)
    | Go(client: Id, choice: Choice)
    | Fault(client: Id)

  // ---- Locks ----

  /** An uncommitted statement on the slot's entry in the partial unique index. */
  predicate HoldsSlot(pc: Pc, bookings: map<Id, Booking>, slot: Id) {
    || (pc.CreateCommit? && pc.slot == slot)
    || (pc.CancelCommit? && pc.booking in bookings && bookings[pc.booking].slot == slot && bookings[pc.booking].status.Active?)
  }

  predicate SlotHeld(s: State, client: Id, slot: Id) {
    exists d :: d in s.sessions && d != client && HoldsSlot(s.sessions[d].pc, s.db.bookings, slot)
  }

  predicate BookingIdHeld(s: State, id: Id) {
    exists d :: d in s.sessions && s.sessions[d].pc.CreateCommit? && s.sessions[d].pc.booking == id
  }

  predicate RowHeld(s: State, client: Id, booking: Id) {
    exists d :: d in s.sessions && d != client && s.sessions[d].pc.CancelCommit? && s.sessions[d].pc.booking == booking
  }

  /** An uncommitted schedule row of the lane. */
  predicate HoldsLane(pc: Pc, lane: Id) {
    (pc.ScheduleBuild? || pc.ScheduleCommit?) && pc.req.lane == lane
  }

  predicate LaneHeld(s: State, client: Id, lane: Id) {
    exists d :: d in s.sessions && d != client && HoldsLane(s.sessions[d].pc, lane)
  }

  // ---- Steps ----

  function Enter(s: State, client: Id, pc: Pc): State
    requires client in s.sessions
  {
    s.(sessions := s.sessions[client := Session(pc, s.sessions[client].answers)])
  }

  function Reply(s: State, client: Id, answer: Answer): State
    requires client in s.sessions
  {
    s.(sessions := s.sessions[client := Session(Idle, s.sessions[client].answers + [answer])])
  }

  /** The first step of a call. The schedule handler turns invalid days away itself. */
  function Begin(cfg: Config, s: State, client: Id, request: Request): State
    requires client in s.sessions
  {
    match request
    case CreateBooking(user, slot) => Enter(s, client, CreateGet(user, slot))
    case CancelBookingOf(user, booking) => Enter(s, client, CancelGet(user, booking))
    case ListSlots(key) => Enter(s, client, if cfg.cached then ReadCache(key) else ReadLane(key))
    case MakeSchedule(req) =>
      if ValidDays(req.days) then Enter(s, client, ScheduleCheck(req)) else Reply(s, client, RequestInvalid)
    case GenerateAll => Enter(s, client, GenerateStart)
  }

  /**
   `Create`: begin and read the slot, insert under the index, commit, invalidate. A held entry blocks
   the insert; the row is stamped with the instant the transaction began.
   */
  function StepCreate(cfg: Config, s: State, client: Id, ch: Choice): Option<State>
    requires client in s.sessions
  {
    match s.sessions[client].pc
    case CreateGet(user, slot) =>
      if slot !in s.db.slots then Some(Reply(s, client, SlotMissing))
      else Some(Enter(s, client, CreateInsert(user, slot, s.db.slots[slot], s.now)))
    case CreateInsert(user, slot, row, since) =>
      if SlotHeld(s, client, slot) || |ch.ids| != 1 || ch.ids[0] in s.db.bookings || BookingIdHeld(s, ch.ids[0]) then None else
        (match InsertBooking(s.db, ch.ids[0], user, slot, since)
         case Err(e) => Some(Reply(s, client, if WrapDBError(e) == Conflict then SlotTaken else Failed))
         case Ok(_) => Some(Enter(s, client, CreateCommit(user, slot, row, ch.ids[0], since))))
    case CreateCommit(user, slot, row, booking, at) =>
      var s1 := s.(db := s.db.(bookings := s.db.bookings[booking := Booking(user, slot, Active, at)]));
      Some(if cfg.cached then Enter(s1, client, CreateInvalidate(SlotKey(row), booking))
           else Reply(s1, client, BookingMade(booking)))
    case CreateInvalidate(key, booking) =>
      Some(Reply(if ch.reached then s.(cache := s.cache - {key}) else s, client, BookingMade(booking)))
    case _ => None
  }

  /** `Cancel`: read the booking, check owner and status, read the slot, update, commit, invalidate. */
  function StepCancel(cfg: Config, s: State, client: Id, ch: Choice): Option<State>
    requires client in s.sessions
  {
    match s.sessions[client].pc
    case CancelGet(user, booking) =>
      if booking !in s.db.bookings then Some(Reply(s, client, BookingMissing))
      else if s.db.bookings[booking].user != user then Some(Reply(s, client, NotOwner))
      else if s.db.bookings[booking].status.Cancelled? then Some(Reply(s, client, BookingCancelled(booking)))
      else Some(Enter(s, client, CancelSlot(user, booking, s.db.bookings[booking].slot)))
    case CancelSlot(user, booking, slot) =>
      if slot !in s.db.slots then Some(Reply(s, client, Failed))
      else Some(Enter(s, client, CancelUpdate(user, booking, s.db.slots[slot])))
    case CancelUpdate(user, booking, row) =>
      if RowHeld(s, client, booking) then None else Some(Enter(s, client, CancelCommit(user, booking, row)))
    case CancelCommit(user, booking, row) =>
      var s1 := s.(db := CancelBooking(s.db, booking));
      Some(if cfg.cached then Enter(s1, client, CancelInvalidate(SlotKey(row), booking))
           else Reply(s1, client, BookingCancelled(booking)))
    case CancelInvalidate(key, booking) =>
      Some(Reply(if ch.reached then s.(cache := s.cache - {key}) else s, client, BookingCancelled(booking)))
    case _ => None
  }

  /** `GetAvailableSlots`: look up, check the lane, query, fill. A failed lookup is a miss, a failed fill is silent. */
  function StepRead(cfg: Config, s: State, client: Id, ch: Choice): Option<State>
    requires client in s.sessions
  {
    match s.sessions[client].pc
    case ReadCache(key) =>
      if ch.reached && Lookup(s.cache, key, s.now).Some?
      then Some(Reply(s, client, Listing(Lookup(s.cache, key, s.now).value, true)))
      else Some(Enter(s, client, ReadLane(key)))
    case ReadLane(key) =>
      if key.lane !in s.db.lanes then Some(Reply(s, client, ListingNoLane)) else Some(Enter(s, client, ReadQuery(key)))
    case ReadQuery(key) =>
      var rows := Available(s.db, key.lane, key.day);
      Some(if cfg.cached then Enter(s, client, ReadFill(key, rows)) else Reply(s, client, Listing(rows, false)))
    case ReadFill(key, rows) =>
      var s1 := if ch.reached then s.(cache := s.cache[key := Entry(rows, s.now + cfg.ttl)]) else s;
      Some(Reply(s1, client, Listing(rows, false)))
    case _ => None
  }

  /** Slots with generated ids. */
  function WithIds(ids: seq<Id>, slots: seq<Slot>): (r: seq<NewSlot>)
    requires |ids| == |slots|
    ensures |r| == |ids| && forall i :: 0 <= i < |r| ==> r[i] == NewSlot(ids[i], slots[i])
  {
    seq(|ids|, i requires 0 <= i < |ids| => NewSlot(ids[i], slots[i]))
  }

  /** Generated ids do not collide. */
  predicate FreshIds(ids: seq<Id>, slots: map<Id, Slot>) {
    && (forall i :: 0 <= i < |ids| ==> ids[i] !in slots)
    && (forall i, j :: 0 <= i < j < |ids| ==> ids[i] != ids[j])
  }

  /** `CreateSchedule`: checks, schedule row, generation, slot rows and commit. A held lane blocks the row. */
  function StepSchedule(cfg: Config, s: State, client: Id, ch: Choice): Option<State>
    requires client in s.sessions && cfg.duration > 0
  {
    match s.sessions[client].pc
    case ScheduleCheck(req) =>
      if req.lane !in s.db.lanes then Some(Reply(s, client, NoLane))
      else if req.lane in s.db.schedules then Some(Reply(s, client, ScheduleExists))
      else Some(Enter(s, client, ScheduleInsert(req)))
    case ScheduleInsert(req) =>
      if LaneHeld(s, client, req.lane) then None
      else if InsertSchedule(s.db, req.lane, req.days, req.open.column, req.close.column).Err? then Some(Reply(s, client, Failed))
      else Some(Enter(s, client, ScheduleBuild(req)))
    case ScheduleBuild(req) =>
      if InitialSlots(req, s.now, cfg.window, cfg.duration) == [] then Some(Reply(s, client, Failed))
      else Some(Enter(s, client, ScheduleCommit(req, s.now)))
    case ScheduleCommit(req, at) =>
      var slots := InitialSlots(req, at, cfg.window, cfg.duration);
      if |ch.ids| != |slots| || !FreshIds(ch.ids, s.db.slots) then None else
        (match InsertSchedule(s.db, req.lane, req.days, req.open.column, req.close.column)
         case Err(_) => Some(Reply(s, client, Failed))
         case Ok(db1) =>
           match InsertSlots(db1, WithIds(ch.ids, slots))
           case Err(_) => Some(Reply(s, client, Failed))
           case Ok(db2) => Some(Reply(s.(db := db2), client, ScheduleMade)))
    case _ => None
  }

  /** `GenerateAll`: per lane, read the schedule, build at the clock's instant, insert the batch. */
  function StepGenerate(cfg: Config, s: State, client: Id, ch: Choice): Option<State>
    requires client in s.sessions && cfg.duration > 0
  {
    match s.sessions[client].pc
    case GenerateStart => Some(Enter(s, client, GenerateNext(s.db.lanes)))
    case GenerateNext(rest) =>
      if rest == [] then Some(Reply(s, client, GenerationOver))
      else if rest[0] !in s.db.schedules then Some(Enter(s, client, GenerateNext(rest[1..])))
      else Some(Enter(s, client, GenerateBuild(rest[0], s.db.schedules[rest[0]], rest[1..])))
    case GenerateBuild(lane, sch, rest) =>
      if BackgroundSlots(lane, sch, s.now, cfg.lookahead, cfg.duration) == [] then Some(Enter(s, client, GenerateNext(rest)))
      else Some(Enter(s, client, GenerateInsert(lane, sch, s.now, rest)))
    case GenerateInsert(lane, sch, at, rest) =>
      var slots := BackgroundSlots(lane, sch, at, cfg.lookahead, cfg.duration);
      if |ch.ids| != |slots| || !FreshIds(ch.ids, s.db.slots) then None else
        (match InsertSlots(s.db, WithIds(ch.ids, slots))
         case Err(_) => Some(Enter(s, client, GenerateNext(rest)))
         case Ok(db1) => Some(Enter(s.(db := db1), client, GenerateNext(rest))))
    case _ => None
  }

  /** A database call fails: the transaction rolls back and the call ends, except that the generator goes on. */
  function StepFault(s: State, client: Id): Option<State>
    requires client in s.sessions
  {
    match s.sessions[client].pc
    case CreateGet(_, _) => Some(Reply(s, client, Failed))
    case CreateInsert(_, _, _, _) => Some(Reply(s, client, Failed))
    case CreateCommit(_, _, _, _, _) => Some(Reply(s, client, Failed))
    case CancelGet(_, _) => Some(Reply(s, client, Failed))
    case CancelSlot(_, _, _) => Some(Reply(s, client, Failed))
    case CancelUpdate(_, _, _) => Some(Reply(s, client, Failed))
    case CancelCommit(_, _, _) => Some(Reply(s, client, Failed))
    case ReadLane(_) => Some(Reply(s, client, ListingFailed))
    case ReadQuery(_) => Some(Reply(s, client, ListingFailed))
    case ScheduleCheck(_) => Some(Reply(s, client, Failed))
    case ScheduleInsert(_) => Some(Reply(s, client, Failed))
    case ScheduleBuild(_) => Some(Reply(s, client, Failed))
    case ScheduleCommit(_, _) => Some(Reply(s, client, Failed))
    case GenerateStart => Some(Reply(s, client, GenerationOver))
    case GenerateNext(rest) => if rest == [] then None else Some(Enter(s, client, GenerateNext(rest[1..])))
    case GenerateInsert(_, _, _, rest) => Some(Enter(s, client, GenerateNext(rest)))
    case _ => None
  }

  predicate InCreate(pc: Pc) {
    pc.CreateGet? || pc.CreateInsert? || pc.CreateCommit? || pc.CreateInvalidate?
  }

  predicate InCancel(pc: Pc) {
    pc.CancelGet? || pc.CancelSlot? || pc.CancelUpdate? || pc.CancelCommit? || pc.CancelInvalidate?
  }

  predicate InRead(pc: Pc) {
    pc.ReadCache? || pc.ReadLane? || pc.ReadQuery? || pc.ReadFill?
  }

  predicate InSchedule(pc: Pc) {
    pc.ScheduleCheck? || pc.ScheduleInsert? || pc.ScheduleBuild? || pc.ScheduleCommit?
  }

  function StepGo(cfg: Config, s: State, client: Id, ch: Choice): Option<State>
    requires client in s.sessions && cfg.duration > 0
  {
    var pc := s.sessions[client].pc;
    if InCreate(pc) then StepCreate(cfg, s, client, ch)
    else if InCancel(pc) then StepCancel(cfg, s, client, ch)
    else if InRead(pc) then StepRead(cfg, s, client, ch)
    else if InSchedule(pc) then StepSchedule(cfg, s, client, ch)
    else StepGenerate(cfg, s, client, ch)
  }

  /** One step of the service, `None` when the event cannot happen in this state. The clock never goes back. */
  function Next(cfg: Config, s: State, e: Event): Option<State>
    requires cfg.duration > 0
  {
    match e
    case Tick(to) => if to < s.now then None else Some(s.(now := to))
    case Evict(key) => Some(s.(cache := s.cache - {key}))
    case AddUser(user) => Some(s.(db := s.db.(users := s.db.users + {user})))
    case AddLane(lane, position) =>
      if lane in s.db.lanes || position > |s.db.lanes| then None
      else Some(s.(db := s.db.(lanes := s.db.lanes[..position] + [lane] + s.db.lanes[position..])))
    case Call(client, request) =>
      if client !in s.sessions || s.sessions[client].pc != Idle then None else Some(Begin(cfg, s, client, request))
    case Go(client, choice) =>
      if client !in s.sessions then None else StepGo(cfg, s, client, choice)
    case Fault(client) =>
      if client !in s.sessions then None else StepFault(s, client)
  }

  // ---- Runs ----

  predicate IsInit(cfg: Config, s: State) {
    && s.db == Db({}, [], map[], map[], map[])
    && s.cache == map[]
    && s.sessions == map c | c in cfg.clients :: Session(Idle, [])
  }

  /** `events[i]` leads from `states[i]` to `states[i + 1]`. */
  datatype Run = Run(states: seq<State>, events: seq<Event>)

  ghost predicate IsRun(cfg: Config, r: Run) {
    && ValidConfig(cfg)
    && |r.states| == |r.events| + 1
    && IsInit(cfg, r.states[0])
    && forall i :: 0 <= i < |r.events| ==> Next(cfg, r.states[i], r.events[i]) == Some(r.states[i + 1])
  }

  /** Only `client`'s session may differ, and the clock stands. */
  predicate OnlyClient(s: State, t: State, client: Id) {
    && t.sessions.Keys == s.sessions.Keys && t.now == s.now
    && forall d :: d in s.sessions && d != client ==> t.sessions[d] == s.sessions[d]
  }

  lemma FrameCreate(cfg: Config, s: State, client: Id, ch: Choice)
    requires client in s.sessions
    ensures var t := StepCreate(cfg, s, client, ch);
      t.Some? ==> OnlyClient(s, t.value, client) && (!s.sessions[client].pc.CreateCommit? ==> t.value.db == s.db)
  {
  }

  lemma FrameCancel(cfg: Config, s: State, client: Id, ch: Choice)
    requires client in s.sessions
    ensures var t := StepCancel(cfg, s, client, ch);
      t.Some? ==> OnlyClient(s, t.value, client) && (!s.sessions[client].pc.CancelCommit? ==> t.value.db == s.db)
  {
  }

  lemma FrameRead(cfg: Config, s: State, client: Id, ch: Choice)
    requires client in s.sessions
    ensures var t := StepRead(cfg, s, client, ch);
      t.Some? ==> OnlyClient(s, t.value, client) && t.value.db == s.db
  {
  }

  lemma FrameSchedule(cfg: Config, s: State, client: Id, ch: Choice)
    requires client in s.sessions && cfg.duration > 0
    ensures var t := StepSchedule(cfg, s, client, ch);
      t.Some? ==> OnlyClient(s, t.value, client) && (!s.sessions[client].pc.ScheduleCommit? ==> t.value.db == s.db)
  {
  }

  lemma FrameGenerate(cfg: Config, s: State, client: Id, ch: Choice)
    requires client in s.sessions && cfg.duration > 0
    ensures var t := StepGenerate(cfg, s, client, ch);
      t.Some? ==> OnlyClient(s, t.value, client) && (!s.sessions[client].pc.GenerateInsert? ==> t.value.db == s.db)
  {
  }

  lemma FrameFault(s: State, client: Id)
    requires client in s.sessions
    ensures var t := StepFault(s, client);
      t.Some? ==> OnlyClient(s, t.value, client) && t.value.db == s.db && t.value.cache == s.cache
  {
  }

  /** The steps that write to the tables. */
  predicate Writes(pc: Pc) {
    pc.CreateCommit? || pc.CancelCommit? || pc.ScheduleCommit? || pc.GenerateInsert?
  }

  lemma FrameGo(cfg: Config, s: State, client: Id, ch: Choice)
    requires client in s.sessions && cfg.duration > 0
    ensures var t := StepGo(cfg, s, client, ch);
      t.Some? ==> OnlyClient(s, t.value, client) && (!Writes(s.sessions[client].pc) ==> t.value.db == s.db)
  {
    FrameCreate(cfg, s, client, ch);
    FrameCancel(cfg, s, client, ch);
    FrameRead(cfg, s, client, ch);
    FrameSchedule(cfg, s, client, ch);
    FrameGenerate(cfg, s, client, ch);
  }

  predicate ActsFor(e: Event, client: Id) {
    (e.Call? || e.Go? || e.Fault?) && e.client == client
  }

  /**
   A step touches the session of its own client only, no client comes or goes, the clock moves only
   with a tick, and the tables change only when someone or some lane is added or a write commits.
   */
  lemma StepFrame(cfg: Config, s: State, e: Event, t: State)
    requires cfg.duration > 0 && Next(cfg, s, e) == Some(t)
    ensures t.sessions.Keys == s.sessions.Keys
    ensures forall d :: d in s.sessions && !ActsFor(e, d) ==> t.sessions[d] == s.sessions[d]
    ensures s.now <= t.now && (!e.Tick? ==> t.now == s.now)
    ensures t.db == s.db || e.AddUser? || e.AddLane? || (e.Go? && Writes(s.sessions[e.client].pc))
    ensures e.Call? || e.Go? || e.Fault? ==> e.client in s.sessions
  {
    match e
    case Go(client, choice) => FrameGo(cfg, s, client, choice);
    case Fault(client) => FrameFault(s, client);
    case _ =>
  }
}
