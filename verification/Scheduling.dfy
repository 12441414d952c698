/**
 What a schedule request and the background generator ask of the slot table, as functions of the tables.
 */
module Scheduling {
  import opened Prelude
  import opened Calendar
  import opened Models
  import opened Grid
  import opened TimeText
  import opened Tables

  /**
   A requested clock time: its text, and the minute PostgreSQL's TIME input makes of it
   (`None`: rejected; 1440 is 24:00:00).
   */
  datatype TimeArg = TimeArg(text: string, column: Option<int>)

  datatype ScheduleRequest = ScheduleRequest(lane: Id, days: seq<int>, open: TimeArg, close: TimeArg)

  datatype ScheduleError = LaneNotFound | AlreadyExists | NoSlots | Repo(error: RepoError)

  /** A text the Go parser accepts, with PostgreSQL reading the same minute. */
  predicate Faithful(a: TimeArg) {
    ParseHMS(a.text).Some? && a.column == Some(GoMinutes(a.text))
  }

  predicate FaithfulRequest(req: ScheduleRequest) {
    Faithful(req.open) && Faithful(req.close)
  }

  /** The hours `CreateSchedule` lays its grid over: from the request texts. */
  function RequestHours(req: ScheduleRequest): Hours {
    Hours(GoMinutes(req.open.text), GoMinutes(req.close.text))
  }

  /** A TIME column as the driver renders it for `Scan`. */
  function ColumnText(minute: int): string
    requires 0 <= minute <= MINUTES_PER_DAY
  {
    TwoDigits(minute / 60) + ":" + TwoDigits(minute % 60) + ":00" + ".000000"
  }

  /** The hours the background generator lays its grid over: from the stored columns. */
  function StoredHours(hours: Hours): (r: Hours)
    ensures 0 <= hours.open <= MINUTES_PER_DAY && 0 <= hours.close <= MINUTES_PER_DAY ==> WithinDay(r)
  {
    if 0 <= hours.open <= MINUTES_PER_DAY && 0 <= hours.close <= MINUTES_PER_DAY
    then Hours(GoMinutes(ScanText(ColumnText(hours.open))), GoMinutes(ScanText(ColumnText(hours.close))))
    else hours
  }

  /** Reading a stored time back gives the stored minute. */
  lemma StoredHoursReadBack(hours: Hours)
    requires WithinDay(hours) && 0 <= hours.close && hours.open < MINUTES_PER_DAY
    ensures StoredHours(hours) == hours
  {
    MinuteReadBack(hours.open);
    MinuteReadBack(hours.close);
  }

  lemma MinuteReadBack(minute: int)
    requires 0 <= minute < MINUTES_PER_DAY
    ensures GoMinutes(ScanText(ColumnText(minute))) == minute
  {
    ClockRoundTrip(minute / 60, minute % 60, ".000000");
    assert ColumnText(minute) == FromHMToHMS(TwoDigits(minute / 60) + ":" + TwoDigits(minute % 60)) + ".000000";
  }

  /** Any stored time reads back as its minute, except that 24:00 is refused by the parser and reads as midnight. */
  lemma StoredHoursExactly(hours: Hours)
    requires 0 <= hours.open <= 1440 && 0 <= hours.close <= 1440
    ensures StoredHours(hours) == Hours(if hours.open == 1440 then 0 else hours.open, if hours.close == 1440 then 0 else hours.close)
  {
    if hours.open < 1440 {
      MinuteReadBack(hours.open);
    }
    if hours.close < 1440 {
      MinuteReadBack(hours.close);
    }
    EndOfDayReadBack();
  }

  lemma EndOfDayReadBack()
    ensures GoMinutes(ScanText(ColumnText(1440))) == 0
  {
    var hm := TwoDigits(24) + ":" + TwoDigits(0);
    assert hm[0] == TwoDigits(24)[0] && hm[1] == TwoDigits(24)[1];
    assert ColumnText(1440) == FromHMToHMS(hm) + ".000000";
    assert ScanText(ColumnText(1440)) == FromHMToHMS(hm);
    AcceptedExactly(hm);
  }

  /** The slots a schedule request generates at instant `now`. */
  function InitialSlots(req: ScheduleRequest, now: Time, window: nat, dur: int): seq<Slot>
    requires dur > 0
  {
    WindowSlots(req.lane, InitialDays(req.days), RequestHours(req), DayOf(now), window, dur)
  }

  /** The batch the background generator builds for one lane at instant `now`. */
  function BackgroundSlots(lane: Id, sch: Schedule, now: Time, lookahead: nat, dur: int): seq<Slot>
    requires dur > 0
  {
    WindowSlots(lane, BackgroundDays(sch.days), StoredHours(sch.hours), DayOf(now), lookahead, dur)
  }

  /** Slots with the ids a fresh run of UUIDs gives them. */
  function Numbered(first: Id, slots: seq<Slot>): (r: seq<NewSlot>)
    ensures |r| == |slots| && forall i :: 0 <= i < |r| ==> r[i] == NewSlot(first + i, slots[i])
  {
    seq(|slots|, i requires 0 <= i < |slots| => NewSlot(first + i, slots[i]))
  }

  lemma NumberedConcat(first: Id, a: seq<Slot>, b: seq<Slot>)
    ensures Numbered(first, a + b) == Numbered(first, a) + Numbered(first + |a|, b)
  {
  }

  /** `CreateSchedule`'s transaction: the tables after it, or the error it rolled back with. */
  function CreateSchedule(db: Db, req: ScheduleRequest, now: Time, first: Id, window: nat, dur: int): Result<Db, ScheduleError>
    requires dur > 0
  {
    if req.lane !in db.lanes then Err(LaneNotFound)
    else if req.lane in db.schedules then Err(AlreadyExists)
    else match InsertSchedule(db, req.lane, req.days, req.open.column, req.close.column)
      case Err(e) => Err(Repo(WrapDBError(e)))
      case Ok(db1) =>
        var slots := InitialSlots(req, now, window, dur);
        if slots == [] then Err(NoSlots) else
          match InsertSlots(db1, Numbered(first, slots))
          case Err(e) => Err(Repo(WrapDBError(e)))
          case Ok(db2) => Ok(db2)
  }

  /** One lane's turn in `GenerateAll`: a rejected batch is logged and changes nothing. */
  function GenerateLane(db: Db, lane: Id, now: Time, first: Id, lookahead: nat, dur: int): Db
    requires dur > 0
  {
    if lane !in db.schedules then db else
      var slots := BackgroundSlots(lane, db.schedules[lane], now, lookahead, dur);
      match InsertSlots(db, Numbered(first, slots))
      case Err(_) => db
      case Ok(db1) => db1
  }

  /** How many UUIDs that turn draws. */
  function Drawn(db: Db, lane: Id, now: Time, lookahead: nat, dur: int): nat
    requires dur > 0
  {
    if lane !in db.schedules then 0 else |BackgroundSlots(lane, db.schedules[lane], now, lookahead, dur)|
  }

  /** No slot row carries an id from `first` on. */
  predicate FreshFrom(slots: map<Id, Slot>, first: Id) {
    forall i :: i in slots ==> i < first
  }

  /** Slots exist only on lanes that have a schedule. */
  predicate SlotsHaveSchedules(db: Db) {
    forall i :: i in db.slots ==> db.slots[i].lane in db.schedules
  }

  /** A window under collision-free ids fits exactly when none of its starts is taken. */
  lemma WindowFitsBatch(db: Db, lane: Id, open: set<int>, hours: Hours, day: int, n: nat, dur: int, batch: seq<NewSlot>)
    requires dur > 0 && WithinDay(hours) && lane in db.lanes
    requires var slots := WindowSlots(lane, open, hours, day, n, dur);
      |batch| == |slots| && forall i :: 0 <= i < |batch| ==> batch[i].slot == slots[i]
    requires forall i :: 0 <= i < |batch| ==> batch[i].id !in db.slots
    requires forall i, j :: 0 <= i < j < |batch| ==> batch[i].id != batch[j].id
    ensures Fits(db, batch) <==>
            forall s :: s in WindowSlots(lane, open, hours, day, n, dur) ==> !StartTaken(db.slots, lane, s.start)
  {
    var slots := WindowSlots(lane, open, hours, day, n, dur);
    WindowIncreasing(lane, open, hours, day, n, dur);
    forall i | 0 <= i < |slots| ensures slots[i].lane == lane && slots[i].start < slots[i].end {
      InWindow(lane, open, hours, day, n, dur, slots[i]);
      DayGridInDay(lane, hours, DayOf(slots[i].start), dur, slots[i]);
    }
    if forall s :: s in slots ==> !StartTaken(db.slots, lane, s.start) {
      forall i | 0 <= i < |batch| ensures !StartTaken(db.slots, batch[i].slot.lane, batch[i].slot.start) {
        assert slots[i] in slots;
      }
    }
    if Fits(db, batch) {
      forall s | s in slots ensures !StartTaken(db.slots, lane, s.start) {
        var i :| 0 <= i < |slots| && slots[i] == s;
        assert batch[i].slot == s;
      }
    }
  }

  /** The same for a numbered window. */
  lemma WindowFits(db: Db, lane: Id, open: set<int>, hours: Hours, day: int, n: nat, dur: int, first: Id)
    requires dur > 0 && WithinDay(hours) && lane in db.lanes && FreshFrom(db.slots, first)
    ensures var slots := WindowSlots(lane, open, hours, day, n, dur);
      Fits(db, Numbered(first, slots)) <==> forall s :: s in slots ==> !StartTaken(db.slots, lane, s.start)
  {
    WindowFitsBatch(db, lane, open, hours, day, n, dur, Numbered(first, WindowSlots(lane, open, hours, day, n, dur)));
  }

  /**
   Outside failures of the infrastructure, `CreateSchedule` for an existing lane without a schedule
   fails exactly when the table refuses the times, no selected weekday is in the window, or the
   opening hours as Go reads them are shorter than a slot; its slot batch never conflicts. On success
   it has stored the schedule and exactly the window's grid.
   */
  lemma CreateScheduleExact(db: Db, req: ScheduleRequest, now: Time, first: Id, window: nat, dur: int)
    requires dur > 0 && SlotsHaveSchedules(db) && FreshFrom(db.slots, first)
    requires req.lane in db.lanes && req.lane !in db.schedules
    ensures var r := CreateSchedule(db, req, now, first, window, dur);
      var hours := RequestHours(req);
      && (r.Err? <==>
            || !InOrder(req)
            || (hours.close - hours.open) * MINUTE < dur
            || forall day :: DayOf(now) <= day < DayOf(now) + window ==> Weekday(day) !in InitialDays(req.days))
      && (r.Err? ==> r.error == NoSlots || (!InOrder(req) && r.error in {Repo(Validation), Repo(Internal)}))
      && (r.Ok? ==> InOrder(req) && r.value == db.(
            schedules := db.schedules[req.lane := StoredSchedule(req)],
            slots := db.slots + BatchRows(Numbered(first, InitialSlots(req, now, window, dur)))))
  {
    var hours := RequestHours(req);
    var raw := InsertSchedule(db, req.lane, req.days, req.open.column, req.close.column);
    if raw.Ok? {
      var db1 := raw.value;
      var slots := InitialSlots(req, now, window, dur);
      WindowEmpty(req.lane, InitialDays(req.days), hours, DayOf(now), window, dur);
      WindowFits(db1, req.lane, InitialDays(req.days), hours, DayOf(now), window, dur, first);
      InsertSlotsExact(db1, Numbered(first, slots));
    }
  }

  /** A closing time that Go's parser refuses, such as 24:00, makes every request fail, whatever PostgreSQL reads. */
  lemma UnreadClosingFails(db: Db, req: ScheduleRequest, hm: string, now: Time, first: Id, window: nat, dur: int)
    requires dur > 0 && req.close.text == FromHMToHMS(hm) && !IsClockText(hm)
    ensures CreateSchedule(db, req, now, first, window, dur).Err?
  {
    GridMinuteExactly(hm);
    WindowEmpty(req.lane, InitialDays(req.days), RequestHours(req), DayOf(now), window, dur);
  }

  /** Times that the table takes. */
  predicate InOrder(req: ScheduleRequest) {
    IsTime(req.open.column) && IsTime(req.close.column) && req.open.column.value < req.close.column.value
  }

  /** The tables with the schedule row in and no slots yet. */
  function WithSchedule(db: Db, req: ScheduleRequest): Result<Db, RawError> {
    InsertSchedule(db, req.lane, req.days, req.open.column, req.close.column)
  }

  /** The row an accepted request stores. */
  function StoredSchedule(req: ScheduleRequest): Schedule
    requires InOrder(req)
  {
    Schedule(req.days, Hours(req.open.column.value, req.close.column.value))
  }

  /** The hours of a schedule as the background generator reads them back. */
  function LaneHours(sch: Schedule): Hours {
    StoredHours(sch.hours)
  }

  /** For times the Go parser accepts, that is times in order, stored as they are read. */
  lemma FaithfulTimesStored(req: ScheduleRequest)
    requires FaithfulRequest(req)
    ensures InOrder(req) <==> RequestHours(req).open < RequestHours(req).close
    ensures InOrder(req) ==> Hours(req.open.column.value, req.close.column.value) == RequestHours(req)
  {
  }

  /** In any database, an accepted schedule only ever adds rows, and a refused one is reported with its cause. */
  lemma CreateScheduleRefusals(db: Db, req: ScheduleRequest, now: Time, first: Id, window: nat, dur: int)
    requires dur > 0
    ensures var r := CreateSchedule(db, req, now, first, window, dur);
      && (r == Err(LaneNotFound) <==> req.lane !in db.lanes)
      && (r == Err(AlreadyExists) <==> req.lane in db.lanes && req.lane in db.schedules)
      && (r.Ok? ==> (
            && r.value.lanes == db.lanes && r.value.users == db.users && r.value.bookings == db.bookings
            && r.value.schedules.Keys == db.schedules.Keys + {req.lane}
            && (forall l :: l in db.schedules ==> r.value.schedules[l] == db.schedules[l])
            && (forall i :: i in db.slots ==> i in r.value.slots && r.value.slots[i] == db.slots[i])))
  {
    if req.lane in db.lanes && req.lane !in db.schedules {
      match InsertSchedule(db, req.lane, req.days, req.open.column, req.close.column)
      case Err(_) =>
      case Ok(db1) =>
        var batch := Numbered(first, InitialSlots(req, now, window, dur));
        InsertSlotsExact(db1, batch);
        if Fits(db1, batch) {
          BatchRowsApart(db1, batch);
        }
    }
  }
}
