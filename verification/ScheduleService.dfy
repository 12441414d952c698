/** The writing half of `LaneService`: the schedule transaction with its initial slots. */
module ScheduleService {
  import opened Prelude
  import opened Calendar
  import opened Models
  import opened Grid
  import TimeText
  import Generated
  import opened Tables
  import opened Scheduling
  import opened Repository

  class Service {
    const db: Database
    const slotDuration: int
    const slotGenerationDays: nat

    constructor (db: Database, slotDuration: int, slotGenerationDays: nat)
      ensures this.db == db && this.slotDuration == slotDuration && this.slotGenerationDays == slotGenerationDays
    {
      this.db, this.slotDuration, this.slotGenerationDays := db, slotDuration, slotGenerationDays;
    }

    /**
     One transaction: an error leaves every table as it was; success leaves exactly what the
     specification function says.
     */
    method CreateSchedule(req: ScheduleRequest, uuids: UuidSource, clock: Clock) returns (r: Result<(), ScheduleError>)
      requires slotDuration > 0 && ValidDays(req.days)
      modifies db, uuids, clock
      ensures match Scheduling.CreateSchedule(old(db.State()), req, clock.now, old(uuids.next), slotGenerationDays, slotDuration)
        case Ok(after) => r == Ok(()) && db.State() == after
        case Err(e) => r == Err(e) && db.State() == old(db.State())
      ensures old(clock.now) <= clock.now
    {
      var before := db.State();
      var found := db.HasLane(req.lane);
      if found.Err? {
        return Err(LaneNotFound);
      }
      var existing := db.GetScheduleByLane(req.lane);
      if existing.Ok? {
        return Err(AlreadyExists);
      }
      var saved := db.CreateScheduleRow(req.lane, req.days, req.open.column, req.close.column);
      if saved.Err? {
        return Err(Repo(saved.error));
      }
      var slots := BuildInitialSlots(req, uuids, clock);
      if |slots| == 0 {
        db.Restore(before);
        return Err(NoSlots);
      }
      var inserted := db.CreateSlots(slots);
      if inserted.Err? {
        db.Restore(before);
        return Err(Repo(inserted.error));
      }
      r := Ok(());
    }

    /** The array of open weekdays, indexed by Go's weekday: 7 goes to index 0. */
    method AllowedDays(days: seq<int>) returns (allowedDays: array<bool>)
      requires ValidDays(days)
      ensures fresh(allowedDays) && allowedDays.Length == 7
      ensures forall d :: 0 <= d < 7 ==> (allowedDays[d] <==> d in InitialDays(days))
    {
      allowedDays := new bool[7](_ => false);
      for i := 0 to |days|
        invariant forall d :: 0 <= d < 7 ==> (allowedDays[d] <==> d in InitialDays(days[..i]))
      {
        InitialDaysSnoc(days[..i + 1]);
        assert days[..i + 1][..i] == days[..i];
        allowedDays[days[i] % 7] := true;
      }
      assert days[..|days|] == days;
    }

    /** The inner loop: one open day's tiles, appended. */
    method AppendDay(slots: seq<NewSlot>, lane: Id, curStart: Time, curEnd: Time, uuids: UuidSource) returns (more: seq<NewSlot>)
      requires slotDuration > 0
      modifies uuids
      ensures more == slots + Numbered(old(uuids.next), Tiles(lane, curStart, curEnd, slotDuration))
      ensures uuids.next == old(uuids.next) + |more| - |slots|
    {
      more := slots;
      ghost var today: seq<Slot> := [];
      var t := curStart;
      while t + slotDuration <= curEnd
        invariant Tiles(lane, curStart, curEnd, slotDuration) == today + Tiles(lane, t, curEnd, slotDuration)
        invariant more == slots + Numbered(old(uuids.next), today) && uuids.next == old(uuids.next) + |today|
        decreases curEnd - t
      {
        var id := uuids.New();
        var slot := Slot(lane, t, t + slotDuration);
        NumberedConcat(old(uuids.next), today, [slot]);
        more := more + [NewSlot(id, slot)];
        today := today + [slot];
        t := t + slotDuration;
      }
      assert today == Tiles(lane, curStart, curEnd, slotDuration);
    }

    /** The day loop of `CreateSchedule`. */
    method BuildInitialSlots(req: ScheduleRequest, uuids: UuidSource, clock: Clock) returns (slots: seq<NewSlot>)
      requires slotDuration > 0 && ValidDays(req.days)
      modifies uuids, clock
      ensures slots == Numbered(old(uuids.next), InitialSlots(req, clock.now, slotGenerationDays, slotDuration))
      ensures old(clock.now) <= clock.now
    {
      var allowedDays := AllowedDays(req.days);
      var now := clock.Now();
      slots := DayLoop(req, now, allowedDays, uuids);
    }

    method DayLoop(req: ScheduleRequest, now: Time, allowedDays: array<bool>, uuids: UuidSource) returns (slots: seq<NewSlot>)
      requires slotDuration > 0 && allowedDays.Length == 7
      requires forall d :: 0 <= d < 7 ==> (allowedDays[d] <==> d in InitialDays(req.days))
      modifies uuids
      ensures slots == Numbered(old(uuids.next), InitialSlots(req, now, slotGenerationDays, slotDuration))
    {
      var hours := RequestHours(req);
      ghost var open := InitialDays(req.days);
      var endDate := AddDate(now, slotGenerationDays);
      slots := [];
      ghost var windows: seq<Slot> := [];
      var day := now;
      ghost var n := 0;
      while day < endDate
        invariant 0 <= n <= slotGenerationDays && day == DaysLater(now, n)
        invariant windows == WindowSlots(req.lane, open, hours, DayOf(now), n, slotDuration)
        invariant slots == Numbered(old(uuids.next), windows) && uuids.next == old(uuids.next) + |windows|
        decreases slotGenerationDays - n
      {
        AddDays(now, n, slotGenerationDays);
        ghost var today := DaySlots(req.lane, open, hours, DayOf(day), slotDuration);
        NumberedConcat(old(uuids.next), windows, today);
        if allowedDays[Weekday(DayOf(day))] {
          slots := AppendDay(slots, req.lane, At(DayOf(day), hours.open), At(DayOf(day), hours.close), uuids);
        }
        windows := windows + today;
        day := day + DAY;
        n := n + 1;
      }
      AddDays(now, n, slotGenerationDays);
    }
  }

  /** `PostLanesLaneIdScheduleCreate`'s status code, for an administrator. */
  function ScheduleStatus<T>(req: ScheduleRequest, r: Result<T, ScheduleError>): int {
    if !ValidDays(req.days) then 400 else
      match r
      case Ok(_) => 201
      case Err(LaneNotFound) => 404
      case Err(AlreadyExists) => 409
      case Err(_) => 500
  }

  /** The days are between one and seven, from Monday 1 to Sunday 7, none twice. */
  predicate DaysInOrder(days: seq<int>) {
    && 0 < |days| < 8
    && (forall d :: d in days ==> d in {1, 2, 3, 4, 5, 6, 7})
    && (forall i, j :: 0 <= i < j < |days| ==> days[i] != days[j])
  }

  lemma DaysInOrderExact(days: seq<int>)
    ensures DaysInOrder(days) <==> ValidDays(days)
  {
    if DaysInOrder(days) {
      forall i | 0 <= i < |days| ensures 1 <= days[i] <= 7 {
        assert days[i] in days;
      }
    }
    if ValidDays(days) {
      forall d | d in days ensures d in {1, 2, 3, 4, 5, 6, 7} {
        var i :| 0 <= i < |days| && days[i] == d;
      }
    }
  }

  /** The table takes no time later than 24:00, and no opening that is not before the closing. */
  predicate TimesRefused(req: ScheduleRequest) {
    var open, close := req.open.column, req.close.column;
    open.None? || close.None? || open.value < 0 || close.value > 1440 || close.value <= open.value
  }

  /** The day's number from Monday 1 to Sunday 7 is not among the days; day 0 was a Thursday. */
  predicate Unselected(days: seq<int>, d: int) {
    (d + 3) % 7 + 1 !in days
  }

  /**
   Without infrastructure failures: 400 exactly for invalid days, else 404 exactly for a missing lane, else
   409 exactly for a lane with a schedule, else 500 exactly when the table refuses the times, or the hours
   as Go reads them hold no slot, or no selected day is in the window; 201 otherwise.
   */
  lemma ScheduleOutcomeExact(db: Db, req: ScheduleRequest, now: Time, first: Id, window: nat, dur: int)
    requires dur > 0 && SlotsHaveSchedules(db) && FreshFrom(db.slots, first)
    ensures var status := ScheduleStatus(req, Scheduling.CreateSchedule(db, req, now, first, window, dur));
      if !DaysInOrder(req.days) then status == 400
      else if req.lane !in db.lanes then status == 404
      else if req.lane in db.schedules then status == 409
      else
        status == (if TimesRefused(req) || (TimeText.GoMinutes(req.close.text) - TimeText.GoMinutes(req.open.text)) * 60_000_000 < dur
                      || forall d :: now / 86_400_000_000 <= d < now / 86_400_000_000 + window ==> Unselected(req.days, d)
                   then 500 else 201)
  {
    DaysInOrderExact(req.days);
    forall d | ValidDays(req.days) ensures Weekday(d) !in InitialDays(req.days) <==> Unselected(req.days, d) {
      Generated.SelectedDay(req.days, d);
    }
    if req.lane in db.lanes && req.lane !in db.schedules {
      CreateScheduleExact(db, req, now, first, window, dur);
    }
  }
}
