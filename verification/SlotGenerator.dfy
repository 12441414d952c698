/** `SlotGenerator`: the background generator. */
module SlotGenerator {
  import opened Prelude
  import opened Calendar
  import opened Models
  import opened Grid
  import opened Tables
  import opened Scheduling
  import opened Generation
  import opened Repository

  class Generator {
    const db: Database
    const slotDuration: int
    const lookahead: nat

    constructor (db: Database, slotDuration: int, lookahead: nat)
      ensures this.db == db && this.slotDuration == slotDuration && this.lookahead == lookahead
    {
      this.db, this.slotDuration, this.lookahead := db, slotDuration, lookahead;
    }

    /** One day's slots: the grid when the schedule names Go's weekday number, nothing otherwise. */
    method BuildSlotsForDay(lane: Id, sch: Schedule, date: Time, uuids: UuidSource) returns (slots: seq<NewSlot>)
      requires slotDuration > 0
      modifies uuids
      ensures slots == Numbered(old(uuids.next),
                                DaySlots(lane, BackgroundDays(sch.days), StoredHours(sch.hours), DayOf(date), slotDuration))
      ensures uuids.next == old(uuids.next) + |slots|
    {
      var hours := StoredHours(sch.hours);
      var allowed := false;
      for i := 0 to |sch.days|
        invariant allowed <==> Weekday(DayOf(date)) in sch.days[..i]
      {
        if sch.days[i] == Weekday(DayOf(date)) {
          allowed := true;
          assert sch.days[i] in sch.days;
          break;
        }
      }
      if !allowed {
        return [];
      }
      slots := [];
      ghost var today: seq<Slot> := [];
      var curStart := At(DayOf(date), hours.open);
      var curEnd := At(DayOf(date), hours.close);
      var t := curStart;
      while t + slotDuration <= curEnd
        invariant Tiles(lane, curStart, curEnd, slotDuration) == today + Tiles(lane, t, curEnd, slotDuration)
        invariant slots == Numbered(old(uuids.next), today) && uuids.next == old(uuids.next) + |slots|
        decreases curEnd - t
      {
        var id := uuids.New();
        var slot := Slot(lane, t, t + slotDuration);
        slots := slots + [NewSlot(id, slot)];
        today := today + [slot];
        t := t + slotDuration;
      }
      assert today == DayGrid(lane, hours, DayOf(date), slotDuration);
    }

    /** The day loop of `GenerateAll` for one lane. */
    method BuildBatch(lane: Id, sch: Schedule, start: Time, uuids: UuidSource) returns (batch: seq<NewSlot>)
      requires slotDuration > 0
      modifies uuids
      ensures batch == Numbered(old(uuids.next), BackgroundSlots(lane, sch, start, lookahead, slotDuration))
      ensures uuids.next == old(uuids.next) + |batch|
    {
      var open, hours := BackgroundDays(sch.days), StoredHours(sch.hours);
      var end := AddDate(start, lookahead);
      batch := [];
      ghost var windows: seq<Slot> := [];
      var d := start;
      ghost var n := 0;
      while d < end
        invariant 0 <= n <= lookahead && d == DaysLater(start, n)
        invariant windows == WindowSlots(lane, open, hours, DayOf(start), n, slotDuration)
        invariant batch == Numbered(old(uuids.next), windows) && uuids.next == old(uuids.next) + |batch|
        decreases lookahead - n
      {
        AddDays(start, n, lookahead);
        ghost var today := DaySlots(lane, open, hours, DayOf(d), slotDuration);
        NumberedConcat(old(uuids.next), windows, today);
        var daySlots := BuildSlotsForDay(lane, sch, d, uuids);
        batch := batch + daySlots;
        windows := windows + today;
        d := d + DAY;
        n := n + 1;
      }
      AddDays(start, n, lookahead);
    }

    /** One lane's turn. */
    method GenerateForLane(lane: Id, uuids: UuidSource, clock: Clock)
      requires slotDuration > 0
      modifies db, uuids, clock
      ensures old(clock.now) <= clock.now
      ensures db.State() == GenerateLane(old(db.State()), lane, clock.now, old(uuids.next), lookahead, slotDuration)
      ensures uuids.next == old(uuids.next) + Drawn(old(db.State()), lane, clock.now, lookahead, slotDuration)
    {
      var sch := db.GetScheduleByLane(lane);
      if sch.Ok? {
        var start := clock.Now();
        var batch := BuildBatch(lane, sch.value, start, uuids);
        if |batch| > 0 {
          var saved := db.CreateSlots(batch);
        }
      }
    }

    /** Every lane in turn; a refused batch is logged and the loop goes on. */
    method GenerateAll(uuids: UuidSource, clock: Clock) returns (ghost instants: seq<Time>)
      requires slotDuration > 0
      modifies db, uuids, clock
      ensures |instants| == |old(db.lanes)|
      ensures forall k :: 0 <= k < |instants| ==> old(clock.now) <= instants[k] <= clock.now
      ensures db.State() == GenerateLanes(old(db.State()), old(db.lanes), instants, old(uuids.next), lookahead, slotDuration)
      ensures uuids.next == NextId(old(db.State()), old(db.lanes), instants, old(uuids.next), lookahead, slotDuration)
    {
      var lanes := db.GetAllLanes();
      instants := [];
      for k := 0 to |lanes|
        invariant lanes == old(db.lanes) && |instants| == k && old(clock.now) <= clock.now
        invariant forall i :: 0 <= i < k ==> old(clock.now) <= instants[i] <= clock.now
        invariant db.State() == GenerateLanes(old(db.State()), lanes[..k], instants, old(uuids.next), lookahead, slotDuration)
        invariant uuids.next == NextId(old(db.State()), lanes[..k], instants, old(uuids.next), lookahead, slotDuration)
      {
        GenerateForLane(lanes[k], uuids, clock);
        LastTurn(old(db.State()), lanes[..k], instants, lanes[k], clock.now, old(uuids.next), lookahead, slotDuration);
        assert lanes[..k] + [lanes[k]] == lanes[..k + 1];
        instants := instants + [clock.now];
      }
      assert lanes[..|lanes|] == lanes;
    }
  }
}
