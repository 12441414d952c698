/**
 The slots both generators make, told in numbers: microseconds since 1970-01-01T00:00:00Z, a Thursday,
 86,400,000,000 to a day and 60,000,000 to a minute, weekdays from Monday 1 to Sunday 7.
 */
module Generated {
  import opened Prelude
  import opened Calendar
  import opened Models
  import opened Grid
  import opened TimeText
  import opened Scheduling

  /** The `k`-th slot from `from` on, if it ends by `until`. */
  predicate IsTile(s: Slot, lane: Id, from: int, until: int, dur: int, k: nat) {
    s == Slot(lane, from + k * dur, from + k * dur + dur) && from + k * dur + dur <= until
  }

  ghost predicate OnTiles(s: Slot, lane: Id, from: int, until: int, dur: int) {
    exists k: nat :: IsTile(s, lane, from, until, dur, k)
  }

  lemma {:induction false} TileExactly(lane: Id, t: Time, end: Time, dur: int, s: Slot)
    requires dur > 0
    ensures s in Tiles(lane, t, end, dur) <==> OnTiles(s, lane, t, end, dur)
    decreases end - t
  {
    if s in Tiles(lane, t, end, dur) {
      var k :| 0 <= k < |Tiles(lane, t, end, dur)| && Tiles(lane, t, end, dur)[k] == s;
      TileAt(lane, t, end, dur, k);
      Tiling(lane, t, end, dur);
      assert IsTile(s, lane, t, end, dur, k);
    }
    if k: nat :| IsTile(s, lane, t, end, dur, k) {
      TileReached(lane, t, end, dur, k);
      TileAt(lane, t, end, dur, k);
    }
  }

  lemma {:induction false} TileReached(lane: Id, t: Time, end: Time, dur: int, k: nat)
    requires dur > 0 && t + k * dur + dur <= end
    ensures k < |Tiles(lane, t, end, dur)|
    decreases k
  {
    assert k * dur >= 0;
    if k > 0 {
      assert (k - 1) * dur == k * dur - dur;
      TileReached(lane, t + dur, end, dur, k - 1);
    }
  }

  /** Monday is 1 and Sunday 7 in a schedule, Sunday is 0 to Go, and day 0 was a Thursday. */
  lemma SelectedDay(days: seq<int>, d: int)
    requires ValidDays(days)
    ensures Weekday(d) in InitialDays(days) <==> (d + 3) % 7 + 1 in days
    ensures Weekday(d) in BackgroundDays(days) <==> (d + 3) % 7 + 1 in days && (d + 3) % 7 + 1 != 7
  {
    BackgroundMissesSunday(days);
    var iso := (d + 3) % 7 + 1;
    assert iso % 7 == Weekday(d);
    if iso in days {
      assert iso % 7 in InitialDays(days);
    }
    if Weekday(d) in InitialDays(days) {
      var x :| x in days && x % 7 == Weekday(d);
      assert x == iso;
    }
  }

  /** The grid of one day in numbers. */
  ghost predicate OnDay(s: Slot, lane: Id, d: int, open: int, close: int, dur: int) {
    OnTiles(s, lane, d * 86_400_000_000 + open * 60_000_000, d * 86_400_000_000 + close * 60_000_000, dur)
  }

  lemma DayGridExactly(lane: Id, hours: Hours, d: int, dur: int, s: Slot)
    requires dur > 0
    ensures s in DayGrid(lane, hours, d, dur) <==> OnDay(s, lane, d, hours.open, hours.close, dur)
  {
    TileExactly(lane, At(d, hours.open), At(d, hours.close), dur, s);
  }

  lemma WindowSlotExactly(lane: Id, open: set<int>, hours: Hours, now: Time, n: nat, dur: int, s: Slot)
    requires dur > 0 && WithinDay(hours)
    ensures s in WindowSlots(lane, open, hours, DayOf(now), n, dur) <==>
            var d := s.start / 86_400_000_000;
            now / 86_400_000_000 <= d < now / 86_400_000_000 + n && Weekday(d) in open && OnDay(s, lane, d, hours.open, hours.close, dur)
  {
    InWindow(lane, open, hours, DayOf(now), n, dur, s);
    DayGridExactly(lane, hours, DayOf(s.start), dur, s);
  }

  /** The batch of a schedule that closes by 23:59. */
  lemma BatchSlotExactly(lane: Id, sch: Schedule, now: Time, n: nat, dur: int, s: Slot)
    requires dur > 0 && ValidDays(sch.days) && 0 <= sch.hours.open < sch.hours.close < 1440
    ensures s in BackgroundSlots(lane, sch, now, n, dur) <==>
            var d := s.start / 86_400_000_000;
            && now / 86_400_000_000 <= d < now / 86_400_000_000 + n
            && (d + 3) % 7 + 1 in sch.days && (d + 3) % 7 + 1 != 7
            && OnDay(s, lane, d, sch.hours.open, sch.hours.close, dur)
  {
    BatchHours(lane, sch, now, n, dur);
    WindowSlotExactly(lane, BackgroundDays(sch.days), sch.hours, now, n, dur, s);
    SelectedDay(sch.days, DayOf(s.start));
  }

  lemma BatchHours(lane: Id, sch: Schedule, now: Time, n: nat, dur: int)
    requires dur > 0 && 0 <= sch.hours.open < sch.hours.close < 1440
    ensures BackgroundSlots(lane, sch, now, n, dur) == WindowSlots(lane, BackgroundDays(sch.days), sch.hours, DayOf(now), n, dur)
  {
    StoredHoursExactly(sch.hours);
  }

  /** A schedule that closes at 24:00 gets no slot from the background generator, ever. */
  lemma ClosingAt24NeverRefilled(lane: Id, sch: Schedule, now: Time, n: nat, dur: int)
    requires dur > 0 && 0 <= sch.hours.open < 1440 && sch.hours.close == 1440
    ensures BackgroundSlots(lane, sch, now, n, dur) == []
  {
    StoredHoursExactly(sch.hours);
    WindowEmpty(lane, BackgroundDays(sch.days), StoredHours(sch.hours), DayOf(now), n, dur);
  }

  /**
   A slot is in the background generator's batch exactly when its day is one of the `n` from today on and
   a scheduled Monday to Saturday, and it is a tile of that day between the stored hours; a schedule that
   closes at 24:00 has none.
   */
  lemma BackgroundSlotExactly(lane: Id, sch: Schedule, now: Time, n: nat, dur: int, s: Slot)
    requires dur > 0 && ValidDays(sch.days) && 0 <= sch.hours.open < sch.hours.close <= 1440
    ensures s in BackgroundSlots(lane, sch, now, n, dur) <==>
            var d := s.start / 86_400_000_000;
            && sch.hours.close != 1440 && now / 86_400_000_000 <= d < now / 86_400_000_000 + n
            && (d + 3) % 7 + 1 in sch.days && (d + 3) % 7 + 1 != 7
            && OnDay(s, lane, d, sch.hours.open, sch.hours.close, dur)
  {
    if sch.hours.close == 1440 {
      ClosingAt24NeverRefilled(lane, sch, now, n, dur);
    } else {
      BatchSlotExactly(lane, sch, now, n, dur, s);
    }
  }

  /** A slot is in the first window exactly when its day is in it and selected, Sundays included, and it is a tile between the hours Go reads. */
  lemma InitialSlotExactly(req: ScheduleRequest, now: Time, n: nat, dur: int, s: Slot)
    requires dur > 0 && ValidDays(req.days)
    ensures s in InitialSlots(req, now, n, dur) <==>
            var d := s.start / 86_400_000_000;
            && now / 86_400_000_000 <= d < now / 86_400_000_000 + n
            && (d + 3) % 7 + 1 in req.days
            && OnDay(s, req.lane, d, GoMinutes(req.open.text), GoMinutes(req.close.text), dur)
  {
    WindowSlotExactly(req.lane, InitialDays(req.days), RequestHours(req), now, n, dur, s);
    SelectedDay(req.days, DayOf(s.start));
  }

  /** A tile of a day within 24 hours starts on that day. */
  lemma TileOnItsDay(s: Slot, lane: Id, d: int, open: int, close: int, dur: int)
    requires dur > 0 && 0 <= open && close < 1440 && OnDay(s, lane, d, open, close, dur)
    ensures s.start / 86_400_000_000 == d
  {
    DayGridExactly(lane, Hours(open, close), d, dur, s);
    DayGridInDay(lane, Hours(open, close), d, dur, s);
  }

  /** Conversely every scheduled Monday to Saturday of the window has its whole grid in the batch. */
  lemma BackgroundDayComplete(lane: Id, sch: Schedule, now: Time, n: nat, dur: int, d: int, s: Slot)
    requires dur > 0 && ValidDays(sch.days) && 0 <= sch.hours.open < sch.hours.close < 1440
    requires now / 86_400_000_000 <= d < now / 86_400_000_000 + n && (d + 3) % 7 + 1 in sch.days && (d + 3) % 7 + 1 != 7
    requires OnDay(s, lane, d, sch.hours.open, sch.hours.close, dur)
    ensures s in BackgroundSlots(lane, sch, now, n, dur)
  {
    TileOnItsDay(s, lane, d, sch.hours.open, sch.hours.close, dur);
    BatchSlotExactly(lane, sch, now, n, dur, s);
  }

  /** And every selected day of the first window has its whole grid in it. */
  lemma InitialDayComplete(req: ScheduleRequest, now: Time, n: nat, dur: int, d: int, s: Slot)
    requires dur > 0 && ValidDays(req.days)
    requires now / 86_400_000_000 <= d < now / 86_400_000_000 + n && (d + 3) % 7 + 1 in req.days
    requires OnDay(s, req.lane, d, GoMinutes(req.open.text), GoMinutes(req.close.text), dur)
    ensures s in InitialSlots(req, now, n, dur)
  {
    TileOnItsDay(s, req.lane, d, GoMinutes(req.open.text), GoMinutes(req.close.text), dur);
    InitialSlotExactly(req, now, n, dur, s);
  }
}
