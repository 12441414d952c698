/**
 The first grid follows the request's texts as Go reads them, every later one the columns as
 PostgreSQL stored them. When the two readings differ, this is exactly when slots overlap.
 */
module TwoGrids {
  import opened Prelude
  import opened Calendar
  import opened Models
  import opened Grid
  import opened TimeText
  import opened Tables
  import opened Scheduling
  import opened Generation

  predicate Disjoint(a: Slot, b: Slot) {
    a == b || a.end <= b.start || b.end <= a.start
  }

  ghost predicate NoOverlap(slots: set<Slot>) {
    forall a, b :: a in slots && b in slots ==> Disjoint(a, b)
  }

  /** How far a day's grid reaches, in microseconds from midnight. */
  function Reach(hours: Hours, dur: int): int
    requires dur > 0
  {
    hours.open * MINUTE + (if hours.close < hours.open then 0 else (hours.close - hours.open) * MINUTE / dur) * dur
  }

  /** One grid is empty, or both share their boundaries, or one ends before the other starts. */
  predicate GridsAgree(g: Hours, h: Hours, dur: int)
    requires dur > 0
  {
    || Reach(g, dur) == g.open * MINUTE || Reach(h, dur) == h.open * MINUTE
    || (g.open - h.open) * MINUTE % dur == 0
    || Reach(g, dur) <= h.open * MINUTE || Reach(h, dur) <= g.open * MINUTE
  }

  /** The slots of a day's grid, in closed form. */
  lemma GridMember(lane: Id, hours: Hours, day: int, dur: int, k: nat)
    requires dur > 0 && hours.open * MINUTE + k * dur < Reach(hours, dur)
    ensures Slot(lane, At(day, hours.open) + k * dur, At(day, hours.open) + k * dur + dur) in DayGrid(lane, hours, day, dur)
  {
    var t, end := At(day, hours.open), At(day, hours.close);
    GridSize(lane, hours, day, dur);
    var n := |DayGrid(lane, hours, day, dur)|;
    if k >= n {
      MulOrder(n, k, dur);
    } else {
      TileAt(lane, t, end, dur, k);
    }
  }

  lemma GridSize(lane: Id, hours: Hours, day: int, dur: int)
    requires dur > 0
    ensures Reach(hours, dur) == hours.open * MINUTE + |DayGrid(lane, hours, day, dur)| * dur
  {
    TileCount(lane, At(day, hours.open), At(day, hours.close), dur);
    assert At(day, hours.close) - At(day, hours.open) == (hours.close - hours.open) * MINUTE;
  }

  lemma GridIndex(lane: Id, hours: Hours, day: int, dur: int, s: Slot) returns (k: nat)
    requires dur > 0 && s in DayGrid(lane, hours, day, dur)
    ensures s == Slot(lane, At(day, hours.open) + k * dur, At(day, hours.open) + k * dur + dur)
    ensures hours.open * MINUTE + k * dur + dur <= Reach(hours, dur)
  {
    var grid := DayGrid(lane, hours, day, dur);
    k :| 0 <= k < |grid| && grid[k] == s;
    TileAt(lane, At(day, hours.open), At(day, hours.close), dur, k);
    GridSize(lane, hours, day, dur);
    MulOrder(k + 1, |grid|, dur);
    assert (k + 1) * dur == k * dur + dur;
  }

  lemma MulOrder(a: int, b: int, d: int)
    requires a <= b && d > 0
    ensures a * d <= b * d
  {
    assert (b - a) * d >= 0;
    assert b * d == a * d + (b - a) * d;
  }

  /** Multiples of `d` apart: the same, or at least `d` apart. */
  lemma MultiplesApart(x: int, d: int)
    requires d > 0 && x % d == 0
    ensures x == 0 || x >= d || x <= -d
  {
  }

  lemma StepsKeepRemainder(x: int, i: int, j: int, d: int)
    requires d > 0
    ensures (x + i * d - j * d) % d == x % d
  {
    var q, r := x / d, x % d;
    assert x + i * d - j * d == (q + i - j) * d + r by {
      assert (q + i - j) * d == q * d + i * d - j * d;
    }
    ModUnique((x + i * d - j * d), d, q + i - j, r);
  }

  lemma ModUnique(x: int, d: int, q: int, r: int)
    requires d > 0 && 0 <= r < d && x == q * d + r
    ensures x % d == r
  {
    DivUnique(x, d, q, r);
  }

  /** Grids that agree never overlap. */
  lemma AgreeingGridsApart(lane: Id, day: int, g: Hours, h: Hours, dur: int, a: Slot, b: Slot)
    requires dur > 0 && GridsAgree(g, h, dur)
    requires a in DayGrid(lane, g, day, dur) && b in DayGrid(lane, h, day, dur)
    ensures Disjoint(a, b)
  {
    var i := GridIndex(lane, g, day, dur, a);
    var j := GridIndex(lane, h, day, dur, b);
    assert i * dur >= 0 && j * dur >= 0;
    if (g.open - h.open) * MINUTE % dur == 0 {
      StepsKeepRemainder((g.open - h.open) * MINUTE, i, j, dur);
      MultiplesApart((g.open - h.open) * MINUTE + i * dur - j * dur, dur);
    }
  }

  /** Where `b` starts strictly inside a slot of the other grid. */
  lemma StraddledStart(lane: Id, day: int, g: Hours, h: Hours, dur: int) returns (a: Slot, b: Slot)
    requires dur > 0 && g.open < h.open && h.open * MINUTE < Reach(g, dur) && h.open * MINUTE < Reach(h, dur)
    requires (g.open - h.open) * MINUTE % dur != 0
    ensures a in DayGrid(lane, g, day, dur) && b in DayGrid(lane, h, day, dur) && !Disjoint(a, b)
  {
    var x := (h.open - g.open) * MINUTE;
    var k, rest := x / dur, x % dur;
    assert x == k * dur + rest;
    assert k >= 0 by {
      DivNonNegative(x, dur);
    }
    if rest == 0 {
      StepsKeepRemainder(0, 0, k, dur);
    }
    GridMember(lane, g, day, dur, k);
    GridMember(lane, h, day, dur, 0);
    a := Slot(lane, At(day, g.open) + k * dur, At(day, g.open) + k * dur + dur);
    b := Slot(lane, At(day, h.open) + 0 * dur, At(day, h.open) + 0 * dur + dur);
  }

  lemma DivNonNegative(x: int, d: int)
    requires x >= 0 && d > 0
    ensures x / d >= 0
  {
  }

  lemma NegatedRemainder(x: int, d: int)
    requires d > 0 && x % d != 0
    ensures (-x) % d != 0
  {
    if (-x) % d == 0 {
      var q := (-x) / d;
      assert x == (-q) * d + 0;
      ModUnique(x, d, -q, 0);
    }
  }

  /** Grids that do not agree always overlap. */
  lemma DisagreeingGridsOverlap(lane: Id, day: int, g: Hours, h: Hours, dur: int) returns (a: Slot, b: Slot)
    requires dur > 0 && !GridsAgree(g, h, dur)
    ensures a in DayGrid(lane, g, day, dur) && b in DayGrid(lane, h, day, dur) && !Disjoint(a, b)
  {
    ReachesOut(g, dur);
    ReachesOut(h, dur);
    Misaligned(g.open, h.open, dur);
    if g.open < h.open {
      a, b := StraddledStart(lane, day, g, h, dur);
    } else {
      b, a := StraddledStart(lane, day, h, g, dur);
    }
  }

  /** A grid that is not empty reaches past its start. */
  lemma ReachesOut(hours: Hours, dur: int)
    requires dur > 0
    ensures hours.open * MINUTE <= Reach(hours, dur)
  {
    GridSize(0, hours, 0, dur);
    MulOrder(0, |DayGrid(0, hours, 0, dur)|, dur);
  }

  /** Not sharing boundaries is symmetric, and rules out a common start. */
  lemma Misaligned(x: int, y: int, dur: int)
    requires dur > 0 && (x - y) * MINUTE % dur != 0
    ensures x != y && (y - x) * MINUTE % dur != 0
  {
    if x == y {
      ModUnique(0, dur, 0, 0);
    }
    NegatedRemainder((x - y) * MINUTE, dur);
    assert -((x - y) * MINUTE) == (y - x) * MINUTE;
  }

  /** Grids that do not agree are not empty. */
  lemma DisagreeingHasSlot(g: Hours, h: Hours, dur: int)
    requires dur > 0 && !GridsAgree(g, h, dur)
    ensures (g.close - g.open) * MINUTE >= dur
  {
    TileCount(0, At(0, g.open), At(0, g.close), dur);
    GridSize(0, g, 0, dur);
    assert At(0, g.close) - At(0, g.open) == (g.close - g.open) * MINUTE;
    var n := |DayGrid(0, g, 0, dur)|;
    assert n == 0 ==> n * dur == 0;
  }

  // ---- One grid inside the other ----

  /** The second grid is empty, or shares the first one's boundaries and lies within it. */
  predicate GridCovers(g: Hours, h: Hours, dur: int)
    requires dur > 0
  {
    || Reach(h, dur) == h.open * MINUTE
    || (g.open <= h.open && (h.open - g.open) * MINUTE % dur == 0 && Reach(h, dur) <= Reach(g, dur))
  }

  /** That is, on every day every slot of the second grid is a slot of the first. */
  lemma CoversExactly(lane: Id, day: int, g: Hours, h: Hours, dur: int)
    requires dur > 0
    ensures GridCovers(g, h, dur) <==> forall s :: s in DayGrid(lane, h, day, dur) ==> s in DayGrid(lane, g, day, dur)
  {
    if GridCovers(g, h, dur) {
      forall s | s in DayGrid(lane, h, day, dur) ensures s in DayGrid(lane, g, day, dur) {
        CoveredSlot(lane, day, g, h, dur, s);
      }
    }
    if forall s :: s in DayGrid(lane, h, day, dur) ==> s in DayGrid(lane, g, day, dur) {
      CoveredGrid(lane, day, g, h, dur);
    }
  }

  lemma CoveredSlot(lane: Id, day: int, g: Hours, h: Hours, dur: int, s: Slot)
    requires dur > 0 && GridCovers(g, h, dur) && s in DayGrid(lane, h, day, dur)
    ensures s in DayGrid(lane, g, day, dur)
  {
    var j := GridIndex(lane, h, day, dur, s);
    assert j * dur >= 0;
    var x := (h.open - g.open) * MINUTE;
    var q := x / dur;
    DivNonNegative(x, dur);
    assert x == q * dur;
    assert (q + j) * dur == q * dur + j * dur;
    GridMember(lane, g, day, dur, q + j);
  }

  lemma CoveredGrid(lane: Id, day: int, g: Hours, h: Hours, dur: int)
    requires dur > 0 && forall s :: s in DayGrid(lane, h, day, dur) ==> s in DayGrid(lane, g, day, dur)
    ensures GridCovers(g, h, dur)
  {
    var n := |DayGrid(lane, h, day, dur)|;
    GridSize(lane, h, day, dur);
    if n > 0 {
      TileAt(lane, At(day, h.open), At(day, h.close), dur, 0);
      TileAt(lane, At(day, h.open), At(day, h.close), dur, n - 1);
      var i := GridIndex(lane, g, day, dur, DayGrid(lane, h, day, dur)[0]);
      var k := GridIndex(lane, g, day, dur, DayGrid(lane, h, day, dur)[n - 1]);
      CoveredEnds(g, h, dur, n, i, k);
    }
  }

  /** The first and the last slot of the second grid decide. */
  lemma CoveredEnds(g: Hours, h: Hours, dur: int, n: nat, i: nat, k: nat)
    requires dur > 0 && n > 0 && Reach(h, dur) == h.open * MINUTE + n * dur
    requires h.open * MINUTE == g.open * MINUTE + i * dur
    requires h.open * MINUTE + (n - 1) * dur == g.open * MINUTE + k * dur && g.open * MINUTE + k * dur + dur <= Reach(g, dur)
    ensures GridCovers(g, h, dur)
  {
    assert i * dur >= 0;
    assert (n - 1) * dur + dur == n * dur;
    ModUnique((h.open - g.open) * MINUTE, dur, i, 0);
  }

  /** A grid inside another agrees with it. */
  lemma CoveringAgrees(g: Hours, h: Hours, dur: int)
    requires dur > 0 && GridCovers(g, h, dur)
    ensures GridsAgree(g, h, dur)
  {
    if (h.open - g.open) * MINUTE % dur == 0 && (g.open - h.open) * MINUTE % dur != 0 {
      Misaligned(g.open, h.open, dur);
    }
  }

  /** What covers a grid that has a slot has one itself. */
  lemma CoveringHasSlot(g: Hours, h: Hours, dur: int)
    requires dur > 0 && GridCovers(g, h, dur) && (h.close - h.open) * MINUTE >= dur
    ensures (g.close - g.open) * MINUTE >= dur
  {
    TileCount(0, At(0, h.open), At(0, h.close), dur);
    assert At(0, h.close) - At(0, h.open) == (h.close - h.open) * MINUTE;
    var s := DayGrid(0, h, 0, dur)[0];
    CoversExactly(0, 0, g, h, dur);
    assert s in DayGrid(0, g, 0, dur);
  }

  // ---- In the table ----

  /** The hours of the stored schedule, as the background generator reads them back. */
  function ColumnHours(req: ScheduleRequest): Hours
    requires req.open.column.Some? && req.close.column.Some?
  {
    StoredHours(Hours(req.open.column.value, req.close.column.value))
  }

  /** The lane of an accepted request: its schedule row, and its first window as its only slots. */
  ghost predicate Started(created: Db, req: ScheduleRequest, now: Time, window: nat, dur: int, next: Id)
    requires dur > 0 && req.open.column.Some? && req.close.column.Some?
  {
    && SchedulesStored(created) && FreshFrom(created.slots, next) && req.lane in created.schedules
    && StoredHours(created.schedules[req.lane].hours) == ColumnHours(req) && created.schedules[req.lane].days == req.days
    && LaneSlots(created.slots, req.lane) == set s | s in InitialSlots(req, now, window, dur)
  }

  lemma FirstWindow(db: Db, req: ScheduleRequest, now: Time, first: Id, window: nat, dur: int)
    requires dur > 0 && SchedulesStored(db) && SlotsHaveSchedules(db) && FreshFrom(db.slots, first)
    requires CreateSchedule(db, req, now, first, window, dur).Ok?
    ensures Started(CreateSchedule(db, req, now, first, window, dur).value, req, now, window, dur,
                    first + |InitialSlots(req, now, window, dur)|)
  {
    var db1 := InsertSchedule(db, req.lane, req.days, req.open.column, req.close.column).value;
    var slots := InitialSlots(req, now, window, dur);
    var batch := Numbered(first, slots);
    InsertSlotsExact(db1, batch);
    forall s | s in slots ensures s.lane == req.lane {
      InWindow(req.lane, InitialDays(req.days), RequestHours(req), DayOf(now), window, dur, s);
      DayGridInDay(req.lane, RequestHours(req), DayOf(s.start), dur, s);
    }
    BatchAdded(db1, req.lane, batch, slots, first);
    assert LaneSlots(db.slots, req.lane) == {};
  }

  /** Two windows of one lane, on grids that agree, together have no overlap. */
  lemma WindowsApart(lane: Id, p: set<int>, g: Hours, first: int, n: nat, q: set<int>, h: Hours, first2: int, m: nat, dur: int,
                     a: Slot, b: Slot)
    requires dur > 0 && WithinDay(g) && WithinDay(h) && GridsAgree(g, h, dur)
    requires a in WindowSlots(lane, p, g, first, n, dur) && b in WindowSlots(lane, q, h, first2, m, dur)
    ensures Disjoint(a, b)
  {
    InWindow(lane, p, g, first, n, dur, a);
    InWindow(lane, q, h, first2, m, dur, b);
    DayGridInDay(lane, g, DayOf(a.start), dur, a);
    DayGridInDay(lane, h, DayOf(b.start), dur, b);
    if DayOf(a.start) == DayOf(b.start) {
      AgreeingGridsApart(lane, DayOf(a.start), g, h, dur, a, b);
    }
  }

  /** Slots of two windows with a common start are on grids that agree. */
  lemma CommonStartAgrees(lane: Id, p: set<int>, g: Hours, first: int, n: nat, q: set<int>, h: Hours, first2: int, m: nat, dur: int,
                          a: Slot, b: Slot)
    requires dur > 0 && WithinDay(g) && WithinDay(h) && a.start == b.start
    requires a in WindowSlots(lane, p, g, first, n, dur) && b in WindowSlots(lane, q, h, first2, m, dur)
    ensures GridsAgree(g, h, dur)
  {
    InWindow(lane, p, g, first, n, dur, a);
    InWindow(lane, q, h, first2, m, dur, b);
    var day := DayOf(a.start);
    var i := GridIndex(lane, g, day, dur, a);
    var j := GridIndex(lane, h, day, dur, b);
    StepsKeepRemainder(0, j, i, dur);
    assert (g.open - h.open) * MINUTE == 0 + j * dur - i * dur;
  }

  /**
   After `CreateSchedule` and the lane's next batch, for any instants and windows with a due day in
   common, the lane's slots are free of overlap exactly when the two readings of the hours lay
   grids that agree.
   */
  lemma NextBatchOverlapsExactly(db: Db, req: ScheduleRequest, now: Time, first: Id, window: nat, dur: int, created: Db,
                                 later: Time, next: Id, lookahead: nat, day: int)
    requires dur > 0 && SchedulesStored(db) && SlotsHaveSchedules(db) && FreshFrom(db.slots, first)
    requires CreateSchedule(db, req, now, first, window, dur) == Ok(created)
    requires next == first + |InitialSlots(req, now, window, dur)|
    requires DayOf(now) <= day < DayOf(now) + window && DayOf(later) <= day < DayOf(later) + lookahead
    requires Weekday(day) in BackgroundDays(req.days)
    ensures var after := GenerateLane(created, req.lane, later, next, lookahead, dur);
      NoOverlap(LaneSlots(after.slots, req.lane)) <==> GridsAgree(RequestHours(req), ColumnHours(req), dur)
  {
    FirstWindow(db, req, now, first, window, dur);
    NextBatch(created, req, now, window, next, later, lookahead, dur, day);
  }

  lemma NextBatch(created: Db, req: ScheduleRequest, now: Time, window: nat, first: Id, later: Time, lookahead: nat, dur: int, day: int)
    requires dur > 0 && req.open.column.Some? && req.close.column.Some? && Started(created, req, now, window, dur, first)
    requires DayOf(now) <= day < DayOf(now) + window && DayOf(later) <= day < DayOf(later) + lookahead
    requires Weekday(day) in BackgroundDays(req.days)
    ensures var after := GenerateLane(created, req.lane, later, first, lookahead, dur);
      NoOverlap(LaneSlots(after.slots, req.lane)) <==> GridsAgree(RequestHours(req), ColumnHours(req), dur)
  {
    var g, h := RequestHours(req), ColumnHours(req);
    var mine := LaneSlots(created.slots, req.lane);
    GenerateLaneEffect(created, req.lane, later, first, lookahead, dur);
    if GridsAgree(g, h, dur) {
      AgreeingWindows(req, g, h, now, window, later, lookahead, dur);
    } else {
      DisagreeingWindows(req, g, h, now, window, later, lookahead, dur);
      var a, b := OverlapOnDay(req, g, h, now, window, later, lookahead, dur, day);
    }
  }

  lemma AgreeingWindows(req: ScheduleRequest, g: Hours, h: Hours, now: Time, window: nat, later: Time, lookahead: nat, dur: int)
    requires dur > 0 && WithinDay(g) && WithinDay(h) && GridsAgree(g, h, dur)
    ensures var mine := WindowSlots(req.lane, InitialDays(req.days), g, DayOf(now), window, dur);
      var next := WindowSlots(req.lane, BackgroundDays(req.days), h, DayOf(later), lookahead, dur);
      NoOverlap((set s | s in mine) + (set s | s in next))
  {
    var p, q := InitialDays(req.days), BackgroundDays(req.days);
    SameHoursAgree(g, dur);
    SameHoursAgree(h, dur);
    WindowsAllApart(req.lane, p, g, DayOf(now), window, p, g, DayOf(now), window, dur);
    WindowsAllApart(req.lane, p, g, DayOf(now), window, q, h, DayOf(later), lookahead, dur);
    WindowsAllApart(req.lane, q, h, DayOf(later), lookahead, q, h, DayOf(later), lookahead, dur);
    NoOverlapInUnion(WindowSlots(req.lane, p, g, DayOf(now), window, dur), WindowSlots(req.lane, q, h, DayOf(later), lookahead, dur));
  }

  ghost predicate AllApart(s: seq<Slot>, t: seq<Slot>) {
    forall a, b :: a in s && b in t ==> Disjoint(a, b)
  }

  lemma WindowsAllApart(lane: Id, p: set<int>, g: Hours, first: int, n: nat, q: set<int>, h: Hours, first2: int, m: nat, dur: int)
    requires dur > 0 && WithinDay(g) && WithinDay(h) && GridsAgree(g, h, dur)
    ensures AllApart(WindowSlots(lane, p, g, first, n, dur), WindowSlots(lane, q, h, first2, m, dur))
  {
    forall a, b | a in WindowSlots(lane, p, g, first, n, dur) && b in WindowSlots(lane, q, h, first2, m, dur) ensures Disjoint(a, b) {
      WindowsApart(lane, p, g, first, n, q, h, first2, m, dur, a, b);
    }
  }

  lemma NoOverlapInUnion(s: seq<Slot>, t: seq<Slot>)
    requires AllApart(s, s) && AllApart(s, t) && AllApart(t, t)
    ensures NoOverlap((set x | x in s) + (set x | x in t))
  {
  }

  /** On grids that do not agree the batch meets no taken start, so it goes in whole. */
  lemma DisagreeingWindows(req: ScheduleRequest, g: Hours, h: Hours, now: Time, window: nat, later: Time, lookahead: nat, dur: int)
    requires dur > 0 && WithinDay(g) && WithinDay(h) && !GridsAgree(g, h, dur)
    ensures var mine := WindowSlots(req.lane, InitialDays(req.days), g, DayOf(now), window, dur);
      var next := WindowSlots(req.lane, BackgroundDays(req.days), h, DayOf(later), lookahead, dur);
      !Clashes((set s | s in mine), next)
  {
    var p, q := InitialDays(req.days), BackgroundDays(req.days);
    var mine, next := WindowSlots(req.lane, p, g, DayOf(now), window, dur), WindowSlots(req.lane, q, h, DayOf(later), lookahead, dur);
    forall a, b | a in mine && b in next ensures a.start != b.start {
      if a.start == b.start {
        CommonStartAgrees(req.lane, p, g, DayOf(now), window, q, h, DayOf(later), lookahead, dur, a, b);
      }
    }
  }

  lemma OverlapOnDay(req: ScheduleRequest, g: Hours, h: Hours, now: Time, window: nat, later: Time, lookahead: nat, dur: int, day: int)
    returns (a: Slot, b: Slot)
    requires dur > 0 && WithinDay(g) && WithinDay(h) && !GridsAgree(g, h, dur)
    requires DayOf(now) <= day < DayOf(now) + window && DayOf(later) <= day < DayOf(later) + lookahead
    requires Weekday(day) in BackgroundDays(req.days)
    ensures a in WindowSlots(req.lane, InitialDays(req.days), g, DayOf(now), window, dur)
    ensures b in WindowSlots(req.lane, BackgroundDays(req.days), h, DayOf(later), lookahead, dur)
    ensures !Disjoint(a, b)
  {
    a, b := DisagreeingGridsOverlap(req.lane, day, g, h, dur);
    DueDayInitial(req.days, day);
    DayInWindow(req.lane, InitialDays(req.days), g, DayOf(now), window, dur, day, a);
    DayInWindow(req.lane, BackgroundDays(req.days), h, DayOf(later), lookahead, dur, day, b);
  }

  lemma DayInWindow(lane: Id, open: set<int>, hours: Hours, first: int, n: nat, dur: int, day: int, s: Slot)
    requires dur > 0 && WithinDay(hours) && first <= day < first + n && Weekday(day) in open && s in DayGrid(lane, hours, day, dur)
    ensures s in WindowSlots(lane, open, hours, first, n, dur)
  {
    DayGridInDay(lane, hours, day, dur, s);
    InWindow(lane, open, hours, first, n, dur, s);
  }

  /** The first grid of an accepted request holds every slot the later ones will want. */
  predicate CoveringRequest(req: ScheduleRequest, dur: int)
    requires dur > 0
  {
    InOrder(req) ==> GridCovers(RequestHours(req), ColumnHours(req), dur)
  }

  /** An accepted request's two grids agree. */
  predicate AgreeingRequest(req: ScheduleRequest, dur: int)
    requires dur > 0
  {
    InOrder(req) ==> GridsAgree(RequestHours(req), ColumnHours(req), dur)
  }

  /** Opening at "09", read as midnight by Go and stored as nine o'clock, still covers with half-hour slots. */
  lemma BareHourCovers(lane: Id, days: seq<int>)
    ensures var req := ScheduleRequest(lane, days, TimeArg(FromHMToHMS("09"), Some(540)), TimeArg(FromHMToHMS("17:00"), Some(1020)));
      !FaithfulRequest(req) && CoveringRequest(req, 30 * MINUTE)
  {
    AcceptedExactly("09");
    assert "17:00" == TwoDigits(17) + ":" + TwoDigits(0);
    ClockRoundTrip(17, 0, "");
    StoredHoursReadBack(Hours(540, 1020));
    MidnightCoversNine();
  }

  lemma MidnightCoversNine()
    ensures GridCovers(Hours(0, 1020), Hours(540, 1020), 30 * MINUTE)
  {
    assert Reach(Hours(0, 1020), 30 * MINUTE) == 1020 * MINUTE;
    assert Reach(Hours(540, 1020), 30 * MINUTE) == 1020 * MINUTE;
  }

  /** Times the Go parser accepts always cover. */
  lemma FaithfulTimesCover(req: ScheduleRequest, dur: int)
    requires dur > 0 && FaithfulRequest(req)
    ensures CoveringRequest(req, dur)
  {
    if InOrder(req) {
      StoredHoursReadBack(RequestHours(req));
      ModUnique(0, dur, 0, 0);
    }
  }

  /** Times the Go parser accepts always lay one and the same grid. */
  lemma FaithfulTimesAgree(req: ScheduleRequest, dur: int)
    requires dur > 0 && FaithfulRequest(req)
    ensures GridsAgree(RequestHours(req), ColumnHours(req), dur)
  {
    StoredHoursReadBack(RequestHours(req));
    SameHoursAgree(RequestHours(req), dur);
  }

  lemma SameHoursAgree(hours: Hours, dur: int)
    requires dur > 0
    ensures GridsAgree(hours, hours, dur)
  {
    ModUnique(0, dur, 0, 0);
  }

  /** Opening at "9:5", which the table stores as 09:05 and Go's parser refuses, closing at "17:00". */
  function ShortMinuteRequest(lane: Id, days: seq<int>): ScheduleRequest {
    ScheduleRequest(lane, days, TimeArg(FromHMToHMS("9:5"), Some(545)), TimeArg(FromHMToHMS("17:00"), Some(1020)))
  }

  lemma ShortMinuteHours(lane: Id, days: seq<int>)
    ensures var req := ShortMinuteRequest(lane, days);
      RequestHours(req) == Hours(0, 1020) && ColumnHours(req) == Hours(545, 1020)
  {
    AcceptedExactly("9:5");
    assert "17:00" == TwoDigits(17) + ":" + TwoDigits(0);
    ClockRoundTrip(17, 0, "");
    StoredHoursReadBack(Hours(545, 1020));
  }

  lemma FivePastNineAgainstMidnight()
    ensures !GridsAgree(Hours(0, 1020), Hours(545, 1020), 30 * MINUTE)
  {
    assert Reach(Hours(0, 1020), 30 * MINUTE) == 1020 * MINUTE;
    assert Reach(Hours(545, 1020), 30 * MINUTE) == 995 * MINUTE;
  }

  /**
   A concrete input with the deployed half-hour slots: in any tables, for any lane without a schedule,
   that request is accepted, and the lane's next batch puts overlapping slots into the table.
   */
  lemma ShortMinuteOverlaps(db: Db, lane: Id, days: seq<int>, now: Time, first: Id, window: nat,
                            later: Time, next: Id, lookahead: nat, day: int)
    requires SchedulesStored(db) && SlotsHaveSchedules(db) && FreshFrom(db.slots, first)
    requires lane in db.lanes && lane !in db.schedules
    requires DayOf(now) <= day < DayOf(now) + window && DayOf(later) <= day < DayOf(later) + lookahead
    requires Weekday(day) in BackgroundDays(days)
    requires next == first + |InitialSlots(ShortMinuteRequest(lane, days), now, window, 30 * MINUTE)|
    ensures var created := CreateSchedule(db, ShortMinuteRequest(lane, days), now, first, window, 30 * MINUTE);
      created.Ok? && !NoOverlap(LaneSlots(GenerateLane(created.value, lane, later, next, lookahead, 30 * MINUTE).slots, lane))
  {
    var req := ShortMinuteRequest(lane, days);
    ShortMinuteHours(lane, days);
    FivePastNineAgainstMidnight();
    DueDayInitial(days, day);
    CreateScheduleExact(db, req, now, first, window, 30 * MINUTE);
    var created := CreateSchedule(db, req, now, first, window, 30 * MINUTE).value;
    NextBatchOverlapsExactly(db, req, now, first, window, 30 * MINUTE, created, later, next, lookahead, day);
  }
}
