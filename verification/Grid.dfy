/** The time grid both slot generators lay over a window of days. */
module Grid {
  import opened Prelude
  import opened Calendar
  import opened Models

  /** The inner generation loop: slots of length `dur` from `t` on, while they end by `end`. */
  function Tiles(lane: Id, t: Time, end: Time, dur: int): seq<Slot>
    requires dur > 0
    decreases end - t
  {
    if t + dur > end then [] else
      [Slot(lane, t, t + dur)] + Tiles(lane, t + dur, end, dur)
  }

  /** The full grid of one day. */
  function DayGrid(lane: Id, hours: Hours, day: int, dur: int): seq<Slot>
    requires dur > 0
  {
    Tiles(lane, At(day, hours.open), At(day, hours.close), dur)
  }

  /** The day's grid when its weekday is open, nothing otherwise. */
  function DaySlots(lane: Id, open: set<int>, hours: Hours, day: int, dur: int): seq<Slot>
    requires dur > 0
  {
    if Weekday(day) in open then DayGrid(lane, hours, day, dur) else []
  }

  /** The slots of the `n` days from `first` on, day by day. */
  function WindowSlots(lane: Id, open: set<int>, hours: Hours, first: int, n: nat, dur: int): seq<Slot>
    requires dur > 0
  {
    if n == 0 then [] else
      WindowSlots(lane, open, hours, first, n - 1, dur) + DaySlots(lane, open, hours, first + n - 1, dur)
  }

  /** The weekdays `CreateSchedule` opens: its array index maps 7 to 0, Sunday. */
  function InitialDays(days: seq<int>): set<int> {
    set d | d in days :: d % 7
  }

  /** The weekdays the background generator opens: it compares each day with Go's weekday as it is. */
  function BackgroundDays(days: seq<int>): set<int> {
    set d | d in days && 0 <= d < 7
  }

  // ---- Tiling ----

  /**
   The grid is contiguous, starts at `t`, has slots of equal length, ends by `end`,
   and leaves a remainder too short for another slot.
   */
  lemma {:induction false} Tiling(lane: Id, t: Time, end: Time, dur: int)
    requires dur > 0
    ensures var s := Tiles(lane, t, end, dur);
      && (forall k :: 0 <= k < |s| ==> s[k].lane == lane && s[k].end == s[k].start + dur && t <= s[k].start && s[k].end <= end)
      && (|s| > 0 ==> s[0].start == t)
      && (forall k :: 0 < k < |s| ==> s[k].start == s[k - 1].end)
      && end < (if |s| == 0 then t else s[|s| - 1].end) + dur
    decreases end - t
  {
    if t + dur <= end {
      Tiling(lane, t + dur, end, dur);
    }
  }

  /** The k-th tile, in closed form. */
  lemma {:induction false} TileAt(lane: Id, t: Time, end: Time, dur: int, k: nat)
    requires dur > 0 && k < |Tiles(lane, t, end, dur)|
    ensures Tiles(lane, t, end, dur)[k] == Slot(lane, t + k * dur, t + k * dur + dur)
    decreases k
  {
    if k > 0 {
      TileAt(lane, t + dur, end, dur, k - 1);
      assert (k - 1) * dur == k * dur - dur;
    }
  }

  /** The number of tiles is the floor of length over duration. */
  lemma {:induction false} TileCount(lane: Id, t: Time, end: Time, dur: int)
    requires dur > 0
    ensures |Tiles(lane, t, end, dur)| == if end < t then 0 else (end - t) / dur
    decreases end - t
  {
    if t + dur <= end {
      TileCount(lane, t + dur, end, dur);
      DivStep(end - t, dur);
    } else if t <= end {
      DivSmall(end - t, dur);
    }
  }

  lemma DivStep(x: int, d: int)
    requires 0 < d <= x
    ensures x / d == 1 + (x - d) / d
  {
    var q, r := (x - d) / d, (x - d) % d;
    assert x == (q + 1) * d + r;
    DivUnique(x, d, q + 1, r);
  }

  lemma DivSmall(x: int, d: int)
    requires 0 <= x < d
    ensures x / d == 0
  {
    DivUnique(x, d, 0, x);
  }

  lemma DivUnique(x: int, d: int, q: int, r: int)
    requires d > 0 && 0 <= r < d && x == q * d + r
    ensures x / d == q
  {
    var q', r' := x / d, x % d;
    assert x == q' * d + r';
    if q > q' {
      MulGap(q, q', d);
    } else if q < q' {
      MulGap(q', q, d);
    }
  }

  lemma MulGap(a: int, b: int, d: int)
    requires a > b && d > 0
    ensures a * d >= b * d + d
  {
    assert a * d == b * d + (a - b) * d;
    assert (a - b - 1) * d >= 0;
    assert (a - b) * d == (a - b - 1) * d + d;
  }

  /** Two tiles of one grid are the same tile, or one ends before the other starts. */
  lemma {:induction false} TilesDisjoint(lane: Id, t: Time, end: Time, dur: int, a: Slot, b: Slot)
    requires dur > 0 && a in Tiles(lane, t, end, dur) && b in Tiles(lane, t, end, dur)
    ensures a == b || a.end <= b.start || b.end <= a.start
    decreases end - t
  {
    Tiling(lane, t, end, dur);
    var rest := Tiles(lane, t + dur, end, dur);
    Tiling(lane, t + dur, end, dur);
    if a in rest && b in rest {
      TilesDisjoint(lane, t + dur, end, dur, a, b);
    }
  }

  // ---- Days and windows ----

  /** Opening hours that lie inside one day. */
  predicate WithinDay(hours: Hours) {
    0 <= hours.open && hours.close < MINUTES_PER_DAY
  }

  /** No slot of a day's grid crosses the end of its day. */
  lemma DayGridInDay(lane: Id, hours: Hours, day: int, dur: int, s: Slot)
    requires dur > 0 && WithinDay(hours) && s in DayGrid(lane, hours, day, dur)
    ensures s.lane == lane && s.end == s.start + dur
    ensures DayOf(s.start) == day && s.end < Midnight(day + 1)
  {
    Tiling(lane, At(day, hours.open), At(day, hours.close), dur);
    var k :| 0 <= k < |DayGrid(lane, hours, day, dur)| && DayGrid(lane, hours, day, dur)[k] == s;
    DayOfClock(day, s.start);
  }

  /** A slot of the full grid of its own day, which is open. */
  predicate OnOpenDay(lane: Id, open: set<int>, hours: Hours, dur: int, s: Slot)
    requires dur > 0
  {
    Weekday(DayOf(s.start)) in open && s in DayGrid(lane, hours, DayOf(s.start), dur)
  }

  /** A window holds exactly the grid slots of its open days. */
  lemma InWindow(lane: Id, open: set<int>, hours: Hours, first: int, n: nat, dur: int, s: Slot)
    requires dur > 0 && WithinDay(hours)
    ensures s in WindowSlots(lane, open, hours, first, n, dur) <==>
            var day := DayOf(s.start);
            first <= day < first + n && Weekday(day) in open && s in DayGrid(lane, hours, day, dur)
  {
    InOpenDays(lane, open, hours, first, n, dur, s);
  }

  lemma {:induction false} InOpenDays(lane: Id, open: set<int>, hours: Hours, first: int, n: nat, dur: int, s: Slot)
    requires dur > 0 && WithinDay(hours)
    ensures s in WindowSlots(lane, open, hours, first, n, dur) <==>
            first <= DayOf(s.start) < first + n && OnOpenDay(lane, open, hours, dur, s)
  {
    if n > 0 {
      var before: nat, day := n - 1, first + n - 1;
      InOpenDays(lane, open, hours, first, before, dur, s);
      InDaySlots(lane, open, hours, day, dur, s);
      WindowSplits(lane, open, hours, first, before, day, dur, s);
    }
  }

  lemma WindowSplits(lane: Id, open: set<int>, hours: Hours, first: int, n: nat, day: int, dur: int, s: Slot)
    requires dur > 0 && day == first + n
    ensures s in WindowSlots(lane, open, hours, first, n + 1, dur) <==>
            s in WindowSlots(lane, open, hours, first, n, dur) || s in DaySlots(lane, open, hours, day, dur)
  {
  }

  lemma InDaySlots(lane: Id, open: set<int>, hours: Hours, day: int, dur: int, s: Slot)
    requires dur > 0 && WithinDay(hours)
    ensures s in DaySlots(lane, open, hours, day, dur) <==> DayOf(s.start) == day && OnOpenDay(lane, open, hours, dur, s)
  {
    if s in DayGrid(lane, hours, day, dur) {
      DayGridInDay(lane, hours, day, dur, s);
    }
  }

  /** A window's slots are its lane's. */
  lemma {:induction false} WindowLane(lane: Id, open: set<int>, hours: Hours, first: int, n: nat, dur: int)
    requires dur > 0
    ensures forall s :: s in WindowSlots(lane, open, hours, first, n, dur) ==> s.lane == lane
  {
    if n > 0 {
      WindowLane(lane, open, hours, first, n - 1, dur);
      Tiling(lane, At(first + n - 1, hours.open), At(first + n - 1, hours.close), dur);
    }
  }

  ghost predicate Increasing(s: seq<Slot>) {
    forall i, j :: 0 <= i < j < |s| ==> s[i].start < s[j].start
  }

  lemma {:induction false} TilesIncreasing(lane: Id, t: Time, end: Time, dur: int)
    requires dur > 0
    ensures Increasing(Tiles(lane, t, end, dur))
    decreases end - t
  {
    if t + dur <= end {
      TilesIncreasing(lane, t + dur, end, dur);
      Tiling(lane, t + dur, end, dur);
    }
  }

  lemma IncreasingConcat(a: seq<Slot>, b: seq<Slot>)
    requires Increasing(a) && Increasing(b)
    requires forall i, j :: 0 <= i < |a| && 0 <= j < |b| ==> a[i].start < b[j].start
    ensures Increasing(a + b)
  {
  }

  /** A window lists its slots in start order, no start twice. */
  lemma {:induction false} WindowIncreasing(lane: Id, open: set<int>, hours: Hours, first: int, n: nat, dur: int)
    requires dur > 0 && WithinDay(hours)
    ensures Increasing(WindowSlots(lane, open, hours, first, n, dur))
  {
    if n > 0 {
      var before, day := WindowSlots(lane, open, hours, first, n - 1, dur), first + n - 1;
      var today := DaySlots(lane, open, hours, day, dur);
      WindowIncreasing(lane, open, hours, first, n - 1, dur);
      TilesIncreasing(lane, At(day, hours.open), At(day, hours.close), dur);
      forall i, j | 0 <= i < |before| && 0 <= j < |today| ensures before[i].start < today[j].start {
        InWindow(lane, open, hours, first, n - 1, dur, before[i]);
        DayGridInDay(lane, hours, day, dur, today[j]);
        assert before[i].start < Midnight(day) <= today[j].start;
      }
      IncreasingConcat(before, today);
    }
  }

  // ---- Counting ----

  /** How many of the `n` days from `first` on are open. */
  function OpenCount(open: set<int>, first: int, n: nat): nat {
    if n == 0 then 0 else OpenCount(open, first, n - 1) + (if Weekday(first + n - 1) in open then 1 else 0)
  }

  lemma {:induction false} WindowCount(lane: Id, open: set<int>, hours: Hours, first: int, n: nat, dur: int)
    requires dur > 0 && hours.open <= hours.close
    ensures |WindowSlots(lane, open, hours, first, n, dur)|
            == OpenCount(open, first, n) * ((hours.close - hours.open) * MINUTE / dur)
  {
    if n > 0 {
      var day, perDay := first + n - 1, (hours.close - hours.open) * MINUTE / dur;
      WindowCount(lane, open, hours, first, n - 1, dur);
      TileCount(lane, At(day, hours.open), At(day, hours.close), dur);
      assert At(day, hours.close) - At(day, hours.open) == (hours.close - hours.open) * MINUTE;
      assert (OpenCount(open, first, n - 1) + 1) * perDay == OpenCount(open, first, n - 1) * perDay + perDay;
    }
  }

  function Indicator(open: set<int>, w: int): nat {
    if w in open then 1 else 0
  }

  /** Any seven consecutive days meet every weekday once. */
  lemma WeekCount(open: set<int>, first: int)
    requires open <= {0, 1, 2, 3, 4, 5, 6}
    ensures OpenCount(open, first, 7) == |open|
  {
    SevenTerms(open, first);
    SizeByMembers(open, 7);
    assert IndicatorSum(open, 1) == Indicator(open, 0);
    assert IndicatorSum(open, 3) == Indicator(open, 0) + Indicator(open, 1) + Indicator(open, 2);
    assert IndicatorSum(open, 5) == IndicatorSum(open, 3) + Indicator(open, 3) + Indicator(open, 4);
    var w := Weekday(first);
    assert Weekday(first + 1) == (w + 1) % 7;
    assert Weekday(first + 2) == (w + 2) % 7;
    assert Weekday(first + 3) == (w + 3) % 7;
    assert Weekday(first + 4) == (w + 4) % 7;
    assert Weekday(first + 5) == (w + 5) % 7;
    assert Weekday(first + 6) == (w + 6) % 7;
    assert w == 0 || w == 1 || w == 2 || w == 3 || w == 4 || w == 5 || w == 6;
  }

  lemma SevenTerms(open: set<int>, first: int)
    ensures OpenCount(open, first, 7)
        == Indicator(open, Weekday(first)) + Indicator(open, Weekday(first + 1)) + Indicator(open, Weekday(first + 2))
         + Indicator(open, Weekday(first + 3)) + Indicator(open, Weekday(first + 4)) + Indicator(open, Weekday(first + 5))
         + Indicator(open, Weekday(first + 6))
  {
    assert OpenCount(open, first, 0) == 0;
    assert OpenCount(open, first, 1) == Indicator(open, Weekday(first));
    assert OpenCount(open, first, 3) == OpenCount(open, first, 1) + Indicator(open, Weekday(first + 1)) + Indicator(open, Weekday(first + 2));
    assert OpenCount(open, first, 5) == OpenCount(open, first, 3) + Indicator(open, Weekday(first + 3)) + Indicator(open, Weekday(first + 4));
  }

  function IndicatorSum(open: set<int>, n: nat): nat {
    if n == 0 then 0 else IndicatorSum(open, n - 1) + Indicator(open, n - 1)
  }

  lemma {:induction false} SizeByMembers(open: set<int>, n: nat)
    requires forall w :: w in open ==> 0 <= w < n
    ensures |open| == IndicatorSum(open, n)
  {
    if n == 0 {
      assert forall w :: w !in open;
      assert open == {};
    } else {
      var rest := open - {n - 1};
      SizeByMembers(rest, n - 1);
      IndicatorSumSame(open, rest, n - 1);
      assert open == if n - 1 in open then rest + {n - 1} else rest;
    }
  }

  lemma {:induction false} IndicatorSumSame(a: set<int>, b: set<int>, n: nat)
    requires forall w :: 0 <= w < n ==> (w in a <==> w in b)
    ensures IndicatorSum(a, n) == IndicatorSum(b, n)
  {
    if n > 0 {
      IndicatorSumSame(a, b, n - 1);
    }
  }

  lemma {:induction false} WeeksCount(open: set<int>, first: int, k: nat)
    requires open <= {0, 1, 2, 3, 4, 5, 6}
    ensures OpenCount(open, first, 7 * k) == k * |open|
  {
    if k > 0 {
      WeeksCount(open, first, k - 1);
      CountSplit(open, first, 7 * (k - 1), 7);
      WeekCount(open, first + 7 * (k - 1));
      assert k * |open| == (k - 1) * |open| + |open|;
    }
  }

  lemma {:induction false} CountSplit(open: set<int>, first: int, n: nat, m: nat)
    ensures OpenCount(open, first, n + m) == OpenCount(open, first, n) + OpenCount(open, first + n, m)
  {
    if m > 0 {
      CountSplit(open, first, n, m - 1);
    }
  }

  lemma InitialDaysSnoc(days: seq<int>)
    requires days != []
    ensures InitialDays(days) == InitialDays(days[..|days| - 1]) + {days[|days| - 1] % 7}
  {
    var last, rest := days[|days| - 1], days[..|days| - 1];
    forall x | x in InitialDays(days) ensures x in InitialDays(rest) || x == last % 7 {
      var d :| d in days && d % 7 == x;
      var i :| 0 <= i < |days| && days[i] == d;
      if i < |rest| {
        assert rest[i] == d;
        assert d in rest;
      }
    }
    forall x | x in InitialDays(rest) ensures x in InitialDays(days) {
      var d :| d in rest && d % 7 == x;
      assert d in days;
    }
    assert last in days;
  }

  /** Validated days open one weekday each. */
  lemma {:induction false} InitialDaysSize(days: seq<int>)
    requires forall i :: 0 <= i < |days| ==> 1 <= days[i] <= 7
    requires forall i, j :: 0 <= i < j < |days| ==> days[i] != days[j]
    ensures |InitialDays(days)| == |days|
  {
    if days == [] {
      assert InitialDays(days) == {};
    } else {
      var last, rest := days[|days| - 1], days[..|days| - 1];
      InitialDaysSize(rest);
      var before := InitialDays(rest);
      InitialDaysSnoc(days);
      LastDayNew(days);
      assert |before + {last % 7}| == |before| + 1;
    }
  }

  lemma LastDayNew(days: seq<int>)
    requires days != []
    requires forall i :: 0 <= i < |days| ==> 1 <= days[i] <= 7
    requires forall i, j :: 0 <= i < j < |days| ==> days[i] != days[j]
    ensures days[|days| - 1] % 7 !in InitialDays(days[..|days| - 1])
  {
    var last, rest := days[|days| - 1], days[..|days| - 1];
    forall d | d in rest ensures d % 7 != last % 7 {
      var i :| 0 <= i < |rest| && rest[i] == d;
      assert days[i] != last;
    }
  }

  /**
   A window of `k` weeks holds exactly `k` grids for each selected day, whatever day it starts on.
   */
  lemma ExactSlotCount(lane: Id, days: seq<int>, hours: Hours, first: int, k: nat, dur: int)
    requires dur > 0 && ValidDays(days) && hours.open <= hours.close
    ensures |WindowSlots(lane, InitialDays(days), hours, first, 7 * k, dur)|
            == k * |days| * ((hours.close - hours.open) * MINUTE / dur)
  {
    InitialDaysSize(days);
    assert InitialDays(days) <= {0, 1, 2, 3, 4, 5, 6};
    WindowCount(lane, InitialDays(days), hours, first, 7 * k, dur);
    WeeksCount(InitialDays(days), first, k);
  }

  // ---- The two generators ----

  /** Validated days: the background generator opens what `CreateSchedule` opens, less Sunday. */
  lemma BackgroundMissesSunday(days: seq<int>)
    requires ValidDays(days)
    ensures BackgroundDays(days) == InitialDays(days) - {SUNDAY}
  {
    forall d | d in InitialDays(days) - {SUNDAY} ensures d in BackgroundDays(days) {
      var x :| x in days && x % 7 == d;
      assert x != 7;
    }
  }

  /** A day the background generator opens, `CreateSchedule` opens too. */
  lemma DueDayInitial(days: seq<int>, day: int)
    requires Weekday(day) in BackgroundDays(days)
    ensures Weekday(day) in InitialDays(days)
  {
    assert Weekday(day) % 7 in InitialDays(days);
  }

  /** The slots that do not start on a Sunday, in order. */
  function NotOnSunday(s: seq<Slot>): seq<Slot> {
    if s == [] then [] else
      (if Weekday(DayOf(s[0].start)) == SUNDAY then [] else [s[0]]) + NotOnSunday(s[1..])
  }

  lemma {:induction false} NotOnSundayConcat(a: seq<Slot>, b: seq<Slot>)
    ensures NotOnSunday(a + b) == NotOnSunday(a) + NotOnSunday(b)
  {
    if a == [] {
      assert a + b == b;
    } else {
      assert (a + b)[1..] == a[1..] + b;
      NotOnSundayConcat(a[1..], b);
    }
  }

  lemma {:induction false} NotOnSundayUniform(s: seq<Slot>, day: int)
    requires forall x :: x in s ==> DayOf(x.start) == day
    ensures NotOnSunday(s) == if Weekday(day) == SUNDAY then [] else s
  {
    if s != [] {
      assert s[0] in s;
      assert forall x :: x in s[1..] ==> x in s;
      NotOnSundayUniform(s[1..], day);
    }
  }

  /**
   For one schedule and one window, the background generator's slots are those of
   `CreateSchedule` with the Sunday slots crossed out, in the same order.
   */
  lemma {:induction false} GeneratorsAgreeUpToSunday(lane: Id, days: seq<int>, hours: Hours, first: int, n: nat, dur: int)
    requires dur > 0 && ValidDays(days) && WithinDay(hours)
    ensures WindowSlots(lane, BackgroundDays(days), hours, first, n, dur)
            == NotOnSunday(WindowSlots(lane, InitialDays(days), hours, first, n, dur))
  {
    BackgroundMissesSunday(days);
    if n > 0 {
      var day := first + n - 1;
      GeneratorsAgreeUpToSunday(lane, days, hours, first, n - 1, dur);
      var today := DaySlots(lane, InitialDays(days), hours, day, dur);
      NotOnSundayConcat(WindowSlots(lane, InitialDays(days), hours, first, n - 1, dur), today);
      forall x | x in today ensures DayOf(x.start) == day {
        DayGridInDay(lane, hours, day, dur, x);
      }
      NotOnSundayUniform(today, day);
    }
  }

  /** A window has a slot exactly when one of its open days can hold one. */
  lemma {:induction false} WindowEmpty(lane: Id, open: set<int>, hours: Hours, first: int, n: nat, dur: int)
    requires dur > 0
    ensures WindowSlots(lane, open, hours, first, n, dur) == [] <==>
            (hours.close - hours.open) * MINUTE < dur
            || forall day :: first <= day < first + n ==> Weekday(day) !in open
  {
    if n > 0 {
      WindowEmpty(lane, open, hours, first, n - 1, dur);
    }
  }
}
