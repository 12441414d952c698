# StrikeReserve reservation engine: a Dafny model

A model of the bowling-lane booking service: slot generation, the booking table, the availability
cache in front of it, the paginated bookings list and the clock-time text behind a schedule.

## How it is laid out

* `Calendar`, `TimeText`, `Grid` — UTC days as numbers, Go's and PostgreSQL's reading of a clock time,
  and the grid both generators lay over a window of days. `Generated` tells the slots of both in plain
  numbers.
* `Tables`, `Ordering`, `Scheduling`, `Generation`, `Pagination` — the four tables under the
  migration's constraints, and each operation as a function of the tables.
* `Repository`, `Cache`, `Availability`, `ScheduleService`, `SlotGenerator`, `BookingService`,
  `Handler` — the classes of the program, with their fields, loops and updates in place; every method
  is proved equal to the function that specifies it. The one Go `LaneService` is split into its
  reading half (`Availability.Service`) and its writing half (`ScheduleService.Service`).
* `Engine` — the service as a state machine. Each client has a position inside its call; uncommitted
  inserts, updates and schedule rows hold their index entry or lock; the clock moves forward; the
  cache may drop entries or be unreachable; a database call may fail. `Solo` proves that a call nobody
  interrupts can do, and can only do, what the service method does.
* `BookingSafety`, `BookingHistory`, `Answers`, `Progress`, `Windows`, `SlotSafety`, `Passes`,
  `AgreeingRuns`, `Requests`, `Erasure`, `Staleness`, `StaleRows`, `Coherence` — theorems over every run
  of the machine. `Answers` traces every answer back to its call, `Progress` shows that none need wait for ever.
* `TwoGrids`, `StaleHit`, `Scenarios` — where a promise fails, runs that show it, and exactly when it
  holds.

An instant is an integer number of microseconds since 1970-01-01T00:00:00Z. Ids are opaque numbers.

## Where the code and its documents disagree

The model follows the code.

* Sunday: `CreateSchedule` maps day 7 to Go's weekday 0, the background generator compares 7 with 0
  and never generates a Sunday (`Grid.GeneratorsAgreeUpToSunday`).
* README.md:12 of the project promises slots for 14 days ahead. One existing slot rejects a lane's whole
  batch; `Scenarios.RollingWindowHoldsExactly` says for which schedules and lookahead the promise holds,
  `Scenarios.StallingRun` shows it failing, and `SlotSafety.RunHasNoHoles` and `Passes.PassCoversToday`
  are what does hold instead.
* Neither generator invalidates the cache (`StaleHit.GeneratorsLeaveTheCacheBehind`).
* api.yaml's pattern for clock times is not enforced by the handler. A text that PostgreSQL takes and
  Go's parser refuses gives two different grids. Slots of the lane never overlap if and only if the two
  agree (`Scenarios.OverlapExactly`), and the lane never has holes if and only if the first holds every
  slot of the second (`SlotSafety.NoHolesExactly`). The theorems about holes and windows ask the latter
  of the request accepted for the lane, and nothing of other requests or lanes.
* A closing time of 24:00 is a time to PostgreSQL and none to Go's parser, so such a request always fails
  (`Scheduling.UnreadClosingFails`).
* A negative page passes the page check, because it is converted to `uint64` first
  (`Pagination.OnlyPageZeroIsInvalid`, `Pagination.PageMinusOneFails`).
* Booking a past slot is not refused although api.yaml:574 says so: the slot's start plays no part in
  `BookingService.CreateOutcomeExact`.
* `wasChanged` in `Cancel` means "was cancelled already"; the invalidation is skipped in that case only.

## Model

| member | source | states |
|---|---|---|
| AgreeingRuns.SlotsNeverOverlap | app/internal/service/slot_generator.go:120-131 | In every reachable state of every interleaving two slots of one lane never overlap, although the table only forbids equal starts, as long as the request accepted for that lane gives Go and PostgreSQL grids that agree; nothing is asked of refused requests or other lanes. |
| Scenarios.OverlapExactly | app/internal/service/lane.go:160-186 | Exactly: a request that the table takes, for at least one Monday to Saturday, leads to overlapping slots on its lane in some run if and only if its two grids do not agree. |
| Scenarios.OverlapRun | app/internal/service/lane.go:160-186 | Such a run from an empty database: the schedule is created, a pass follows, two slots overlap. |
| Scenarios.ShortMinuteRun | app/internal/models/time.go:14-24 | In particular for opening at "9:5" with the deployed 30-minute slots. |
| AgreeingRuns.RunAgrees | app/internal/service/lane.go:160-186 | The invariant behind it: every slot of such a lane lies, on a selected weekday, on one of two agreeing grids, its first window's or its stored hours'. |
| AgreeingRuns.CoveringLaneAgrees | app/internal/service/lane.go:160-161 | A lane whose accepted request covers its own hours has grids that agree. |
| Requests.RequestWasCalled | app/internal/service/lane.go:128-133 | Whatever schedule a client is about to store, it had called for. |
| Requests.FaithfulRunsQualify | app/internal/models/time.go:22-24 | A lane for which every call carries times the parser accepts qualifies for both conditions, agreeing and covering. |
| SlotSafety.RunHasNoHoles | app/internal/service/slot_generator.go:60-103 | In every reachable state, on a lane whose accepted request covers its own hours (the grid of the request text holds every slot of the grid of the stored columns), if a due day has any slot, every due day from today up to it has its complete grid; nothing is asked of other lanes. |
| SlotSafety.NoHolesExactly | app/internal/service/lane.go:160-186 | Exactly: after a request with a due day from today on in its first window is accepted, the lane never has a hole in the run if and only if that request covers its own hours. |
| TwoGrids.CoversExactly | app/internal/service/slot_generator.go:121-131 | Covering, a test on the two pairs of times, means that on every day every slot of the second grid is a slot of the first. |
| TwoGrids.BareHourCovers | app/internal/models/time.go:14-24 | Opening at "09", refused by Go's parser, still covers with the deployed 30-minute slots. |
| Passes.PassCoversToday | app/internal/service/slot_generator.go:60-103 | After a whole pass within one day, with any conflicts and any database failures on other lanes, today's grid is complete on every covering lane that had a schedule when the pass began, whose own turn met no failure, and for which today is a scheduled Monday to Saturday. |
| Passes.PassCovers | app/internal/service/slot_generator.go:60-103 | The same for the earliest scheduled day of the window when today is not scheduled. |
| SlotSafety.FirstDueDayCovered | app/internal/service/slot_generator.go:79-101 | After one insert attempt on a covering lane, accepted or rejected, the earliest due day of its window has its complete grid. |
| SlotSafety.AttemptInRun | app/internal/service/slot_generator.go:88-101 | On a covering lane an attempt changes nothing if a due day of its window already has a slot, and otherwise adds the window's grid slots and nothing else. |
| SlotSafety.RollingWindowExact | README.md:12 | On a covering lane the lookahead window is complete after an attempt if and only if none of its due days had a slot before or all were complete already. |
| SlotSafety.RollingWindowStalls | README.md:12 | Counterexample family: when one due day of the window has a slot and another has none, the attempt leaves the empty one empty. |
| Scenarios.RollingWindowHoldsExactly | README.md:12 | The promise of a full window, exactly, for any first window and any lookahead: every pass of every run leaves a covering lane's window full if and only if no window of the lookahead's length holds two due days. |
| Scenarios.StallingRun | app/internal/service/slot_generator.go:79-101 | A run from an empty database, without failures, in which a whole pass leaves its window incomplete, for a schedule created on one day and a pass on another with one due day inside the first window and one after it. |
| Scenarios.StallingDays | app/internal/app/di.go:160-168 | For any two due days closer than the lookahead there are such days, whether the lookahead is shorter or longer than the first window. |
| Scenarios.OverAWeekStalls | app/internal/config/config.go:146 | So with the default lookahead of thirty days, with the deployed fourteen, or with any over a week, one scheduled Monday to Saturday breaks the promise. |
| Passes.PassFillsWindow | app/internal/service/slot_generator.go:60-103 | With at most one due day per window, a pass leaves a covering lane's whole window full unless a failure hits that lane's own turn. |
| Passes.RefillOnlyWhenRunOut | app/internal/repository/slot.go:54-59 | An attempt on a covering lane adds slots only if the lane had none left on any due day from today on: the horizon runs out before each refill. |
| SlotSafety.ScheduleCommitSucceeds | app/internal/service/lane.go:196-205 | In every interleaving, whatever the clock texts, a schedule transaction that reached its slot insert is refused by no constraint: it stores the schedule and exactly its first window, and answers success. |
| SlotSafety.RunScheduleInv | app/internal/service/lane.go:135-186 | Every reachable state of every run: slots are only on lanes with a schedule, an uncommitted schedule row can still go in, two of them are on different lanes, and what a generator has read is still stored. |
| SlotSafety.RunLaneInv | app/internal/service/slot_generator.go:60-103 | Every reachable state keeps a covering lane's touched due days full and the lane free of holes from today on. |
| SlotSafety.HeldLaneExists | app/internal/service/lane.go:135-153 | Throughout any run, an uncommitted schedule row is on a lane that exists and has no schedule. |
| BookingSafety.RunInv | migrations/001_init.up.sql:26-63 | Every reachable state of every interleaving satisfies all constraints of the migration, and each client's in-flight insert still has its slot, user and free index entry. |
| BookingSafety.StepKeeps | app/internal/service/booking.go:55-86 | Every single step of any client, failures included, keeps that invariant and moves rows only forward. |
| Engine.StepFrame | app/internal/service/booking.go:55-92 | A step moves only its own client; the tables change only at the commit of a create, a cancel, a schedule or a batch, or when a user or lane is added. |
| Answers.CreateAnswered | app/internal/service/booking.go:43-97 | In every interleaving, with any failures: a create call told that booking b is made has committed exactly that row, active, for its own user and slot, stamped with the beginning of its own transaction, under a new id on a free slot, has changed nothing else, and drops the slot's own key last. Told anything else it has changed nothing, and the slot was absent, or had a committed active booking at that step, or the database failed or refused the user. |
| Answers.CancelAnswered | app/internal/service/booking.go:123-195 | The same for a cancel: told that its booking is cancelled, it is so in the tables when the answer is given, committed and invalidated by this call or found so by it; told anything else the call has changed nothing, and the booking was absent or another user's at that step, or the database failed. |
| Answers.OwnersCancelSucceeds | app/internal/repository/booking.go:73-86 | From call to answer, an owner's cancel of an existing booking that meets no failure is answered with that booking, cancelled by then, however many others cancel it at the same time. |
| Answers.ReadAnswered | app/internal/service/lane.go:88-126 | An availability call never changes the tables; a hit is what the cache, reached, held at that step, any other listing is the call's own query on an existing lane, the lane is reported missing only when it is, and the rest are failures of the database. |
| Answers.ScheduleAnswered | app/internal/service/lane.go:128-207 | A schedule call told that it is made has stored, with that very step, the schedule and exactly its first window for an instant its own clock read, and nothing before; told anything else it has changed nothing. Invalid days are reported exactly when they are so, an existing schedule exactly when the call's first step finds it; one that appears later gives a plain failure. |
| Answers.PassAnswered | app/internal/service/slot_generator.go:60-103 | Whatever fails on its way, a pass ends in one way only. |
| Answers.AnswerHasCall | app/internal/service/booking.go:43-97 | Every answer of every run is the answer to a call of that client which has been under way ever since. |
| Progress.GoesOnExactly | app/internal/repository/booking.go:29-86 | In any state a client inside a call can take its next step if and only if no other client has an uncommitted statement on its slot's index entry, its booking row or its lane's schedule row. |
| Progress.NoDeadlock | app/internal/service/booking.go:55-86 | Whoever is waited for waits for nobody and can go on. |
| Progress.SurroundingsExactly | app/internal/service/slot_generator.go:60-78 | When a call, a failure, a tick, an eviction, a new user or a new lane can happen: a failure exactly where the next statement goes to the database. |
| Progress.CallsAreShort | app/internal/service/slot_generator.go:69-102 | In any interleaving and with any failures a call takes at most four steps of its own (five for a cancel; for a pass three per lane and two more). |
| Progress.EveryCallCanEnd | app/internal/service/booking.go:43-195 | Every run can be continued, by nothing but its clients going on, to a state in which no call is open and every call that was open has been answered. |
| BookingSafety.NeverDoubleBooked | migrations/001_init.up.sql:61-63 | In every reachable state a slot has at most one claim, counting committed active bookings and inserts in flight together. |
| BookingSafety.RowsOnlyMoveForward | app/internal/repository/booking.go:73-86 | Between any two states of a run no row is lost, slots and schedules stay as they are, and the only change to a booking is from active to cancelled. |
| BookingSafety.RunConservation | app/internal/repository/slot.go:123-131 | In every reachable state, for every lane and day, available slots plus active bookings are all slots, the LEFT JOIN has one row per slot, and the listing has strictly increasing starts. |
| BookingHistory.SlotHistory | app/internal/service/booking.go:69-86 | Over any run a slot's bookings open and close in turn, opening first, each closing ending the one just opened and none opening twice; the table's active booking is the one still open. |
| BookingHistory.OnlyItsOwnerEndsABooking | app/internal/service/booking.go:148-176 | A booking that was active and is cancelled later was ended by a committed cancel naming that very booking, by its owner: a delayed cancel of an old booking never frees a slot rebooked under another id. |
| BookingHistory.CancelWasCalled | app/internal/service/booking.go:123-173 | A client about to commit a cancellation had called cancel for that booking and as that user. |
| Erasure.CacheErasure | app/internal/service/lane.go:88-126 | Deleting hits, fills, invalidations and evictions from any interleaving, and letting a reader call when it misses, leaves a run of the cache-free service with the same tables and, for every client, the same answers but for hits. |
| Erasure.StepErased | app/internal/service/booking.go:88-92 | Each step of the cached service is, to the cache-free one, the same step, a miss the reader's call, or no step at all. |
| Staleness.BoundedStaleness | app/internal/service/lane.go:100-125 | In every interleaving a listing is exactly what the query returned at an earlier instant, and its age is below the TTL plus that reader's query-to-Set gap; on a miss it is the caller's own query. |
| Staleness.EntriesWereFilled | app/internal/cache/redis.go:45-54 | Every cache entry in every reachable state is the unmodified query result of one reader, set by that reader with now plus TTL as its expiry, and untouched since. |
| Staleness.CacheFrame | app/internal/service/lane.go:124 | Of all steps of all calls only a reader's last and an invalidation write to the cache, each under its own key. |
| Staleness.CarriedRowsWereQueried | app/internal/service/lane.go:114-124 | Whatever a reader is about to store or return came from its own query, with nothing in between. |
| Staleness.LongBookedNeverListed | app/internal/cache/redis.go:29-58 | A slot booked throughout the last TTL plus the slowest reader's gap is in no answer, even if its invalidation was lost. |
| Coherence.SequentialCoherence | app/internal/service/lane.go:95-125 | With calls that do not overlap and deletes that reach the cache, a listing is the fresh result with the slots inserted since the fill crossed out, in order; it shows no booked slot; and it equals the fresh result if and only if no free slot is newer than the fill. |
| Coherence.EntryAgrees | app/internal/service/booking.go:92 | In such runs an entry agrees with the tables on the slots it has seen for as long as it stays, except between a commit and its own invalidation. |
| Coherence.AmongKept | app/internal/repository/slot.go:127-131 | Restricting the availability query to some slots gives its result with the other slots crossed out, in the same order. |
| Coherence.OtherKeysSpared | app/internal/service/utils.go:5-9 | A change to the bookings of a slot shows under no lane and day but the ones its invalidation key names. |
| Calendar.KeyMatchesWindow | app/internal/service/utils.go:5-9 | A slot is in the availability query's window of a day exactly when that day is its invalidation key. |
| Calendar.AddDays | app/internal/service/lane.go:169-172 | Stepping an instant by whole days moves its UTC day by as many. |
| Calendar.KnownDays | app/internal/service/slot_generator.go:111 | 1970-01-01 was a Thursday, 2024-01-01 a Monday and the day six days later a Sunday. |
| Calendar.QueryWindowExact | app/internal/repository/slot.go:120-121 | The availability query's window of a day is its 86,400,000,000 microseconds. |
| StaleRows.BookedRowExactly | app/internal/service/booking.go:86-92 | Over every interleaving, a slot shown by an entry is booked in a later state if and only if its booking was committed after the query and either before the store, or with an invalidation still to come or lost. |
| StaleRows.StaleRowExactly | app/internal/service/lane.go:114-124 | With deletes that reach the cache and none of the key pending, that is: if and only if a booking of it, still active, was committed between that reader's query and its store. |
| StaleRows.AnswerShowsBookedExactly | app/internal/service/lane.go:100-125 | Every answer of every run, hit or miss, shows a booked slot exactly under that condition. |
| StaleHit.StaleHitPossible | app/internal/service/lane.go:114-125 | From any quiet state with three clients and a free uncached slot there is an interleaving without any failure, every delete successful, that ends with a hit listing a booked slot. |
| Scenarios.StaleHitRun | app/internal/service/lane.go:114-125 | Such a run from an empty database. |
| StaleHit.GeneratorsLeaveTheCacheBehind | app/internal/service/slot_generator.go:88-101 | A committed slot batch leaves the cache as it was, so an entry that was fresh no longer is: it misses the new free slot. |
| TwoGrids.NextBatchOverlapsExactly | app/internal/service/lane.go:160-161 | After `CreateSchedule` and the lane's next batch with a due day in common, the lane is free of overlap if and only if the grid from the request text and the grid from the stored columns agree in one of the listed ways. |
| TwoGrids.AgreeingGridsApart | app/internal/service/slot_generator.go:121-131 | Two grids that agree contain no two different overlapping slots. |
| TwoGrids.DisagreeingGridsOverlap | app/internal/service/slot_generator.go:121-131 | Two grids that do not agree contain a pair of overlapping slots. |
| TwoGrids.FaithfulTimesAgree | app/internal/models/time.go:22-24 | Clock texts the Go parser accepts always give grids that agree. |
| TwoGrids.ShortMinuteOverlaps | app/internal/models/time.go:14-24 | Concrete input with the deployed 30-minute slots: opening at "9:5", stored as 09:05 and refused by Go's parser, is accepted on any lane without a schedule, and the lane's next batch puts overlapping slots into the table. |
| Grid.ExactSlotCount | app/internal/service/lane.go:163-186 | For validated days and a window of 7k days, whatever day it starts on, there are exactly k × days × floor(length / duration) slots. |
| Grid.GeneratorsAgreeUpToSunday | app/internal/service/slot_generator.go:105-133 | For the same window and schedule the background generator's slots are those of `CreateSchedule` with Sundays crossed out, in the same order. |
| Generated.BackgroundSlotExactly | app/internal/service/slot_generator.go:79-133 | A slot is in a pass's batch if and only if n, its start divided by 86,400,000,000 and rounded down, is one of the lookahead days from today on, (n + 3) mod 7 + 1 is among the schedule's days and is not 7, and it is a tile of day n between the stored hours; a schedule that closes at 24:00 has none. |
| Generated.BackgroundDayComplete | app/internal/service/slot_generator.go:105-133 | Conversely, every such day of the window has its whole grid in the batch. |
| Generated.InitialSlotExactly | app/internal/service/lane.go:160-186 | A slot is in the first window if and only if its day n is in it, (n + 3) mod 7 + 1 is among the requested days, 7 included, and it is a tile of day n between the hours Go reads. |
| Generated.InitialDayComplete | app/internal/service/lane.go:163-186 | Conversely, every selected day of the first window has its whole grid in it. |
| Grid.BackgroundMissesSunday | app/internal/service/slot_generator.go:110-115 | For validated days the weekdays the background generator matches are those `CreateSchedule` opens, less Sunday. |
| Grid.Tiling | app/internal/service/lane.go:177-184 | The inner loop's slots are contiguous, of equal length, start at the opening time, end by the closing time and leave a remainder shorter than one slot. |
| Grid.TileCount | app/internal/service/lane.go:177-184 | The loop yields floor(length / duration) slots, none when the times are out of order. |
| Grid.InWindow | app/internal/service/slot_generator.go:83-86 | A slot is in the window's list exactly when its day is in the window, that weekday is open and the slot is on that day's grid. |
| Grid.WindowIncreasing | app/internal/service/slot_generator.go:83-86 | The window's list has strictly increasing starts, so a batch never conflicts with itself. |
| Grid.WindowEmpty | app/internal/service/lane.go:188-194 | No slot is generated exactly when the hours are shorter than a slot or no open weekday falls in the window. |
| Scheduling.CreateScheduleExact | app/internal/service/lane.go:128-207 | For an existing lane without a schedule, the transaction fails exactly when the table refuses the times, the hours as Go reads them are shorter than a slot or no selected weekday is in the window; otherwise it adds exactly the schedule and the window's slots. |
| Scheduling.FaithfulTimesStored | app/internal/models/time.go:22-24 | For times the parser accepts, the table takes them exactly when they are in order, and stores them as they are read. |
| Scheduling.CreateScheduleRefusals | app/internal/service/lane.go:135-151 | In any tables, a missing lane and an existing schedule are reported exactly when they are so, and success only adds rows. |
| Scheduling.WindowFits | app/internal/repository/slot.go:31-62 | A window batch with new ids is accepted exactly when none of its starts is taken on that lane. |
| Scheduling.StoredHoursReadBack | app/internal/models/time.go:31-47 | Hours stored in TIME columns and read back through `Scan` and the parser are the same hours. |
| Scheduling.StoredHoursExactly | app/internal/models/time.go:22-47 | Any stored time reads back as its minute, except 24:00, which reads as midnight. |
| Scheduling.UnreadClosingFails | app/internal/service/lane.go:160-194 | A closing time that Go's parser refuses makes every request fail, whatever PostgreSQL reads. |
| ScheduleService.Service.CreateSchedule | app/internal/service/lane.go:128-207 | The method leaves the tables as the transaction function says on success, and untouched on any error. |
| ScheduleService.ScheduleOutcomeExact | app/internal/handler/handler.go:608-637 | 400 exactly for days that are not one to seven different numbers from 1 to 7, then 404 exactly for a missing lane, 409 exactly for a lane with a schedule, 500 exactly when the table refuses the times, the hours as Go reads them are shorter than a slot or no selected weekday is in the window, and 201 otherwise. |
| ScheduleService.Service.AllowedDays | app/internal/service/lane.go:163-166 | The loop fills the array so that index d is set exactly for the selected weekdays, 7 counted as 0. |
| ScheduleService.Service.AppendDay | app/internal/service/lane.go:177-184 | The inner loop appends exactly the day's tiles, with fresh ids in order. |
| ScheduleService.Service.DayLoop | app/internal/service/lane.go:168-186 | The day loop yields exactly the window's slots of the open days, numbered in order. |
| ScheduleService.Service.BuildInitialSlots | app/internal/service/lane.go:160-186 | The slots built for a request are exactly its window at the instant the clock was read, numbered in order. |
| Generation.GenerateAllIdempotent | app/internal/service/slot_generator.go:69-102 | A second pass over the same lanes on the same UTC day leaves the whole database unchanged. |
| Generation.RepeatedPassIdle | app/internal/service/slot_generator.go:54-56 | The same for two passes one after the other, with the ids they draw. |
| Generation.LanesIndependent | app/internal/service/slot_generator.go:69-102 | After a pass each lane's slots are what its own batch makes of its own earlier slots, whatever happened on other lanes. |
| Generation.GenerateLaneEffect | app/internal/service/slot_generator.go:88-101 | One lane's turn is all or nothing: a clash leaves the database unchanged, otherwise exactly the batch is added, and no other lane changes. |
| SlotGenerator.Generator.GenerateAll | app/internal/service/slot_generator.go:60-103 | The lane loop, clock read per lane, leaves the tables the specification of the pass gives for those instants. |
| SlotGenerator.Generator.GenerateForLane | app/internal/service/slot_generator.go:70-101 | A lane without schedule, with an empty batch or with a refused batch is skipped; else its batch is stored. |
| SlotGenerator.Generator.BuildBatch | app/internal/service/slot_generator.go:79-86 | The day loop collects exactly the lookahead window's slots, numbered in order. |
| SlotGenerator.Generator.BuildSlotsForDay | app/internal/service/slot_generator.go:105-133 | The early exit and the tiling loop give the day's full grid when Go's weekday number is among the schedule's days, and nothing otherwise. |
| Tables.InsertSlotsExact | app/internal/repository/slot.go:31-62 | A batch goes in exactly when no row violates a constraint against the table or the rest of the batch, and then it adds exactly its rows. |
| Tables.ErrorClasses | app/internal/repository/errors.go:31-57 | Which PostgreSQL codes are a conflict, a missing reference and a failed check; all others, and a broken connection, are internal errors. |
| Tables.BookingStatementsKeepConstraints | app/internal/repository/booking.go:29-45 | A booking insert or cancel statement keeps every constraint of the migration. |
| Tables.AvailableExact | app/internal/repository/slot.go:119-160 | The listing holds each free slot of the lane and UTC day once, in strictly increasing start order, and nothing else. |
| Tables.FreeSlotsExact | app/internal/repository/slot.go:126-130 | The LEFT JOIN with `b.id IS NULL` keeps exactly the slots without an active booking. |
| Tables.Conservation | app/internal/repository/slot.go:123-131 | Under the partial unique index, available slots plus active bookings of a lane and day are all its slots, one join row each. |
| Ordering.SortedUnique | app/internal/repository/booking.go:141-146 | An `ORDER BY key, id` listing of a table is the only one there is. |
| Ordering.SortedKeep | app/internal/repository/slot.go:131 | Ordering a part of a table is ordering the table and crossing out the rest. |
| Repository.Database.CreateSlots | app/internal/repository/slot.go:31-62 | All rows of the batch or none, succeeding exactly when the whole batch fits; the first violation is the error. |
| Repository.Database.GetAvailableByLaneAndDate | app/internal/repository/slot.go:119-160 | Going through the slots in start order, each matched on lane, day and an active booking, gives the availability query's result. |
| Repository.Database.HasActiveBooking | app/internal/repository/slot.go:126 | The scan of the bookings finds an active one exactly when the slot is taken. |
| Repository.Database.Cancel | app/internal/repository/booking.go:73-86 | The named row, whatever its status, becomes cancelled; no other row or column changes. |
| Repository.Database.Scan | app/internal/repository/booking.go:141-167 | Scanning the rows in order, past the offset and up to the limit, gives exactly that slice of the listing. |
| Repository.Database.GetActiveByUserID | app/internal/repository/booking.go:89-123 | Going through the joined rows in slot order, each matched on user, status and start, gives the user's upcoming bookings. |
| Repository.UpcomingExact | app/internal/repository/booking.go:90-99 | That listing holds exactly the user's active bookings on slots that start after now, ordered by slot start, none twice. |
| Cache.RedisCache.Set | app/internal/cache/redis.go:45-54 | Replaces that key's entry only; a lookup finds it at every instant before now plus the TTL and at none from then on. |
| Cache.RedisCache.Delete | app/internal/cache/redis.go:56-58 | Removes that key only; no later lookup finds it. |
| Availability.Service.GetAvailableSlots | app/internal/service/lane.go:88-126 | A hit is returned as cached; a miss on an existing lane is the fresh query, then cached; a missing lane is an error and caches nothing. |
| Availability.ReadOutcomeExact | app/internal/service/lane.go:88-126 | A read fails exactly when nothing live is cached for its day and the lane is missing, caching nothing; any fresh answer is repeated, whatever becomes of the tables, until one TTL has passed, and no other key is touched. |
| Availability.Service.Fetch | app/internal/service/lane.go:104-125 | The miss path: not found and an unchanged cache for a missing lane, else the fresh result, stored under the key of its day. |
| Availability.Service.InvalidateSlotsCache | app/internal/service/lane.go:209-214 | Removes the entry of that lane and day and no other. |
| BookingService.Service.Create | app/internal/service/booking.go:43-97 | On success one active row more and the slot's own key dropped from the cache; on error tables and cache untouched. |
| BookingService.Service.Cancel | app/internal/service/booking.go:123-195 | On success the row cancelled and its slot's key dropped, unless it was cancelled already; on error tables and cache untouched. |
| BookingService.CreateOutcomeExact | app/internal/handler/handler.go:116-146 | 404 exactly for a missing slot, 409 exactly when it has an active booking, 500 for a free slot exactly when the user is absent, 201 otherwise, adding exactly one active row; constraints are kept. |
| BookingService.CancelOutcomeExact | app/internal/handler/handler.go:303-327 | 404 exactly for a missing booking, 403 exactly for another user's, 200 otherwise; afterwards the row is cancelled, nothing else changed, and a second cancel changes nothing. |
| BookingService.CancelThenRebook | app/internal/service/booking.go:157-176 | After a cancel anyone can rebook the slot under a new id, and repeating the old cancel then leaves the new booking alone. |
| Solo.CreateAlone | app/internal/service/booking.go:55-92 | From a quiet state the create call can run on its own, starting with that call, to the outcome, tables and cache of the service method. |
| Solo.CreateSettles | app/internal/service/booking.go:55-92 | However the create call runs on its own, it ends there, with the id it was given. |
| Solo.CancelAlone | app/internal/service/booking.go:135-190 | From a quiet state the cancel call can run on its own, starting with that call, to the outcome, tables and cache of the service method. |
| Solo.CancelSettles | app/internal/service/booking.go:135-190 | However the cancel call runs on its own, it ends there. |
| Solo.ReadAlone | app/internal/service/lane.go:88-126 | From a quiet state the availability call can run on its own, starting with that call, to the outcome, tables and cache of the service method. |
| Solo.ReadSettles | app/internal/service/lane.go:88-126 | However the availability call runs on its own, it ends there. |
| Solo.ScheduleAlone | app/internal/service/lane.go:132-206 | From a quiet state the `CreateSchedule` call can run on its own, starting with that call, to the outcome, tables and cache of the service method. |
| Solo.ScheduleSettles | app/internal/service/lane.go:132-206 | However the `CreateSchedule` call runs on its own, it ends there up to the ids of the slots. |
| Solo.GenerateAlone | app/internal/service/slot_generator.go:60-103 | From a quiet state the generation call can run on its own, starting with that call, to the outcome, tables and cache of the service method. |
| Solo.GenerateSettles | app/internal/service/slot_generator.go:60-103 | However the generation call runs on its own, it ends there up to the ids of the slots. |
| Handler.BookingsHandler.GetBookingsList | app/internal/handler/handler.go:178-220 | Defaults, page checks, page minus one and the response for any two signed 64-bit parameters. |
| Pagination.RefusedExactly | app/internal/handler/handler.go:178-196 | For any configured numbers, a given page is refused exactly from 0 up to the smallest page, a given size exactly outside its bounds as a signed number; a missing parameter is never refused. |
| Pagination.AnsweredExactly | app/internal/handler/handler.go:178-220 | For any configured numbers, every other request is answered with the slice at (page - 1) × size modulo 2^64, the defaults standing in for what is missing, or fails exactly when that offset is above a bigint. |
| Pagination.DefaultPage | config.example.yaml:8-14 | Without parameters the answer is the first 20 rows, as page 1 of size 20. |
| Pagination.SizeRefusedExactly | config.example.yaml:8-14 | As deployed, a size is refused exactly when the page is absent or not 0 and the size is outside 1 to 100. |
| Pagination.MissingParameters | config.example.yaml:8-14 | As deployed, a missing page means page 1 and a missing size means 20, whatever the other parameter is. |
| Pagination.PageBounds | app/internal/handler/handler.go:211-219 | No answered page holds more rows than its size, and so never more than 100; it names the page and size asked for and the size of the table. |
| Pagination.WrappedPage | app/internal/handler/handler.go:178-200 | Concrete input: page 2^62 + 1 of size 4 is answered with the first four rows. |
| Pagination.AnswerAt | app/internal/handler/handler.go:178-200 | For any page but 0 and a valid size, the two wrap-arounds amount to one: the answer is the slice at (page - 1) × size modulo 2^64, or a failure above a bigint. |
| Pagination.PageAnswerExact | app/internal/handler/handler.go:178-200 | For every page from 1 and every valid size, the answer is the requested page exactly when the wrapped offset fits a bigint and did not wrap or lies past the end. |
| Pagination.PagesWithinBound | app/internal/handler/handler.go:178-200 | Up to page 2^56 nothing underflows or wraps and the requested page is returned. |
| Pagination.OnlyPageZeroIsInvalid | app/internal/handler/handler.go:179-186 | A page is refused as invalid exactly when it is 0; negative pages pass. |
| Pagination.PageMinusOneFails | app/internal/handler/handler.go:180-181 | Concrete input: page -1 passes the check and fails in the database. |
| Pagination.ListedExact | app/internal/repository/booking.go:141-146 | The listing holds each booking once, by creation time and then id. |
| Pagination.PagesPartition | app/internal/repository/booking.go:145-146 | The first n pages put together are the first n × size rows. |
| Pagination.AllPages | app/internal/repository/booking.go:141-146 | Enough pages put together are the whole listing. |
| Pagination.PageUnchangedExactly | app/internal/repository/booking.go:144-146 | A new booking leaves a page as it was if and only if at least offset + size rows sort before it, or the page lies past the end. |
| Pagination.NewRowListed | app/internal/repository/booking.go:144 | A new booking joins the listing right after the rows that sort before it and moves no other. |
| Pagination.LaterRowKeepsFullPages | app/internal/repository/booking.go:144-146 | In particular a row stamped later than all others changes no full page. |
| Pagination.CancelKeepsPages | app/internal/repository/booking.go:144-146 | A cancel leaves which rows every page holds, and their order, unchanged. |
| TimeText.ClockRoundTrip | app/internal/models/time.go:14-59 | For every minute of the day written HH:MM, parsing gives the minute, `HMTime` the text, and `Scan` of the stored text with any suffix the stored value. |
| TimeText.AcceptedExactly | app/internal/models/time.go:22-24 | The parser accepts a stored request time exactly when the request was H:MM or HH:MM in range. |
| TimeText.AcceptedValue | app/internal/models/time.go:22-24 | Its value: the hour is the decimal number before the colon, the minute the one after it, the second 0, and the grid starts 60 times the one plus the other after midnight. |
| TimeText.OneDigitHour | app/internal/models/time.go:22-24 | For every hour below ten, the text with one hour digit has exactly that hour and minute. |
| TimeText.GridMinuteExactly | app/internal/models/time.go:14-24 | For any request text at all the grid minute is that value, or midnight when the text is refused. |
| TimeText.ParsedExactly | app/internal/models/time.go:22-24 | The parser's whole language with its values: H:MM or HH:MM in range, a colon, two digits of seconds below 60, and nothing or a fraction that does not count. |
| TimeText.ScanKeepsEight | app/internal/models/time.go:31-55 | Reading a text column keeps its first eight characters. |
| TimeText.ResponseTextExact | app/internal/models/time.go:26-28 | The response text is the request text exactly when that has five characters. |

## Left out

- The cache server and its network: modelled as an expiring map that may drop entries and may be unreachable for any step.
- PostgreSQL and the driver: modelled as tables with the migration's constraints, READ COMMITTED statements, atomic transactions and atomic batches; a lock is held from the statement to the commit.
- What PostgreSQL's TIME input makes of a clock text: a parameter of each request (the field `column`), either refused or a minute from 00:00 to 24:00.
- A commit that succeeds while its client sees an error: a failing step of the state machine always rolls back.
- Collisions of generated ids, and the text form of ids: fresh ids are assumed, as UUIDs give them.
- Year, month and day text and time zones other than UTC: days are numbers, and a cache key is its day number; times are read back in UTC.
- A clock that goes backwards and a slot duration changed between restarts: the clock is monotone and the duration one constant of the configuration.
- Instants and durations finer than a microsecond: a slot duration is a whole number of microseconds.
- Lane names, types and flags: a lane is its id and its place in the list; adding a lane may put it anywhere.
- Deleting users, lanes, schedules or slots: the service never does it, so the cascades of the migration are not modelled.
- Concurrent duplicate `CreateSchedule` calls answering 500 instead of 409: the loser is answered with a plain failure.
- The order of a user's bookings that start at the same instant, which the query leaves open: the model lists them by id.
- Offsets or limits above a bigint: taken to be an error of the database.
- `SlotGenerator.Run`, its ticker and shutdown: a pass may start at any time.
- HTTP, role checks, JWT, passwords, user registration, seeding, configuration loading, logging and the generated API code: no property beyond one branch each.
- The in-memory LRU variant of the cache: its behaviour is in a library.
- The other queries and endpoints (slots by lane without a date, lanes list, my bookings response): they would only add easy members.
- Cache.RedisCache.Set: does not model a value that cannot be encoded or an unreachable server; in `Engine` an unreachable server makes the set do nothing.
- TimeText.ResponseTextExact: texts shorter than two characters are excluded, because `HMTime` panics on a stored text under five bytes.
