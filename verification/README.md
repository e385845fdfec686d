# Verified models of the booking, dispatch and billing core

CleanSera takes bookings for cleaning businesses, sends cleaners to them and settles the money.
Its value lies in a few protocols over shared database rows. This project models those protocols in
Dafny and proves what they are for. `dafny verify dfyconfig.toml` checks all of it.

Tables are maps. A `$transaction`, a guarded `updateMany` or a single query is one atomic step.
Where the code was designed for races (slot admission under the lock, recurring replicas, gift-card
redemption, invoice numbering) the model interleaves those steps, with crashes; elsewhere one service
call is one step. Services that change rows step by step are also written as class methods, each
proved to leave the tables exactly as the corresponding step says. Time is integer milliseconds; a
time zone is any function from instants to whole-second offsets.

| file | what it holds |
|---|---|
| `Bookings`, `Capacity` | admission under the per-business lock always leaves a full conflict-free roster |
| `Lifecycle`, `BookingStore` | fifteen operations on bookings, assignment rows and cleaners keep status, rows and check-ins in agreement |
| `Calendar`, `Recurring` | civil dates, wall-clock conversion, schedule advance; replicas lose no visit, and make none twice unless the first was moved |
| `OpeningHours` | three window checks against one quantified specification |
| `PaymentMath`, `PaymentMachine`, `Cancellation`, `GiftCards` | what is due, paid, refunded, kept and given back |
| `Shares`, `Payouts`, `Invoices`, `Inventory` | the payroll, payout, invoice and stock ledgers |
| `Iban`, `Phone`, `Csv` | the check digits, the spellings, the printer and its reader |
| `Sums`, `Text`, `Options` | shared definitions |

## Where the code does not do what it seems to promise

The models follow the code; what it does at these points is stated as a lemma.

- Touching jobs are meant to be fine for every path (`src/lib/assignmentConflicts.js:5-14`), but the staff
  reschedule compares with lte/gte: `Lifecycle.StaffRescheduleRefusesTouchingJobs`, and exactly how much
  stricter it is in `Lifecycle.StaffRescheduleIsStricterByTouching`.
- On the nights the clocks change the repeated hour is converted correctly, but the hour before it is not, nor is the
  hour before the skipped one: `Calendar.AutumnNight`, `Calendar.SpringNight`. `Calendar.ReadsBackIff` says exactly
  which wall times fail, and `Calendar.WallTimeRoundTrip` does so for any zone.
- The price guard looks at PAID and the deposit only. It lets the price change after a part-payment received by hand
  (`PaymentMachine.PriceChangesAfterAPartPayment`, exactly when: `PaymentMachine.PaidTowardsPriceIsFixedIff`) and rise
  while a payment link is open (`PaymentMachine.PriceRiseAfterLinkLeavesDebt`). PAID means nothing due all along a run
  exactly when no link in it is paid for less than is due: `PaymentMachine.PaidUpAllAlongIff`.
- Cancelling a booking while its gift card is being redeemed loses the amount:
  `GiftCards.CancelInFlightLosesTheAmount`; `GiftCards.CardIsConservedIff` says exactly when value is conserved.
- A cancellation fee can exceed the quote: `Cancellation.FeeWithoutQuote`, exactly when: `Cancellation.FeeIsBounded`.
- `nextRunDate` is written without looking at what is stored and can go back; no visit is lost by it:
  `Recurring.NextRunDateCanGoBack`, exactly when: `Recurring.NextRunDateGoesBackIff`.
- A visit moved by the customer can be made again by a slow replica: `Recurring.MovedVisitCanBeMadeAgain`, exactly
  when: `Recurring.NothingMadeTwiceIff`, and only then: `Recurring.NoSecondVisitUnlessMoved`.
- A portal reschedule writes back the status it read before taking the lock. It can undo a cancellation made in between
  (`Capacity.RevivalIsReachable`, `Lifecycle.LateMoveRevives`), undo a confirmation (`Lifecycle.LateMoveUnconfirms`) or
  leave a booking ASSIGNED to nobody (`Capacity.NobodyAssignedIsReachable`). `Capacity.MoveWritesWhatItRead`,
  `Lifecycle.PortalKeepsIff`, `Lifecycle.StepFollowsArrowsIff` and `Lifecycle.StepKeepsEndsAndCheckInsIff` say exactly
  when. Nobody is double-booked by it, whatever it has read: `Lifecycle.NeverDoubleBooked`.
- A portal reschedule that keeps its crew passes the capacity check, but the check counts cleaners for one more waiting
  booking while the write occupies the crew itself: `Capacity.KeptCrewCanStrandABooking`. A dispatcher may likewise give
  a waiting booking's only cleaner away: `Capacity.DispatchCanStrandABooking`. `Capacity.OccupyingKeepsRoster` says when
  either is safe, `Capacity.KeptCrewKeepsRosterIff` and `Capacity.DispatchKeepsRosterIff` exactly when, where nobody
  near it competes.
- Winning one dispute of a booking frees earnings another dispute still holds, and an earning recorded during a dispute
  is not held: `Payouts.WinningOneFreesWhatTheOtherHolds`, exactly when: `Payouts.WithheldIff`.
- A CSV header is never quoted: `Csv.ReadsBackIffHeadersAreBare` says exactly which documents read back.
- The MOD 97-10 check misses three swaps of a letter and a digit: `Iban.SwappedNeighboursAreNoticed`.

## Model

| member | source | states |
|---|---|---|
| Bookings.OverlapsIffShareAnInstant | src/lib/scheduler.js:5-7 | the overlap test holds exactly when two forward windows share an instant, so touching windows do not overlap |
| Capacity.NoOversell | src/modules/widget/widget.service.js:522-588 | in every interleaving of submits, portal moves, confirms, cancellations and aborts in which moves that keep a crew are safe there is a roster: every unassigned booking has an available cleaner from its own candidate list, overlapping ones different cleaners |
| Capacity.UnassignedRunsAreSafe | src/modules/widget/widget.service.js:522-588 | when no booking has a crew, every run is safe: nothing needs to be assumed of submits and moves of unassigned bookings |
| Capacity.OtherWritesAreSafe | src/modules/customerPortal/customerPortal.service.js:335-356 | submits, moves of bookings without a crew and moves that let their crew go are safe in every state |
| Capacity.AdmissionLeavesAFreeCleaner | src/lib/capacity.js:11-26 | a request that passes the count has, against any roster of its competitors, a candidate none of them needs |
| Capacity.PlacementKeepsRoster | src/modules/widget/widget.service.js:564-588 | writing a booking that waits for a crew into a window keeps a roster, given a candidate no competitor uses |
| Capacity.OccupyingKeepsRoster | src/modules/customerPortal/customerPortal.service.js:335-356 | a write that occupies a crew keeps a roster for everyone waiting if each waiting booking near it has, without that crew, more listed cleaners available than competitors |
| Capacity.OccupyingNeedsAnother | src/modules/customerPortal/customerPortal.service.js:335-356 | and only if each of these has another listed cleaner available |
| Capacity.WriteKeepsRoster | src/modules/customerPortal/customerPortal.service.js:335-356 | every locked write keeps a roster, whatever status it writes back: a submit, a move without a crew or one that lets it go always, a move that keeps its crew if that is safe |
| Capacity.WriteKeepsInv | src/lib/bookingLock.js:21-29 | a safe write at the end of the locked section keeps the invariant of all requests in flight, because only one is past waiting |
| Capacity.StatusChangeKeepsRoom | src/modules/bookings/bookings.service.js:231-250 | confirming or cancelling between a request's count and its write leaves its count valid |
| Capacity.StepKeepsInv | src/modules/widget/widget.service.js:66-69 | every database access of every request, writes of kept crews being safe, keeps roster, lock and checks consistent |
| Capacity.MoveWritesWhatItRead | src/modules/customerPortal/customerPortal.service.js:335-355 | after any move the booking is open in its new window, its crew is kept exactly if all of it is free, and it is ASSIGNED to nobody exactly when the read said ASSIGNED and no crew was left |
| Capacity.MoveRevivesACancelledBooking | src/modules/customerPortal/customerPortal.service.js:324-356 | from every idle state with room: read, lock, list, count, cancel, write - and the cancelled booking waits again |
| Capacity.RevivalIsReachable | src/modules/customerPortal/customerPortal.service.js:347-355 | such a run from a concrete idle state with two waiting bookings |
| Capacity.NobodyAssignedIsReachable | src/modules/customerPortal/customerPortal.service.js:335-355 | a run of two moves from a concrete idle state that leaves a booking ASSIGNED without a crew |
| Capacity.KeptCrewKeepsRosterIff | src/modules/customerPortal/customerPortal.service.js:335-356 | where the waiting bookings near its new time have no competitors, a move that keeps its crew keeps a roster exactly when each has another listed cleaner available |
| Capacity.KeptCrewCanStrandABooking | src/modules/customerPortal/customerPortal.service.js:324-356 | a run from a concrete idle state: a move passes the check, keeps its cleaner and strands a waiting booking |
| Capacity.DispatchKeepsRoster | src/modules/dispatch/dispatch.service.js:83-97 | a dispatch keeps a roster for everyone waiting if each waiting booking near it has, without the crew, more listed cleaners available than competitors |
| Capacity.DispatchKeepsRosterIff | src/modules/dispatch/dispatch.service.js:83-97 | where the waiting bookings near it have no competitors, a dispatch keeps a roster exactly when each has another listed cleaner available |
| Capacity.DispatchCanStrandABooking | src/modules/dispatch/dispatch.service.js:83-97 | a concrete roster of two bookings and two cleaners that one dispatch makes impossible |
| Capacity.FindAvailableCleaners | src/lib/scheduler.js:114-130 | the loop lists, exactly once, exactly the cleaners kept by the distance filter who are active, have some shift covering the window, and whose every live booking ends before 30 minutes ahead of it or starts after 30 minutes behind it |
| Capacity.CompetingAreWaitingThen | src/lib/capacity.js:15-24 | what competes is exactly the REQUESTED and CONFIRMED bookings without a crew that share an instant with the window |
| Capacity.SpareIsWhatIsLeft | src/lib/capacity.js:25 | spare capacity and competitors make up the candidates, or the competitors where there are more |
| Capacity.CountPassesIff | src/modules/widget/widget.service.js:564-588 | a request passes the check under the lock exactly when it has listed more cleaners than bookings wait then, a moved booking itself apart; otherwise it writes nothing and gives up the lock |
| Capacity.QuoteGivenIff | src/modules/widget/widget.service.js:522-588 | the check before the lock passes exactly with more available cleaners near enough than bookings waiting then |
| Capacity.WritesTouchOneRow | src/modules/widget/widget.service.js:564-588 | a submit adds one REQUESTED booking without a crew, a move changes its own booking alone, and either frees the lock |
| Capacity.StaffTouchOneStatus | src/modules/bookings/bookings.service.js:231-250 | confirming is for REQUESTED bookings, cancelling for any not completed; each writes that one status and nothing else |
| Capacity.CrewIsFreeMeans | src/modules/customerPortal/customerPortal.service.js:335-346 | the crew is kept exactly when none of it has another live booking at an instant of the new time |
| Lifecycle.NeverDoubleBooked | src/lib/assignmentConflicts.js:14-37 | over every run of all fifteen operations, whatever portal reschedules have read, no cleaner is on two overlapping live bookings |
| Lifecycle.PortalRescheduleKeepsApart | src/modules/customerPortal/customerPortal.service.js:330-356 | a portal reschedule double-books nobody even when it revives a cancelled booking with its crew |
| Lifecycle.EveryRunKeeps | src/lib/bookingStateMachine.js:19-37 | over every run in which portal writes still fit, status fits rows and check-ins |
| Lifecycle.RunsKeepAllAlongIff | src/modules/customerPortal/customerPortal.service.js:347-355 | that condition is exact: the invariant holds all along a run exactly when no portal reschedule in it writes back a status that has stopped fitting |
| Lifecycle.AssignKeeps | src/modules/dispatch/dispatch.service.js:19-108 | assigning (staff or dispatch) a free cleaner keeps status, rows and no double booking |
| Lifecycle.NewRowFits | src/lib/assignmentConflicts.js:14-37 | the overlap query is enough: a new row of a free cleaner clashes with no other live booking |
| Lifecycle.NoNewWork | src/lib/assignmentConflicts.js:4-22 | a step that adds no work, moves no window and revives no cancelled booking double-books nobody, although cancelled bookings keep their rows |
| Lifecycle.RemovalKeeps | src/modules/cleaners/cleaners.service.js:140-170 | deleting any set of unstarted rows of open bookings re-opens exactly those left without a cleaner |
| Lifecycle.ClockInKeeps | src/modules/cleaners/cleaners.service.js:315-358 | a check-in makes an open booking IN_PROGRESS and keeps the invariant |
| Lifecycle.StartingAgainChangesNothing | src/modules/bookings/cleanerBookings.routes.js:176-198 | in reachable states starting a checked-in job writes what is there already |
| Lifecycle.CompleteKeeps | src/modules/bookings/bookings.service.js:322-428 | completion checks everyone out and keeps the invariant |
| Lifecycle.MoveKeepsApart | src/modules/bookings/bookings.service.js:797-818 | a booking may move when each of its remaining cleaners is free at the new time |
| Lifecycle.PortalKeepsIff | src/modules/customerPortal/customerPortal.service.js:335-356 | a portal reschedule with any status read earlier keeps the invariant exactly when it lets the crew go, or nobody started and ASSIGNED was read exactly if there is a crew |
| Lifecycle.FreshReadFits | src/modules/customerPortal/customerPortal.service.js:296-302 | if the status has not changed since it was read, it fits |
| Lifecycle.UnassigningUndoesAssigning | src/modules/dispatch/dispatch.service.js:120-138 | assign then unassign gives back the same tables, except that REQUESTED has become CONFIRMED |
| Lifecycle.ReleaseLeavesNothingUpcoming | src/modules/cleaners/cleaners.service.js:132-203 | after a release no unstarted row of the cleaner is left on a REQUESTED, CONFIRMED or ASSIGNED booking starting at or after now, every other row stays as it was (of others, started, in progress or ended, or begun before now), and the cleaner can be assigned nothing |
| Lifecycle.ReleaseOfBackToBack | src/modules/cleaners/cleaners.service.js:140-170 | released on the 50th from jobs on the 0th and the 100th, a cleaner keeps the first and loses the second, which is CONFIRMED again |
| Lifecycle.FreeMeansNotAtWork | src/lib/assignmentConflicts.js:14-37 | a cleaner is free exactly when they are on no other live booking at any instant of the window |
| Lifecycle.AssignAcceptedIff | src/modules/dispatch/dispatch.service.js:19-108 | an assignment goes through exactly for an open booking and an active cleaner who is on no other live booking at any instant of it |
| Lifecycle.PortalKeepsTheCrewIff | src/modules/customerPortal/customerPortal.service.js:335-346 | a portal reschedule keeps every row exactly when nobody on the crew works elsewhere at an instant of the new time, and lets all go otherwise; other bookings keep theirs |
| Lifecycle.SmallCalls | src/modules/cleaners/cleaners.service.js:389-453 | clocking out stamps one row, a staff reschedule changes one window, reactivating and onboarding make one cleaner ACTIVE, confirming changes REQUESTED alone; nothing else changes |
| Lifecycle.HowItEnds | src/modules/bookings/bookings.service.js:322-428 | cancelling keeps all rows; completing leaves nobody on site, checks out exactly those who had checked in, and changes no row otherwise |
| Lifecycle.StepFollowsArrowsIff | src/lib/bookingStateMachine.js:1-9 | an operation moves a status along the diagram, ASSIGNED to CONFIRMED being the only way back, exactly when it is not a portal reschedule whose read leads back |
| Lifecycle.RunFollowsArrowsIff | src/lib/bookingStateMachine.js:1-9 | and so over runs: every step follows the diagram exactly when every read leads on |
| Lifecycle.LateMoveUnconfirms | src/modules/customerPortal/customerPortal.service.js:347-355 | create, confirm, then a move that had read REQUESTED: the confirmation is gone, though status and rows agree throughout |
| Lifecycle.StepKeepsEndsAndCheckInsIff | src/modules/customerPortal/customerPortal.service.js:346-355 | an operation keeps COMPLETED and CANCELLED final and every check-in exactly when it is not a portal reschedule of a booking ended, or started and let go, since it was read |
| Lifecycle.RunsKeepEndsAndCheckIns | src/lib/bookingStateMachine.js:10-23 | over whole runs without such late reschedules COMPLETED and CANCELLED are final and no check-in is lost |
| Lifecycle.LateMoveRevives | src/modules/customerPortal/customerPortal.service.js:347-355 | create, cancel, then a move that had read REQUESTED: the booking is open again |
| Lifecycle.StaffRescheduleRefusesTouchingJobs | src/modules/bookings/bookings.service.js:797-812 | a state reached by a run from empty tables where staff may not make two jobs touch, though the portal may and the cleaner is free |
| Lifecycle.StaffRescheduleIsStricterByTouching | src/modules/bookings/bookings.service.js:797-812 | for forward windows the staff test holds exactly when the cleaner is free and nothing touches |
| BookingStore.Store.CreateBooking | src/modules/bookings/bookings.service.js:89-170 | leaves the tables as the create step says |
| BookingStore.Store.OnboardCleaner | src/modules/cleaners/cleaners.service.js:31-96 | leaves the tables as the onboard step says; goes through exactly for someone new, or who had left, within the plan limit |
| BookingStore.Store.ReactivateCleaner | src/modules/cleaners/cleaners.service.js:225-233 | leaves the tables as the reactivate step says; goes through exactly for someone suspended, within the plan limit |
| BookingStore.Store.AssignBooking | src/modules/bookings/bookings.service.js:197-229 | leaves the tables as the assign step says and reports acceptance exactly |
| BookingStore.Store.DeleteAssignment | src/modules/dispatch/dispatch.service.js:120-138 | leaves the tables as the unassign step says; goes through exactly for an unstarted row of a booking that has not ended |
| BookingStore.Store.ClockInCleaner | src/modules/cleaners/cleaners.service.js:280-358 | leaves the tables as the clock-in step says; refused exactly for a row never checked in on an ended booking |
| BookingStore.Store.ClockOutCleaner | src/modules/cleaners/cleaners.service.js:389-453 | leaves the tables as the clock-out step says |
| BookingStore.Store.StartJob | src/modules/bookings/cleanerBookings.routes.js:162-204 | leaves the tables as the start step says; refused exactly for an ended booking |
| BookingStore.Store.CompleteBooking | src/modules/bookings/bookings.service.js:322-428 | leaves the tables as the complete step says; refused exactly for a cancelled booking |
| BookingStore.Store.CompleteBookingByCleaner | src/modules/bookings/bookings.service.js:434-508 | checks the cleaner out, and completes exactly when an active cleaner leaves with photos, the booking is not cancelled, and they are the lead or nobody else is still on site |
| BookingStore.Store.RescheduleBooking | src/modules/bookings/bookings.service.js:776-824 | leaves the tables as the staff reschedule step says, going through exactly when every cleaner on it is clear, and never for an ended booking |
| BookingStore.Store.RescheduleMyBooking | src/modules/customerPortal/customerPortal.service.js:296-356 | leaves the tables as the portal reschedule step says, consistent exactly when the status read before the lock still fits; goes through exactly when that status was open and a cleaner can be spared |
| BookingStore.Store.ReleaseCleaner | src/modules/cleaners/cleaners.service.js:132-203 | takes the cleaner off exactly the unstarted rows of open bookings starting at or after now, leaves every other row as it was, re-opens what has lost its last cleaner, and reports exactly the bookings affected |
| BookingStore.Store.TakeOff | src/modules/cleaners/cleaners.service.js:140-170 | deleting rows first and then re-opening bookings one row at a time gives the one-step result |
| BookingStore.Store.ConfirmBooking | src/modules/bookings/bookings.service.js:231-250 | leaves the tables as the confirm step says; refused exactly for a cancelled booking |
| BookingStore.Store.CancelBooking | src/modules/bookings/bookings.service.js:645-774 | leaves the tables as the cancel step says; refused exactly for an ended booking |
| Calendar.DayNumbersFollowCalendar | src/utils/timezone.js:46-50 | day numbers order valid dates as the calendar does |
| Calendar.YearsInClosedForm | src/utils/timezone.js:46-50 | the years up to year y have 365 days each and the leap days of the Gregorian rule, in closed form for all y |
| Calendar.MonthsInClosedForm | src/utils/timezone.js:46-50 | the month starts of any year in closed form: 153 days to five months from March on, 31 to January, 306 from March to the next year |
| Calendar.PartsAreInRange | src/utils/timezone.js:9-32 | the zoned parts are a valid date and a clock in range, in any zone |
| Calendar.PartsSpellOutTheTime | src/utils/timezone.js:9-32 | and they spell out the local time to the second |
| Calendar.NextDate | src/utils/timezone.js:41-47 | the day after a valid date is valid and has the next day number, across month and year ends |
| Calendar.CivilInvertsDayNumber | src/utils/timezone.js:34-39 | reading the date of a valid date's day number gives the date back |
| Calendar.OffsetIsZoneOffset | src/utils/timezone.js:34-39 | rebuilding the wall clock as UTC gives the zone's offset less the milliseconds of the instant, so exactly the offset for whole seconds only |
| Calendar.WallTimeResult | src/utils/timezone.js:46-50 | the converted instant is the wall time less the offset in force at the UTC guess |
| Calendar.WallTimeRoundTrip | src/utils/timezone.js:46-50 | in any zone a wall time reads back exactly when the offset at its UTC reading is the offset that much earlier |
| Calendar.ReadsBackIff | src/utils/timezone.js:46-50 | where a zone changes once, exactly the wall times between the change and the change by the other clock are converted wrongly |
| Calendar.OccursIff | src/utils/timezone.js:46-50 | which wall times occur at all in a zone that changes once |
| Calendar.SkippedTimesNeverReadBack | src/utils/timezone.js:46-50 | a wall time that does not occur never reads back, in any zone |
| Calendar.AutumnNight | src/utils/timezone.js:46-50 | the hour before the repeated one happens once and comes out an hour late; the repeated hour reads back |
| Calendar.SpringNight | src/utils/timezone.js:46-50 | the hour before the skipped one happens once and comes out an hour early; the skipped hour does not occur |
| Calendar.AdvanceStrictlyIncreases | src/utils/timezone.js:77-90 | for every zone bounded by 14 hours, every frequency and start time, the next run is later |
| Calendar.WeeklyLandsWeeksOn | src/utils/timezone.js:77-90 | n weekly (or biweekly) advances land exactly 7n (14n) local days later when each visit stays on its day |
| Calendar.MonthlyLandsMonthsOn | src/utils/timezone.js:82-88 | n monthly advances land n months later on the day left over by every clamp on the way; the month lengths are those of MonthsInClosedForm and YearsInClosedForm |
| Calendar.EndOfJanuaryAdvances | src/utils/timezone.js:82-88 | 31 January is followed by 29 February exactly in years divisible by 400, or by 4 and not by 100, and else by the 28th |
| Calendar.DayAfterMonthsIsTheMinimum | src/utils/timezone.js:85-87 | that day is the minimum of the start day and the length of every month passed through |
| Calendar.VisitIsOnTime | src/utils/timezone.js:72-76 | each such visit shows the schedule's start time exactly when the wall time it is set for reads back |
| Recurring.NoLostVisit | src/workers/recurringWorker.js:119-212 | with any replicas interleaving and crashing, every occurrence before the stored date was passed by a tick that saw it lie past its clock, or lie before its horizon and had no address, saw a live booking of the customer in the way, found the key taken, or booked it with the whole row as specified |
| Recurring.NoDoubleVisit | src/workers/recurringWorker.js:180-198 | each (schedule, start) has at most one booking, cancelled ones included |
| Recurring.AtMostEightAtATime | src/workers/recurringWorker.js:122 | in every run no tick passes more than eight occurrences |
| Recurring.InTheWayMeans | src/workers/recurringWorker.js:154-165 | a row is in the way exactly when it is a live booking of the customer between the occurrence and its end |
| Recurring.CancelledVisitsKeepTheirKey | src/workers/recurringWorker.js:180-198 | a cancelled visit is no longer in the way but still holds its key |
| Recurring.MovesAreOnRecord | src/modules/bookings/bookings.service.js:776-824 | a visit moves, changing its window alone, exactly to a start at which no other row of its schedule holds the key |
| Recurring.NoSecondVisitUnlessMoved | src/workers/recurringWorker.js:180-198 | the replicas make two visits for one occurrence only if the earlier one was moved |
| Recurring.NothingMadeTwiceIff | src/workers/recurringWorker.js:180-198 | over every run each occurrence gets at most one visit exactly when no replica inserts for an occurrence that had its visit and whose key is free again |
| Recurring.MovedVisitCanBeMadeAgain | src/workers/recurringWorker.js:180-198 | from every fresh empty schedule a run in which a moved visit is made again |
| Recurring.InsertKeeps | src/workers/recurringWorker.js:180-198 | inserting, or losing the unique key to another replica, keeps the invariant |
| Recurring.FindConflictKeeps | src/workers/recurringWorker.js:154-178 | skipping for a conflict records a booking that was live and in the way in the version of the table the tick read |
| Recurring.NextRunDateGoesBackIff | src/workers/recurringWorker.js:128-198 | a step sets the stored date back exactly when it passes an occurrence whose successor lies before what is stored |
| Recurring.NextRunDateCanGoBack | src/workers/recurringWorker.js:128-142 | from every fresh schedule a run of two replicas that sets the stored date back |
| Recurring.Table.Handle | src/workers/recurringWorker.js:128-211 | an occurrence is booked exactly when it is not past, there is an address, no live booking of the customer overlaps it and no row, cancelled or not, holds its key; nothing else changes and the keys stay unique |
| Recurring.Table.ProcessSchedule | src/workers/recurringWorker.js:122-212 | the loop ends on the orbit, past the horizon or after eight occurrences; it adds only whole rows as specified, on the orbit within the window, one per count, changes no other row, keeps the keys unique and leaves every occurrence it went through accounted for |
| OpeningHours.IsWithinOpeningHours | src/lib/businessHours.js:33-51 | the two searches decide the two-anchor condition |
| OpeningHours.OnlyTwoDaysMatter | src/lib/businessHours.js:20-26 | a window can contain a booking only if it opens on the booking's local day or the day before |
| OpeningHours.WeekdaysGoRound | src/lib/businessHours.js:33-36 | 1 January 1970 was a Thursday and every day moves the weekday on by one, from Saturday to Sunday |
| OpeningHours.ClosesAtTheNextReading | src/lib/businessHours.js:20-26 | a window closes at the first reading of its closing time after it opens, a whole day later if the two are the same |
| OpeningHours.RoundingIsToTheNearest | src/lib/businessHours.js:37 | a duration is taken to the nearest minute, half a minute up |
| OpeningHours.OpeningHoursAreComplete | src/lib/businessHours.js:33-51 | for aligned bookings, in any zone, the check holds exactly when some day of the right weekday, of all days, has an open window containing the booking |
| OpeningHours.PartsSpellOutDayAndMinute | src/lib/businessHours.js:34-36 | the zoned parts give the local day number and minute the check works with |
| OpeningHours.SlotCovers | src/lib/scheduler.js:28-50 | the loop over two anchors decides whether a shift begun today or yesterday covers the booking |
| OpeningHours.ShiftWindowIsConverted | src/lib/scheduler.js:28-50 | in any zone a shift runs from the conversion of its start time to that of its end time, on the same day if later and otherwise on the next |
| OpeningHours.SlotCoversIsComplete | src/lib/scheduler.js:28-50 | at a fixed offset the check holds exactly when some day of the right weekday, of all days, has a shift containing the booking |
| OpeningHours.HoursAndShiftsAgree | src/lib/scheduler.js:28-50 | opening hours accept a booking exactly when a shift with the same times covers it |
| OpeningHours.Slots | src/modules/widget/widget.service.js:690-719 | the list is exactly the first offers, up to the cap, of all offers row after row; each is on the grid of an open row of the date's weekday, late enough and with room, and passes the opening-hours check if its start reads back; none is missing below the cap |
| OpeningHours.OfferableInOrder | src/modules/widget/widget.service.js:700-717 | the offers of one row are exactly the offerable points of its grid, each once, in increasing order |
| OpeningHours.OfferedSlotsAreOpen | src/modules/widget/widget.service.js:694-716 | a grid point of an open row of the date's weekday passes the opening-hours check when its start reads back |
| OpeningHours.RoundTripsWhenGuessIsRight | src/modules/widget/widget.service.js:702-703 | a slot's start reads back exactly when the offset at its wall time's UTC reading is the offset that much earlier |
| PaymentMath.DueCompletesTheQuote | src/lib/paymentMath.js:12-40 | due, received and gift card make up the quote until overpaid; PAID without a recorded amount owes nothing |
| PaymentMath.PaidIsWhatWasRecorded | src/lib/paymentMath.js:12-40 | received is the paid deposit and what was recorded; for PAID without a record it makes up the quote with the gift card |
| PaymentMath.BuildRefundPlan | src/lib/paymentMath.js:50-68 | items and manual part add up to the refund; the job intent gives exactly what it can, the deposit intent exactly what it can of the rest, and by hand goes only what neither covers |
| PaymentMachine.WhatStepsDoToTheDue | src/modules/bookings/bookings.service.js:266-308 | each payment takes exactly itself off what is due, a receipt marks PAID exactly when nothing is left, and only a price edit can raise what is due |
| PaymentMachine.ReceiptsAddUp | src/modules/bookings/bookings.service.js:266-308 | a receipt with an amount adds that amount; one without leaves paid and gift card at exactly the quote, and PAID |
| PaymentMachine.ReceiptRefusedIff | src/modules/bookings/bookings.service.js:266-285 | refused exactly for a PAID booking, or without an amount where nothing is due |
| PaymentMachine.Desk.RecordGiftCard | src/modules/widget/widget.service.js:218-223 | the amount taken off a gift card comes off what is due |
| PaymentMachine.WebhooksBookAgainstTheirIntent | src/modules/webhooks/stripe.controller.js:198-251 | a webhook's amount is refundable against its own intent and leaves the other payment as it was |
| PaymentMachine.PaidMeansNothingDue | src/modules/webhooks/stripe.controller.js:198-251 | over every run without a price rise after a link, a PAID booking owes nothing |
| PaymentMachine.PaidUpAllAlongIff | src/modules/webhooks/stripe.controller.js:198-215 | PAID means nothing due all along a run exactly when no link in it is paid for less than is due by then |
| PaymentMachine.LinkSettlesIffItCoversTheDue | src/modules/bookings/bookings.service.js:864-884 | a paid link marks PAID, and settles exactly when it was for at least what is due by then |
| PaymentMachine.PriceRiseAfterLinkLeavesDebt | src/modules/bookings/bookings.service.js:181-185 | link for 80, price to 100, link paid: PAID with 20 owed |
| PaymentMachine.PaidTowardsPriceIsFixedIff | src/modules/bookings/bookings.service.js:175-186 | a price someone has paid towards cannot be changed exactly when the booking is PAID or its deposit is paid |
| PaymentMachine.PriceChangesAfterAPartPayment | src/modules/bookings/bookings.service.js:181-185 | 30 of 100 received by hand, then the price becomes 50 |
| PaymentMachine.Desk.MarkPaymentReceived | src/modules/bookings/bookings.service.js:252-320 | a receipt adds exactly itself to what was paid and takes it off what is due, marks PAID exactly when nothing is left, and keeps the invariant |
| PaymentMachine.Desk.CreatePaymentLink | src/modules/bookings/bookings.service.js:854-930 | a link is for exactly what is due; with nothing due the booking is marked PAID and no link is made |
| PaymentMachine.Desk.JobPaymentSucceeded | src/modules/webhooks/stripe.controller.js:198-215 | the first delivery adds the link's amount to what was paid and makes it refundable against its intent, a repeated one changes nothing, and the invariant is kept |
| PaymentMachine.Desk.DepositSucceeded | src/modules/webhooks/stripe.controller.js:238-252 | the first delivery takes the deposit off what is due and makes it refundable against its intent, a repeated one changes nothing, and the invariant is kept |
| PaymentMachine.Desk.UpdatePrice | src/modules/bookings/bookings.service.js:172-195 | refused exactly for a negative price, a PAID booking or a paid deposit; what was received stays, the due follows the price, and the invariant is kept unless the price rises under a link |
| Cancellation.FeeIsBounded | src/lib/cancellationPolicy.js:24-42 | 0 <= fee <= paid for every policy, and the fee exceeds the quote exactly for a flat fee not waived on a booking without a price that was paid for |
| Cancellation.LaterNeverCostsLess | src/lib/cancellationPolicy.js:24-42 | under any policy, cancelling later never costs less |
| Cancellation.WhichFeeIsDue | src/lib/cancellationPolicy.js:24-42 | nothing when waived, without a window or at least windowHours ahead; otherwise the percentage within half a cent or the flat amount, unless the paid amount or a non-zero quote is less |
| Cancellation.FeeWithoutQuote | src/lib/cancellationPolicy.js:36-38 | a flat fee on a booking with a zero quote exceeds the quote |
| Cancellation.SettleCancellation | src/modules/bookings/bookings.service.js:664-717 | which fee is due as in WhichFeeIsDue; for any policy and any failing refunds fee + refunded + failed + manual equals all that was paid; REFUNDED exactly when all of it came back |
| Cancellation.IssueRefunds | src/modules/bookings/bookings.service.js:668-689 | the refund loop counts every item once, as refunded or failed, and stops for no failure |
| GiftCards.CardIsAccountedFor | src/modules/widget/widget.service.js:197-223 | however redemptions and cancellations race, balance + in flight + on live bookings + lost is the card's value, the balance is never negative and no booking takes more than its price |
| GiftCards.CardIsConservedIff | src/modules/bookings/bookings.service.js:720-729 | the card's value is conserved over a run exactly when no amount was recorded on a booking cancelled already |
| GiftCards.StepLosesIffItSpills | src/modules/widget/widget.service.js:218-223 | one step loses value exactly when it records onto a cancelled booking, and then exactly that amount |
| GiftCards.ReadsTheLesser | src/modules/widget/widget.service.js:197-210 | a redemption is for the whole price, or the whole balance when that is less, and exactly when both are positive |
| GiftCards.TakesAllOrNothing | src/modules/widget/widget.service.js:210-217 | the guarded decrement takes the whole amount exactly while the balance covers it |
| GiftCards.RecordsAndGivesBack | src/modules/bookings/bookings.service.js:720-729 | recording writes the amount to its booking alone, and cancelling gives it back up to the card's value |
| GiftCards.ClampDiscardsNothing | src/modules/bookings/bookings.service.js:723-729 | giving back never hits the initial-value clamp, in any reachable state |
| GiftCards.CancelInFlightLosesTheAmount | src/modules/bookings/bookings.service.js:720-729 | a run from a new card - book, read, decrement, cancel, record - that loses exactly the amount taken |
| Shares.ResolveEarningsShares | src/modules/payroll/payroll.service.js:74-90 | every assignment gets its share: all of a solo job, its split, or an even part of what the splits leave |
| Shares.SharesWithinTheJob | src/modules/payroll/payroll.service.js:81-88 | a team shares at most the whole job exactly when splits total at most 100, and exactly the whole job when they make 100 or leave some to someone without a split |
| Shares.ComputeEarningsForBooking | src/modules/payroll/payroll.service.js:102-168 | the loop leaves the rows that adding each payable assignment in turn gives |
| Shares.OnlyPercentagesAreShared | src/modules/payroll/payroll.service.js:133-147 | hourly and flat pay is the same in every team; solo percentages and clocked wages are exact to the nearest cent |
| Shares.SharesAreAsSplit | src/modules/payroll/payroll.service.js:74-90 | a solo job goes to one whatever the split, a split is in hundredths, and those without one get the same |
| Shares.FlatPayIsTheAmount | src/modules/payroll/payroll.service.js:136-147 | in any team a flat wage is the amount itself, and nothing if that is not positive |
| Shares.PercentPayIsToTheCent | src/modules/payroll/payroll.service.js:132-147 | in any team a percentage is of the quote and the share, to the nearest cent |
| Shares.HourlyPayIsToTheCent | src/modules/payroll/payroll.service.js:138-147 | an hourly wage is for the time clocked, to the nearest cent, and nothing without both clock times |
| Shares.RowsAreEarned | src/modules/payroll/payroll.service.js:126-160 | earlier rows stay, every new row is someone's positive pay, and everyone with positive pay has a row |
| Shares.EarningTwiceEarnsOnce | src/modules/payroll/payroll.service.js:92-101 | computing earnings again adds nothing |
| Shares.TeamCostIsBounded | src/modules/payroll/payroll.service.js:133-136 | n cleaners on rates up to V percent add at most V percent of the quote plus n/2 cents |
| Payouts.LedgerStaysConsistent | src/modules/payroll/payroll.service.js:256-288 | over every run an earning has a payout exactly when IN_PAYOUT or PAID, payout totals are sums of their earnings, and each (booking, cleaner) earns once |
| Payouts.SettledMeansAllPaid | src/modules/payroll/payroll.service.js:309-330 | a payout is settled exactly when all of its earnings are paid, and when any is |
| Payouts.RunMovesRows | src/modules/payroll/payroll.service.js:273-288 | no run loses an earning, changes its amount, moves it to another payout or unpays it |
| Payouts.WinningUndoesOpening | src/modules/webhooks/stripe.controller.js:318-325 | an opened dispute leaves nothing of the booking pending, and winning it restores the ledger |
| Payouts.HeldAllAlongIff | src/modules/webhooks/stripe.controller.js:318-325 | a held earning stays held and out of every payout exactly until some dispute of its booking is won |
| Payouts.WithheldIff | src/modules/webhooks/stripe.controller.js:308-325 | nothing of a disputed booking can be paid out, exactly until an earning is recorded during a dispute or one dispute is won while another holds something |
| Payouts.WinningOneFreesWhatTheOtherHolds | src/modules/webhooks/stripe.controller.js:308-325 | a run of two disputes of one booking that frees the earning while one is open |
| Payouts.PayrollSummaryAddsUp | src/modules/payroll/payroll.service.js:185-203 | in every reachable state open payouts total the batched earnings and settled payouts the paid ones |
| Payouts.Total | src/modules/payroll/payroll.service.js:266 | adding up the pending rows in any order gives their sum |
| Payouts.Ledger.Earn | src/modules/payroll/payroll.service.js:124-160 | adds exactly this amount to what is pending for the cleaner, refused exactly when not positive or earned for the booking before |
| Payouts.Ledger.CreatePayout | src/modules/payroll/payroll.service.js:253-300 | the payout holds exactly what was pending for the cleaner and its total, nothing is left pending, and the ledger stays consistent; refused exactly when nothing is pending |
| Payouts.Ledger.MarkPayoutPaid | src/modules/payroll/payroll.service.js:302-335 | afterwards the payout is settled, exactly its earnings are PAID, no total and no other earning has changed, however often it is called |
| Payouts.Ledger.ChargeDispute | src/modules/webhooks/stripe.controller.js:308-325 | a new dispute leaves nothing of the booking pending, a won one nothing held; what is in a payout, of another booking, or lost stays, and the ledger stays consistent |
| Invoices.NumbersAreGapless | src/modules/invoices/invoices.service.js:82-114 | in every interleaving with rollbacks and crashes the committed numbers are exactly 1..lastSequence, one per booking, and every answer is a committed invoice |
| Invoices.NextNumberLeavesNoGap | src/modules/invoices/invoices.service.js:84-89 | one more invoice with the incremented counter leaves no gap |
| Invoices.LoserReturnsTheWinnersInvoice | src/modules/invoices/invoices.service.js:115-123 | after a unique violation the winner's invoice is there to be returned |
| Invoices.SameBookingSameInvoice | src/modules/invoices/invoices.service.js:42-44 | two answers for one booking, at whatever times, are the same number |
| Invoices.IssuedForGood | src/modules/invoices/invoices.service.js:90-114 | no run changes or removes an issued invoice |
| Invoices.UndisturbedIssue | src/modules/invoices/invoices.service.js:82-114 | an issuer's steps alone come to one invoice with the next number and a free lock |
| Invoices.WhoGetsNone | src/modules/invoices/invoices.service.js:42-60 | a booking that cannot be billed is refused exactly when it has no invoice yet, and one that has an invoice is answered with it; neither writes anything |
| Invoices.Register.IssueForBooking | src/modules/invoices/invoices.service.js:42-125 | returns the existing invoice, refuses what cannot be billed, or issues the next number, and stays gapless |
| Inventory.StockEqualsItsLog | src/modules/inventory/inventory.service.js:144-226 | after any requests every quantity is the replay of the log and never negative, and every item's total is the net of its movements |
| Inventory.MovedQuantity | src/modules/inventory/inventory.service.js:180-208 | the two adjustments of a movement change each quantity by what its type says |
| Inventory.WhatEachKindDoes | src/modules/inventory/inventory.service.js:180-208 | purchases and returns add at the destination, usage and write-offs take at the origin, a transfer does both, an adjustment adds at a destination or else takes at the origin |
| Inventory.RefusedIff | src/modules/inventory/inventory.service.js:155-208 | a movement of known stock between named places is refused exactly when it would take more than there is |
| Inventory.TransferKeepsTheTotal | src/modules/inventory/inventory.service.js:193-199 | a transfer, accepted or refused, keeps what there is of every item |
| Inventory.InventoryService.AdjustStock | src/modules/inventory/inventory.service.js:155-178 | refuses exactly when the quantity would fall below zero, and then writes nothing |
| Inventory.InventoryService.MoveStock | src/modules/inventory/inventory.service.js:180-208 | goes through exactly when the movement is acceptable |
| Inventory.InventoryService.CreateMovement | src/modules/inventory/inventory.service.js:144-226 | changes every quantity by what the movement means and appends it to the log; a refusal, midway too, changes neither |
| Iban.Remainder | src/lib/taxIdentifiers.js:25-26 | the streamed remainder is the whole decimal number modulo 97 |
| Iban.NormalizeIban | src/lib/taxIdentifiers.js:20-28 | returns the compact form exactly when it is formatted and its rearranged, expanded number is 1 modulo 97 |
| Iban.ValueIsWeight | src/lib/taxIdentifiers.js:23-24 | the expanded number is what weighing letters by 100 and digits by 10 gives |
| Iban.AcceptedIsCompact | src/lib/taxIdentifiers.js:3 | an accepted IBAN is its own compact form |
| Iban.SeparatorsMakeNoDifference | src/lib/taxIdentifiers.js:3 | a space, dot or hyphen anywhere makes no difference |
| Iban.CaseMakesNoDifference | src/lib/taxIdentifiers.js:3 | nor does a small letter for a capital |
| Iban.WhatIsFormatted | src/lib/taxIdentifiers.js:19-22 | formatted is two letters, two digits and 11 to 30 letters or digits |
| Iban.LettersStandForNumbers | src/lib/taxIdentifiers.js:23-24 | A stands for 10 and so on to Z for 35, in two digits |
| Iban.OneWrongCharacterIsNoticed | src/lib/taxIdentifiers.js:19-28 | no accepted IBAN stays accepted with one digit or one letter changed for another, anywhere |
| Iban.CheckDigitSwapNoticed | src/lib/taxIdentifiers.js:23-27 | swapping the last check digit with the first character of the account is always noticed |
| Iban.SwappedNeighboursAreNoticed | src/lib/taxIdentifiers.js:19-28 | swapping different neighbours anywhere stays accepted exactly for B1, M2 and X3 in the account part; two digits never |
| Iban.CheckDigitsAreUnique | src/lib/taxIdentifiers.js:19-28 | for every country and account exactly one pair of check digits from 02 to 98 is accepted, and which |
| Phone.NormalizeIsIdempotent | src/lib/phone.js:24-53 | normalising twice is normalising once, on every string and configuration |
| Phone.NormalOrUntouched | src/lib/phone.js:24-53 | a result is a plus sign with 8 to 15 digits, or the trimmed input |
| Phone.AnySpellingNormalises | src/lib/phone.js:36-48 | with a 10 to 15 digit number d = cc + n, each of +d, d, 00d and 0n normalises to +d |
| Phone.PlusMayBeLeftOffFromTenDigits | src/lib/phone.js:43-46 | from 8 to 15 digits, d alone normalises to +d exactly when it has at least 10 |
| Phone.BareDigits | src/lib/phone.js:33-52 | digits without a leading zero: up to nine get the country code, from ten on none, and what has then fewer than 8 or more than 15 stays as typed |
| Phone.LeadingZeroMayBeLeftOff | src/lib/phone.js:40-44 | n alone, up to nine digits, normalises like 0n, to +cc n |
| Phone.OtherTextsAreLeftAlone | src/lib/phone.js:18-27 | a text with any other character is only trimmed |
| Phone.WhichCountryCode | src/lib/phone.js:20-22 | a configured code of digits is the country code, and 31 is when nothing is configured |
| Phone.TrunkZeroIsDropped | src/lib/phone.js:29-31 | a bracketed zero after the country code makes no difference |
| Phone.SeparatorsMakeNoDifference | src/lib/phone.js:18-31 | a space, dot or hyphen put inside a number that normalises changes nothing |
| Phone.EverySpellingFindsAll | src/lib/phone.js:55-76 | the lookup variants of each spelling are exactly the four spellings |
| Phone.PhoneLookupVariants | src/lib/phone.js:59-76 | the set built step by step is the set of lookup variants |
| Csv.ToCsv | src/utils/csv.js:6-21 | the text reads back as the first row's headers and every cell exactly when no header needs quoting, and then cell by cell as the value of the row under the header |
| Csv.FieldReads | src/utils/csv.js:10-14 | a printed value, with any quotes, commas and newlines, reads as the value |
| Csv.TableReads | src/utils/csv.js:16-20 | lines joined by newlines read back as the table |
| Csv.TableHoldsTheValues | src/utils/csv.js:6-14 | each cell is the row's value under its header, empty exactly for a missing or empty one |
| Csv.ReadsBackIffHeadersAreBare | src/utils/csv.js:16 | a document reads back whole exactly when no header holds a quote, comma or newline |
| Csv.BadFieldIsLost | src/utils/csv.js:16 | a text that needed quoting, printed bare, never reads as itself |

## Left out

- HTTP routes, validators, authentication, notifications, mail, files and the Stripe SDK: a Stripe call is a yes-or-no parameter.
- Candidate ranking in `findAvailableCleaners`, distance, travel time and geocoding: the distance filter is an arbitrary subset.
- The Redis slot cache and its precomputation: they keep another time base and promise no agreement.
- Real time-zone data: a zone is any offset function; each lemma names what it assumes of it.
- `Date.UTC`'s reading of years 0 to 99 as 1900 to 1999.
- `computeInitialRunDate`: a schedule's first run date is given.
- Parsing of "HH:MM" texts and the date checks before a quote or a reschedule (minimum notice, not in the past).
- Races inside assign, dispatch, staff reschedule, cancel and createPayout, which read outside their write: each is one atomic step here. Of the portal reschedule the status read before the lock is modelled as such.
- Capacity.NoOversell: staff `createBooking`, dispatch and the recurring worker are not steps of that machine, because they write without a capacity check; portal moves that keep their crew are steps, and are assumed to be safe because they need not be (Capacity.KeptCrewCanStrandABooking).
- Capacity.OccupyingKeepsRoster: sufficient, and exact (Capacity.OccupyingKeepsRosterIff) where the waiting bookings near the write have no competitors; in general the question is a list colouring of overlapping intervals, which no simple check decides.
- Check-in details other than the stamps (coordinates, distance, photos beyond their number), and the payment request and review after completion.
- `updatePaymentStatus` and refunds against captured amounts when cash and Stripe receipts are mixed: refund bounds are against recorded amounts.
- Coupons, referral rewards, tips, quote pricing, service areas and VAT splits.
- Shares.TeamCostIsBounded: shares are real numbers, so binary rounding of a share is not modelled; `Math.round` is.
- Payouts.LedgerStaysConsistent: CANCELED payouts and Stripe transfers to cleaners are not modelled; no code path cancels a payout and the transfers are switched off.
- Invoices.NumbersAreGapless: one business; the year in front of the number, snapshots and totals are not modelled.
- Iban.NormalizeIban: upper-casing is that of ASCII letters.
- Recurring.Table.ProcessSchedule: the relation, access and template lookups before the loop are not modelled.
- PaymentMachine.PaidMeansNothingDue: a webhook pays the amount its link was made for; the account check on Stripe events is not modelled.
- Csv.ToCsv: a value is its text; how `String` prints numbers and dates is not modelled.
