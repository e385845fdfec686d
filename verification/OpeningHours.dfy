/** Opening hours, availability shifts and the slot list: three pieces of code that each decide
    whether a booking fits a weekly window that may run past midnight
    (src/lib/businessHours.js, src/lib/scheduler.js, src/modules/widget/widget.service.js).
    Local dates are their day numbers; Calendar shows that dates and day numbers correspond. */
module OpeningHours {
  import opened Calendar

  /** A parsed "HH:MM". */
  datatype WallTime = WallTime(hour: nat, minute: nat)

  function ToMinutes(t: WallTime): nat {
    60 * t.hour + t.minute
  }

  datatype HoursRow = HoursRow(dayOfWeek: int, open: WallTime, close: WallTime, isClosed: bool)

  /** An availability slot of a cleaner; `dayOfWeek` is the day the shift begins. */
  datatype Shift = Shift(dayOfWeek: int, start: WallTime, end: WallTime)

  /** `getUTCDay` of a day number: 1970-01-01 was a Thursday. */
  function Weekday(day: int): int {
    (day + 4) % 7
  }

  /** 0 is Sunday: 1 January 1970 was a Thursday, and every day moves the weekday on by one, after
      Saturday back to Sunday. */
  lemma WeekdaysGoRound(day: int)
    ensures Weekday(DayNumber(1970, 1, 1)) == 4
    ensures 0 <= Weekday(day) <= 6 && Weekday(day + 1) == if Weekday(day) == 6 then 0 else Weekday(day) + 1
  {
  }

  /** A window given by two clock times, in minutes from midnight; it closes the next day when close <= open. */
  function ClosingMinute(open: WallTime, close: WallTime): nat {
    if ToMinutes(close) <= ToMinutes(open) then ToMinutes(close) + 1_440 else ToMinutes(close)
  }

  ghost predicate ClockTimes(open: WallTime, close: WallTime) {
    ToMinutes(open) < 1_440 && ToMinutes(close) <= 1_440
  }

  /** It closes at the first reading of the closing time after opening, a whole day later if the two
      are the same. */
  lemma ClosesAtTheNextReading(open: WallTime, close: WallTime)
    requires ClockTimes(open, close)
    ensures ToMinutes(open) == open.hour * 60 + open.minute
    ensures ToMinutes(open) < ClosingMinute(open, close) <= ToMinutes(open) + 24 * 60
    ensures ClosingMinute(open, close) == close.hour * 60 + close.minute || ClosingMinute(open, close) == (close.hour + 24) * 60 + close.minute
  {
  }

  // ---- the one specification ---------------------------------------------------

  /** The wall-clock stretch [from, to) lies in the window that opens on day `day`. */
  ghost predicate InsideWindow(day: int, open: WallTime, close: WallTime, from: int, to: int) {
    Days(day) + Minutes(ToMinutes(open)) <= from && to <= Days(day) + Minutes(ClosingMinute(open, close))
  }

  /** Some day, of all days there are, has the right weekday and a window containing [from, to). */
  ghost predicate SomeDayCovers(dayOfWeek: int, open: WallTime, close: WallTime, from: int, to: int) {
    exists day: int :: Weekday(day) == dayOfWeek && InsideWindow(day, open, close, from, to)
  }

  /** A window reaches at most into the day after it opens, so only two days can contain a booking. */
  lemma OnlyTwoDaysMatter(day: int, open: WallTime, close: WallTime, from: int, to: int)
    requires ClockTimes(open, close) && from <= to
    requires InsideWindow(day, open, close, from, to)
    ensures day == DayIndex(from) || day == DayIndex(from) - 1
  {
    SplitDay(from);
    assert Minutes(ClosingMinute(open, close)) < Days(2);
  }

  // ---- businessHours.js ----------------------------------------------------------

  /** `Math.round(ms / 60000)`. */
  function RoundToMinutes(ms: int): int {
    (ms + 30_000) / 60_000
  }

  /** To the nearest minute, half a minute up. */
  lemma RoundingIsToTheNearest(ms: int)
    ensures 60_000 * RoundToMinutes(ms) - 30_000 <= ms < 60_000 * RoundToMinutes(ms) + 30_000
  {
  }

  /** `60 * hour + minute` of the parts `getZonedParts` reads. */
  function MinuteOfDay(t: int, z: Zone): int {
    var clock := DayClock(LocalMs(t, z));
    60 * (clock / 3_600_000) + clock % 3_600_000 / 60_000
  }

  predicate OpenToday(r: HoursRow, dow: int, startMin: int, duration: int) {
    && !r.isClosed && r.dayOfWeek == dow
    && startMin >= ToMinutes(r.open) && startMin + duration <= ClosingMinute(r.open, r.close)
  }

  predicate OpenSinceYesterday(r: HoursRow, dow: int, startMin: int, duration: int) {
    && !r.isClosed && r.dayOfWeek == (dow + 6) % 7
    && ClosingMinute(r.open, r.close) > 1_440
    && startMin + 1_440 >= ToMinutes(r.open) && startMin + 1_440 + duration <= ClosingMinute(r.open, r.close)
  }

  ghost predicate WithinOpeningHours(rows: seq<HoursRow>, start: int, end: int, z: Zone) {
    var dow, startMin, duration := Weekday(LocalDay(start, z)), MinuteOfDay(start, z), RoundToMinutes(end - start);
    exists r :: r in rows && (OpenToday(r, dow, startMin, duration) || OpenSinceYesterday(r, dow, startMin, duration))
  }

  method IsWithinOpeningHours(rows: seq<HoursRow>, start: int, end: int, z: Zone) returns (within: bool)
    ensures within == WithinOpeningHours(rows, start, end, z)
  {
    var dow := Weekday(LocalDay(start, z));
    var startMin := MinuteOfDay(start, z);
    var duration := RoundToMinutes(end - start);
    for i := 0 to |rows|
      invariant forall j :: 0 <= j < i ==> !OpenToday(rows[j], dow, startMin, duration)
    {
      if !rows[i].isClosed && rows[i].dayOfWeek == dow {
        if startMin >= ToMinutes(rows[i].open) && startMin + duration <= ClosingMinute(rows[i].open, rows[i].close) {
          assert OpenToday(rows[i], dow, startMin, duration);
          return true;
        }
      }
    }
    for i := 0 to |rows|
      invariant forall j :: 0 <= j < i ==> !OpenSinceYesterday(rows[j], dow, startMin, duration)
    {
      if !rows[i].isClosed && rows[i].dayOfWeek == (dow + 6) % 7 {
        var closeMin := ClosingMinute(rows[i].open, rows[i].close);
        if closeMin > 1_440 && startMin + 1_440 >= ToMinutes(rows[i].open) && startMin + 1_440 + duration <= closeMin {
          assert OpenSinceYesterday(rows[i], dow, startMin, duration);
          return true;
        }
      }
    }
    within := false;
  }

  ghost predicate SomeWindowCovers(rows: seq<HoursRow>, from: int, to: int) {
    exists r :: r in rows && !r.isClosed && SomeDayCovers(r.dayOfWeek, r.open, r.close, from, to)
  }

  lemma MinuteOfAlignedClock(clock: int)
    requires 0 <= clock && clock % 60_000 == 0
    ensures Minutes(60 * (clock / 3_600_000) + clock % 3_600_000 / 60_000) == clock
  {
    assert clock % 3_600_000 % 60_000 == 0;
  }

  lemma AlignedDay(local: int)
    requires local % 60_000 == 0
    ensures DayClock(local) % 60_000 == 0
  {
    assert DayClock(local) == 60_000 * (local / 60_000 - 1_440 * DayIndex(local));
  }

  /** Day number and minute are what the parts of `getZonedParts` spell out. */
  lemma PartsSpellOutDayAndMinute(t: int, z: Zone)
    ensures var p := GetZonedParts(t, z); DayOf(p.date) == LocalDay(t, z) && 60 * p.hour + p.minute == MinuteOfDay(t, z)
  {
  }

  /** The start of a minute-aligned booking, as the opening-hours check sees it. */
  lemma LocalMinute(start: int, z: Zone)
    requires LocalMs(start, z) % 60_000 == 0
    ensures LocalMs(start, z) == Days(LocalDay(start, z)) + Minutes(MinuteOfDay(start, z))
    ensures 0 <= MinuteOfDay(start, z) < 1_440
  {
    var local := LocalMs(start, z);
    SplitDay(local);
    AlignedDay(local);
    MinuteOfAlignedClock(DayClock(local));
  }

  lemma WholeMinutes(ms: int)
    requires ms % 60_000 == 0
    ensures Minutes(RoundToMinutes(ms)) == ms
  {
    assert ms == 60_000 * (ms / 60_000);
  }

  lemma TodayIsThisDay(r: HoursRow, day: int, startMin: int, duration: int)
    requires !r.isClosed
    ensures OpenToday(r, Weekday(day), startMin, duration) <==>
            (Weekday(day) == r.dayOfWeek &&
             InsideWindow(day, r.open, r.close, Days(day) + Minutes(startMin), Days(day) + Minutes(startMin + duration)))
  {
  }

  lemma YesterdayIsTheDayBefore(r: HoursRow, day: int, startMin: int, duration: int)
    requires !r.isClosed && startMin >= 0 && duration > 0
    ensures OpenSinceYesterday(r, Weekday(day), startMin, duration) <==>
            (Weekday(day - 1) == r.dayOfWeek &&
             InsideWindow(day - 1, r.open, r.close, Days(day) + Minutes(startMin), Days(day) + Minutes(startMin + duration)))
  {
    assert Weekday(day - 1) == (Weekday(day) + 6) % 7;
    assert Days(day) == Days(day - 1) + Minutes(1_440);
  }

  lemma RowCheckIsComplete(r: HoursRow, day: int, startMin: int, duration: int)
    requires ClockTimes(r.open, r.close) && !r.isClosed
    requires 0 <= startMin < 1_440 && duration > 0
    ensures OpenToday(r, Weekday(day), startMin, duration) || OpenSinceYesterday(r, Weekday(day), startMin, duration) <==>
            SomeDayCovers(r.dayOfWeek, r.open, r.close, Days(day) + Minutes(startMin), Days(day) + Minutes(startMin + duration))
  {
    var from, to := Days(day) + Minutes(startMin), Days(day) + Minutes(startMin + duration);
    TodayIsThisDay(r, day, startMin, duration);
    YesterdayIsTheDayBefore(r, day, startMin, duration);
    if SomeDayCovers(r.dayOfWeek, r.open, r.close, from, to) {
      var d: int :| Weekday(d) == r.dayOfWeek && InsideWindow(d, r.open, r.close, from, to);
      OnlyTwoDaysMatter(d, r.open, r.close, from, to);
      DayAndClock(from, day, Minutes(startMin));
    }
  }

  /** The two-anchor test of `isWithinOpeningHours` finds a window on any day there is, in any zone. */
  lemma OpeningHoursAreComplete(rows: seq<HoursRow>, start: int, end: int, z: Zone)
    requires forall r :: r in rows ==> ClockTimes(r.open, r.close)
    requires LocalMs(start, z) % 60_000 == 0 && (end - start) % 60_000 == 0 && start < end
    ensures WithinOpeningHours(rows, start, end, z) <==>
            SomeWindowCovers(rows, LocalMs(start, z), LocalMs(start, z) + (end - start))
  {
    var day, startMin, duration := LocalDay(start, z), MinuteOfDay(start, z), RoundToMinutes(end - start);
    LocalMinute(start, z);
    WholeMinutes(end - start);
    forall r | r in rows && !r.isClosed
      ensures OpenToday(r, Weekday(day), startMin, duration) || OpenSinceYesterday(r, Weekday(day), startMin, duration) <==>
              SomeDayCovers(r.dayOfWeek, r.open, r.close, LocalMs(start, z), LocalMs(start, z) + (end - start))
    {
      RowCheckIsComplete(r, day, startMin, duration);
    }
  }

  // ---- scheduler.js: slotCovers ---------------------------------------------------

  /** The instants between which the shift that begins on day `day` runs. */
  function ShiftWindow(s: Shift, day: int, z: Zone): (int, int) {
    var start := InstantOf(day, s.start.hour, s.start.minute, z);
    var end := InstantOf(day, s.end.hour, s.end.minute, z);
    (start, if end <= start then InstantOf(day + 1, s.end.hour, s.end.minute, z) else end)
  }

  predicate ShiftFromCovers(s: Shift, day: int, start: int, end: int, z: Zone) {
    && Weekday(day) == s.dayOfWeek
    && ShiftWindow(s, day, z).0 <= start && end <= ShiftWindow(s, day, z).1
  }

  /** In any zone: from the conversion of the start time on that day to the conversion of the end time,
      on that day if it comes later, and otherwise on the next. Where these wall times read back, the
      clock shows them at both ends. */
  lemma ShiftWindowIsConverted(s: Shift, day: int, z: Zone)
    ensures var start, end := Days(day) + Minutes(60 * s.start.hour + s.start.minute), Days(day) + Minutes(60 * s.end.hour + s.end.minute);
            var next := end + 86_400_000;
            var (from, to) := ShiftWindow(s, day, z);
            && from == start - Seconds(z(start))
            && to == (if end - Seconds(z(end)) > from then end - Seconds(z(end)) else next - Seconds(z(next)))
            && (ReadsBack(start, z) ==> LocalMs(from, z) == start)
            && (ReadsBack(end, z) && ReadsBack(next, z) ==> LocalMs(to, z) == end || LocalMs(to, z) == next)
  {
  }

  /** A shift that begins on the booking's local day, or on the day before, covers it. */
  predicate ShiftCovers(s: Shift, start: int, end: int, z: Zone) {
    ShiftFromCovers(s, LocalDay(start, z), start, end, z) || ShiftFromCovers(s, LocalDay(start, z) - 1, start, end, z)
  }

  method SlotCovers(s: Shift, start: int, end: int, z: Zone) returns (covers: bool)
    ensures covers == ShiftCovers(s, start, end, z)
  {
    var local := LocalDay(start, z);
    var dayOffset := 0;
    covers := false;
    while dayOffset >= -1 && !covers
      invariant -2 <= dayOffset <= 0
      invariant dayOffset == 0 ==> !covers
      invariant dayOffset == -1 ==> covers == ShiftFromCovers(s, local, start, end, z)
      invariant dayOffset == -2 ==> covers == ShiftCovers(s, start, end, z)
      decreases dayOffset + 2
    {
      var day := local + dayOffset;
      if Weekday(day) == s.dayOfWeek {
        var (from, to) := ShiftWindow(s, day, z);
        covers := start >= from && end <= to;
      }
      dayOffset := dayOffset - 1;
    }
  }

  ghost predicate FixedOffset(z: Zone, o: int) {
    forall t: int :: z(t) == o
  }

  /** At a fixed offset a shift's window is the wall-clock window, shifted by the offset. */
  lemma ShiftDayIsAWindow(s: Shift, day: int, start: int, end: int, z: Zone, o: int)
    requires FixedOffset(z, o)
    ensures ShiftFromCovers(s, day, start, end, z) <==> ShiftWindowHolds(s, day, start + Seconds(o), end + Seconds(o))
  {
  }

  ghost predicate ShiftWindowHolds(s: Shift, day: int, from: int, to: int) {
    Weekday(day) == s.dayOfWeek && InsideWindow(day, s.start, s.end, from, to)
  }

  lemma ShiftCoversAsWindows(s: Shift, start: int, end: int, z: Zone, o: int)
    requires FixedOffset(z, o)
    ensures var from, to := start + Seconds(o), end + Seconds(o);
            && LocalMs(start, z) == from && LocalMs(end, z) == to
            && (ShiftCovers(s, start, end, z) <==>
                ShiftWindowHolds(s, DayIndex(from), from, to) || ShiftWindowHolds(s, DayIndex(from) - 1, from, to))
  {
    var day := DayIndex(start + Seconds(o));
    assert LocalMs(start, z) == start + Seconds(o);
    ShiftDayIsAWindow(s, day, start, end, z, o);
    ShiftDayIsAWindow(s, day - 1, start, end, z, o);
  }

  /** The two anchors of `slotCovers` find a shift on any day there is. */
  lemma SlotCoversIsComplete(s: Shift, start: int, end: int, z: Zone, o: int)
    requires ClockTimes(s.start, s.end) && FixedOffset(z, o) && start <= end
    ensures ShiftCovers(s, start, end, z) <==>
            SomeDayCovers(s.dayOfWeek, s.start, s.end, LocalMs(start, z), LocalMs(end, z))
  {
    ShiftCoversAsWindows(s, start, end, z, o);
    TwoDaysAreEnough(s, start + Seconds(o), end + Seconds(o));
  }

  lemma TwoDaysAreEnough(s: Shift, from: int, to: int)
    requires ClockTimes(s.start, s.end) && from <= to
    ensures ShiftWindowHolds(s, DayIndex(from), from, to) || ShiftWindowHolds(s, DayIndex(from) - 1, from, to) <==>
            SomeDayCovers(s.dayOfWeek, s.start, s.end, from, to)
  {
    if SomeDayCovers(s.dayOfWeek, s.start, s.end, from, to) {
      var d: int :| Weekday(d) == s.dayOfWeek && InsideWindow(d, s.start, s.end, from, to);
      OnlyTwoDaysMatter(d, s.start, s.end, from, to);
    }
  }

  /** The business and its cleaners read the same hours the same way: opening hours accept
      a booking exactly when a cleaner with that shift covers it. */
  lemma HoursAndShiftsAgree(r: HoursRow, start: int, end: int, z: Zone, o: int)
    requires ClockTimes(r.open, r.close) && !r.isClosed && FixedOffset(z, o)
    requires LocalMs(start, z) % 60_000 == 0 && (end - start) % 60_000 == 0 && start < end
    ensures WithinOpeningHours([r], start, end, z) <==>
            ShiftCovers(Shift(r.dayOfWeek, r.open, r.close), start, end, z)
  {
    OpeningHoursAreComplete([r], start, end, z);
    SlotCoversIsComplete(Shift(r.dayOfWeek, r.open, r.close), start, end, z, o);
    assert r in [r];
  }

  // ---- widget.service.js: slots ----------------------------------------------------

  datatype Offer = Offer(start: int, end: int, available: int)

  /** What the slot list is asked for: the instant of each minute of the asked-for date (the
      grid may run past midnight), the slot length, a cap, the earliest bookable instant, and
      the spare capacity of a window. */
  datatype Query = Query(startOf: int -> int, slotLen: nat, limit: nat, earliest: int, spareAt: (int, int) -> int)

  /** The instants of a local day in a zone. */
  function StartsOn(day: int, z: Zone): int -> int {
    mins => InstantOf(day, mins / 60, mins % 60, z)
  }

  function OfferAt(q: Query, mins: int): Offer {
    var start := q.startOf(mins);
    Offer(start, start + Minutes(q.slotLen), q.spareAt(start, start + Minutes(q.slotLen)))
  }

  /** `mins` is a grid point of the window: a whole number of steps after opening, ending by closing time. */
  ghost predicate OnGrid(r: HoursRow, slotLen: nat, mins: int) {
    && ToMinutes(r.open) <= mins && (mins - ToMinutes(r.open)) % 30 == 0
    && mins + slotLen <= ClosingMinute(r.open, r.close)
  }

  ghost predicate Offerable(q: Query, r: HoursRow, mins: int) {
    OnGrid(r, q.slotLen, mins) && OfferAt(q, mins).start >= q.earliest && OfferAt(q, mins).available > 0
  }

  /** An offer the list may contain: an open row of the date's weekday has it on its grid. */
  ghost predicate Justified(q: Query, rows: seq<HoursRow>, o: Offer) {
    exists r, mins: int :: r in rows && Offerable(q, r, mins) && o == OfferAt(q, mins)
  }

  ghost predicate Lists(q: Query, r: HoursRow, upTo: int, out: seq<Offer>) {
    forall mins: int :: mins < upTo && Offerable(q, r, mins) ==> OfferAt(q, mins) in out
  }

  /** The rows the slot list is made from: those of the date's weekday that are not closed. */
  predicate OpenOn(r: HoursRow, day: int) {
    !r.isClosed && r.dayOfWeek == Weekday(day)
  }

  function RowsOn(all: seq<HoursRow>, day: int): seq<HoursRow> {
    if all == [] then [] else (if OpenOn(all[0], day) then [all[0]] else []) + RowsOn(all[1..], day)
  }

  lemma {:induction false} RowsOnAreOpen(all: seq<HoursRow>, day: int)
    ensures forall r :: r in RowsOn(all, day) <==> r in all && OpenOn(r, day)
  {
    if all != [] {
      RowsOnAreOpen(all[1..], day);
      assert all == [all[0]] + all[1..];
    }
  }

  /** An offer is a grid point of an open row of the date's weekday, late enough and with room; and
      the opening-hours check accepts it if its start reads back as the wall time it was made from. */
  ghost predicate Offered(q: Query, day: int, z: Zone, all: seq<HoursRow>, o: Offer) {
    exists r, mins: nat ::
      && r in all && OpenOn(r, day) && Offerable(q, r, mins) && o == OfferAt(q, mins)
      && (q.slotLen > 0 && ClockTimes(r.open, r.close) && RoundTrips(day, z, mins) ==> WithinOpeningHours(all, o.start, o.end, z))
  }

  lemma JustifiedIsOffered(q: Query, day: int, z: Zone, all: seq<HoursRow>, o: Offer)
    requires q.startOf == StartsOn(day, z) && Justified(q, RowsOn(all, day), o)
    ensures Offered(q, day, z, all, o)
  {
    RowsOnAreOpen(all, day);
    var r, mins: int :| r in RowsOn(all, day) && Offerable(q, r, mins) && o == OfferAt(q, mins);
    if q.slotLen > 0 && ClockTimes(r.open, r.close) && RoundTrips(day, z, mins) {
      OfferedSlotsAreOpen(q, day, z, r, all, mins);
    }
  }

  // ---- the list itself: all offers in order, cut off at the cap

  /** The minutes of one row's grid, from `mins` on, that can be offered. */
  function OfferableFrom(q: Query, r: HoursRow, mins: int): (ms: seq<int>)
    decreases ClosingMinute(r.open, r.close) - mins
  {
    if mins + q.slotLen > ClosingMinute(r.open, r.close) then [] else
    (if q.startOf(mins) >= q.earliest && OfferAt(q, mins).available > 0 then [mins] else []) + OfferableFrom(q, r, mins + 30)
  }

  function OffersAt(q: Query, ms: seq<int>): seq<Offer> {
    seq(|ms|, i requires 0 <= i < |ms| => OfferAt(q, ms[i]))
  }

  function RowOffers(q: Query, r: HoursRow): seq<Offer> {
    OffersAt(q, OfferableFrom(q, r, ToMinutes(r.open)))
  }

  /** Row after row. */
  function AllOffers(q: Query, rows: seq<HoursRow>): seq<Offer> {
    if rows == [] then [] else AllOffers(q, rows[..|rows| - 1]) + RowOffers(q, rows[|rows| - 1])
  }

  function FirstOf(offers: seq<Offer>, limit: nat): seq<Offer> {
    if |offers| <= limit then offers else offers[..limit]
  }

  /** One row's minutes are exactly the offerable ones of its grid, each once, in order. */
  lemma {:induction false} OfferableInOrder(q: Query, r: HoursRow, mins: int)
    requires ToMinutes(r.open) <= mins && (mins - ToMinutes(r.open)) % 30 == 0
    ensures forall i, j :: 0 <= i < j < |OfferableFrom(q, r, mins)| ==> OfferableFrom(q, r, mins)[i] < OfferableFrom(q, r, mins)[j]
    ensures forall m :: m in OfferableFrom(q, r, mins) <==> m >= mins && Offerable(q, r, m)
    decreases ClosingMinute(r.open, r.close) - mins
  {
    if mins + q.slotLen <= ClosingMinute(r.open, r.close) {
      GridIsSparse(q, r, mins);
      OfferableInOrder(q, r, mins + 30);
      assert OfferableFrom(q, r, mins) == (if Offerable(q, r, mins) then [mins] else []) + OfferableFrom(q, r, mins + 30);
      MinutesInOrder(mins, OfferableFrom(q, r, mins + 30));
    }
  }

  lemma MinutesInOrder(first: int, rest: seq<int>)
    requires forall m :: m in rest ==> m >= first + 30
    requires forall i, j :: 0 <= i < j < |rest| ==> rest[i] < rest[j]
    ensures forall i, j :: 0 <= i < j < |[first] + rest| ==> ([first] + rest)[i] < ([first] + rest)[j]
  {
    var all := [first] + rest;
    forall i, j | 0 <= i < j < |all| ensures all[i] < all[j] {
      assert all[j] == rest[j - 1] && rest[j - 1] in rest;
      if i > 0 { assert all[i] == rest[i - 1]; }
    }
  }

  lemma OfferOfRow(q: Query, r: HoursRow, o: Offer)
    requires o in RowOffers(q, r)
    ensures exists mins: int :: Offerable(q, r, mins) && o == OfferAt(q, mins)
  {
    OfferableInOrder(q, r, ToMinutes(r.open));
    var ms := OfferableFrom(q, r, ToMinutes(r.open));
    var i :| 0 <= i < |RowOffers(q, r)| && RowOffers(q, r)[i] == o;
    assert ms[i] in ms;
  }

  lemma {:induction false} AllOffersAreJustified(q: Query, rows: seq<HoursRow>)
    ensures forall o :: o in AllOffers(q, rows) ==> Justified(q, rows, o)
  {
    if rows != [] {
      var n := |rows| - 1;
      AllOffersAreJustified(q, rows[..n]);
      forall o | o in AllOffers(q, rows) ensures Justified(q, rows, o) {
        if o in RowOffers(q, rows[n]) {
          OfferOfRow(q, rows[n], o);
          assert rows[n] in rows;
        } else {
          assert o in AllOffers(q, rows[..n]);
          assert Justified(q, rows[..n], o);
          var r, mins: int :| r in rows[..n] && Offerable(q, r, mins) && o == OfferAt(q, mins);
          assert r in rows;
        }
      }
    }
  }

  lemma RowIsListed(q: Query, r: HoursRow)
    ensures Lists(q, r, ClosingMinute(r.open, r.close) + 1, RowOffers(q, r))
  {
    OfferableInOrder(q, r, ToMinutes(r.open));
    var ms := OfferableFrom(q, r, ToMinutes(r.open));
    forall mins: int | Offerable(q, r, mins) ensures OfferAt(q, mins) in RowOffers(q, r) {
      assert mins in ms;
      var i :| 0 <= i < |ms| && ms[i] == mins;
      assert RowOffers(q, r)[i] == OfferAt(q, mins);
    }
  }

  lemma {:induction false} AllRowsAreListed(q: Query, rows: seq<HoursRow>, r: HoursRow)
    requires r in rows
    ensures Lists(q, r, ClosingMinute(r.open, r.close) + 1, AllOffers(q, rows))
  {
    var n := |rows| - 1;
    if r == rows[n] {
      RowIsListed(q, r);
    } else {
      assert r in rows[..n];
      AllRowsAreListed(q, rows[..n], r);
    }
  }

  /** Lists the bookable slots of a day: all offers of its open rows, each row in the order of its
      grid, cut off at the cap. So every one is an `Offered` one, and none that qualifies is missing
      unless the cap was reached. */
  method Slots(q: Query, all: seq<HoursRow>, day: int, z: Zone) returns (out: seq<Offer>)
    requires q.limit >= 1 && q.startOf == StartsOn(day, z)
    ensures out == FirstOf(AllOffers(q, RowsOn(all, day)), q.limit)
    ensures |out| <= q.limit
    ensures forall o :: o in out ==> Offered(q, day, z, all, o)
    ensures |out| < q.limit ==> forall r :: r in all && OpenOn(r, day) ==> Lists(q, r, ClosingMinute(r.open, r.close) + 1, out)
  {
    var rows := RowsOn(all, day);
    out := SlotsOfRows(q, rows);
    RowsOnAreOpen(all, day);
    AllOffersAreJustified(q, rows);
    forall o | o in out ensures Offered(q, day, z, all, o) {
      JustifiedIsOffered(q, day, z, all, o);
    }
    if |out| < q.limit {
      forall r | r in all && OpenOn(r, day) ensures Lists(q, r, ClosingMinute(r.open, r.close) + 1, out) {
        AllRowsAreListed(q, rows, r);
      }
    }
  }

  lemma {:induction false} EarlierRowsComeFirst(q: Query, rows: seq<HoursRow>, i: nat)
    requires i <= |rows|
    ensures AllOffers(q, rows[..i]) <= AllOffers(q, rows)
  {
    if i < |rows| {
      EarlierRowsComeFirst(q, rows[..|rows| - 1], i);
      assert rows[..|rows| - 1][..i] == rows[..i];
    } else {
      assert rows[..i] == rows;
    }
  }

  /** The outer loop: the rows one after another, until the cap is reached. */
  method SlotsOfRows(q: Query, rows: seq<HoursRow>) returns (out: seq<Offer>)
    requires q.limit >= 1
    ensures out == FirstOf(AllOffers(q, rows), q.limit)
  {
    out := [];
    var seen: map<int, int> := map[];
    var i := 0;
    while i < |rows| && |out| < q.limit
      invariant 0 <= i <= |rows|
      invariant forall t :: t in seen ==> seen[t] == q.spareAt(t, t + Minutes(q.slotLen))
      invariant out == FirstOf(AllOffers(q, rows[..i]), q.limit)
    {
      assert rows[..i + 1][..i] == rows[..i];
      out, seen := SlotsOfRow(q, rows[i], out, seen);
      i := i + 1;
    }
    EarlierRowsComeFirst(q, rows, i);
    assert rows[..|rows|] == rows;
  }

  /** The inner loop: walks one row's grid; `seen` remembers the capacity of starts already asked about. */
  method SlotsOfRow(q: Query, r: HoursRow, before: seq<Offer>, cache: map<int, int>)
    returns (out: seq<Offer>, seen: map<int, int>)
    requires |before| < q.limit
    requires forall t :: t in cache ==> cache[t] == q.spareAt(t, t + Minutes(q.slotLen))
    ensures forall t :: t in seen ==> seen[t] == q.spareAt(t, t + Minutes(q.slotLen))
    ensures out == FirstOf(before + RowOffers(q, r), q.limit)
  {
    out, seen := before, cache;
    var closeMin := ClosingMinute(r.open, r.close);
    var mins := ToMinutes(r.open);
    while mins + q.slotLen <= closeMin
      invariant |out| < q.limit
      invariant forall t :: t in seen ==> seen[t] == q.spareAt(t, t + Minutes(q.slotLen))
      invariant before + RowOffers(q, r) == out + OffersAt(q, OfferableFrom(q, r, mins))
      decreases closeMin - mins
    {
      OffersStep(q, r, mins, out);
      var start := q.startOf(mins);
      if start >= q.earliest {
        var end := start + Minutes(q.slotLen);
        if start !in seen {
          seen := seen[start := q.spareAt(start, end)];
        }
        if seen[start] > 0 {
          assert Offer(start, end, seen[start]) == OfferAt(q, mins);
          out := out + [Offer(start, end, seen[start])];
        }
        if |out| >= q.limit {
          CutOff(before + RowOffers(q, r), out, OffersAt(q, OfferableFrom(q, r, mins + 30)), q.limit);
          return;
        }
      }
      mins := mins + 30;
    }
  }

  lemma OffersStep(q: Query, r: HoursRow, mins: int, out: seq<Offer>)
    requires mins + q.slotLen <= ClosingMinute(r.open, r.close)
    ensures out + OffersAt(q, OfferableFrom(q, r, mins))
         == (if q.startOf(mins) >= q.earliest && OfferAt(q, mins).available > 0 then out + [OfferAt(q, mins)] else out)
            + OffersAt(q, OfferableFrom(q, r, mins + 30))
  {
  }

  lemma CutOff(all: seq<Offer>, out: seq<Offer>, rest: seq<Offer>, limit: nat)
    requires all == out + rest && |out| == limit
    ensures out == FirstOf(all, limit)
  {
  }

  lemma GridIsSparse(q: Query, r: HoursRow, mins: int)
    requires (mins - ToMinutes(r.open)) % 30 == 0
    ensures (mins + 30 - ToMinutes(r.open)) % 30 == 0
    ensures forall m: int :: mins < m < mins + 30 ==> !Offerable(q, r, m)
  {
  }

  /** A slot whose start the zone reads back as the wall time it was made from. */
  ghost predicate RoundTrips(day: int, z: Zone, mins: nat) {
    LocalMs(StartsOn(day, z)(mins), z) == Days(day) + Minutes(mins)
  }

  /** Every slot on the grid of an open row of the date's weekday passes the opening-hours
      check, past midnight too, as soon as its start round-trips through the zone. */
  lemma OfferedSlotsAreOpen(q: Query, day: int, z: Zone, r: HoursRow, rows: seq<HoursRow>, mins: nat)
    requires q.startOf == StartsOn(day, z) && q.slotLen > 0
    requires r in rows && !r.isClosed && r.dayOfWeek == Weekday(day) && ClockTimes(r.open, r.close)
    requires OnGrid(r, q.slotLen, mins) && RoundTrips(day, z, mins)
    ensures var o := OfferAt(q, mins); WithinOpeningHours(rows, o.start, o.end, z)
  {
    var start := OfferAt(q, mins).start;
    WholeDayMinutes(day, mins);
    LocalMinute(start, z);
    WholeDayMinutes(0, q.slotLen);
    WholeMinutes(Minutes(q.slotLen));
    GridPointIsOpen(r, day, mins, q.slotLen, LocalDay(start, z), MinuteOfDay(start, z));
  }

  lemma GridPointIsOpen(r: HoursRow, day: int, mins: nat, slotLen: nat, here: int, at: int)
    requires slotLen > 0 && 0 <= at < 1_440 && Days(here) + Minutes(at) == Days(day) + Minutes(mins)
    requires !r.isClosed && r.dayOfWeek == Weekday(day) && ClockTimes(r.open, r.close) && OnGrid(r, slotLen, mins)
    ensures OpenToday(r, Weekday(here), at, slotLen) || OpenSinceYesterday(r, Weekday(here), at, slotLen)
  {
    assert InsideWindow(day, r.open, r.close, Days(here) + Minutes(at), Days(here) + Minutes(at + slotLen));
    RowCheckIsComplete(r, here, at, slotLen);
  }

  lemma WholeDayMinutes(day: int, mins: int)
    ensures (Days(day) + Minutes(mins)) % 60_000 == 0
  {
    assert Days(day) + Minutes(mins) == 60_000 * (1_440 * day + mins);
  }

  /** The start round-trips exactly when the zone's offset an offset before the UTC reading of the
      wall time is the offset at that reading. */
  lemma RoundTripsWhenGuessIsRight(day: int, z: Zone, mins: nat)
    ensures var wall := Days(day) + Minutes(mins);
            && (RoundTrips(day, z, mins) <==> ReadsBack(wall, z))
            && (RoundTrips(day, z, mins) <==> z(wall - Seconds(z(wall))) == z(wall))
  {
    assert Hours(mins / 60) + Minutes(mins % 60) == Minutes(mins);
  }
}
