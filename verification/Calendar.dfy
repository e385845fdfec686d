/** Wall-clock calendar arithmetic (src/utils/timezone.js).

    Instants are integer milliseconds since 1970-01-01T00:00Z. A time zone is any
    function giving the offset, in whole seconds, in force at an instant; nothing else
    is assumed about it unless a lemma says so. */
module Calendar {

  type Zone = int -> int

  function Seconds(n: int): int { 1_000 * n }

  function Minutes(n: int): int { 60_000 * n }

  function Hours(n: int): int { 3_600_000 * n }

  function Days(n: int): int { 86_400_000 * n }

  /** The day, counted from 1970-01-01, that a wall-clock reading falls on. */
  function DayIndex(local: int): int { local / 86_400_000 }

  /** How far into that day it is. */
  function DayClock(local: int): int { local % 86_400_000 }

  /** The widest offset any zone uses, in seconds. */
  const MAX_OFFSET := 50_400

  // ---- the Gregorian calendar -------------------------------------------------

  predicate Leap(y: int) {
    y % 4 == 0 && (y % 100 != 0 || y % 400 == 0)
  }

  function MonthLength(y: int, m: int): (n: int)
    requires 1 <= m <= 12
    ensures 28 <= n <= 31
  {
    if m == 2 then (if Leap(y) then 29 else 28)
    else if m == 4 || m == 6 || m == 9 || m == 11 then 30 else 31
  }

  function YearLength(y: int): int {
    if Leap(y) then 366 else 365
  }

  /** Days from 1970-01-01 to the first of January of year `y`. */
  function DaysBeforeYear(y: int): int
    decreases if y < 1970 then 1970 - y else y - 1970
  {
    if y == 1970 then 0
    else if y > 1970 then DaysBeforeYear(y - 1) + YearLength(y - 1)
    else DaysBeforeYear(y + 1) - YearLength(y)
  }

  /** Days of year `y` before month `m`; month 13 stands for the whole year. */
  function DaysBeforeMonth(y: int, m: int): int
    requires 1 <= m <= 13
    decreases m
  {
    if m == 1 then 0 else DaysBeforeMonth(y, m - 1) + MonthLength(y, m - 1)
  }

  datatype Date = Date(year: int, month: int, day: int)

  predicate ValidDate(d: Date) {
    1 <= d.month <= 12 && 1 <= d.day <= MonthLength(d.year, d.month)
  }

  /** The day number of a date, 1970-01-01 being day 0. */
  function DayOf(d: Date): int
    requires 1 <= d.month <= 12
  {
    DaysBeforeYear(d.year) + DaysBeforeMonth(d.year, d.month) + d.day - 1
  }

  /** `Date.UTC(y, m - 1, d)` in days: months out of 1..12 roll into other years, days roll over linearly. */
  function DayNumber(y: int, m: int, d: int): int {
    DayOf(Date(y + (m - 1) / 12, (m - 1) % 12 + 1, d))
  }

  lemma MonthsFillTheYear(y: int)
    ensures DaysBeforeMonth(y, 13) == YearLength(y)
  {
    assert DaysBeforeMonth(y, 4) == 62 + MonthLength(y, 2);
    assert DaysBeforeMonth(y, 7) == DaysBeforeMonth(y, 4) + 91;
    assert DaysBeforeMonth(y, 10) == DaysBeforeMonth(y, 7) + 92;
    assert DaysBeforeMonth(y, 13) == DaysBeforeMonth(y, 10) + 92;
  }

  lemma NextYear(y: int)
    ensures DaysBeforeYear(y + 1) == DaysBeforeYear(y) + YearLength(y)
  {
  }

  lemma MonthEnd(y: int, m: int)
    requires 1 <= m < 12
    ensures DayOf(Date(y, m + 1, 1)) == DayOf(Date(y, m, MonthLength(y, m))) + 1
  {
  }

  lemma YearEnd(y: int)
    ensures DayOf(Date(y + 1, 1, 1)) == DayOf(Date(y, 12, 31)) + 1
  {
    MonthsFillTheYear(y);
    NextYear(y);
    assert DaysBeforeMonth(y, 13) == DaysBeforeMonth(y, 12) + 31;
  }

  function NextDate(d: Date): (r: Date)
    requires ValidDate(d)
    ensures ValidDate(r) && DayOf(r) == DayOf(d) + 1
  {
    if d.day < MonthLength(d.year, d.month) then Date(d.year, d.month, d.day + 1)
    else if d.month < 12 then MonthEnd(d.year, d.month); Date(d.year, d.month + 1, 1)
    else YearEnd(d.year); Date(d.year + 1, 1, 1)
  }

  function PreviousDate(d: Date): (r: Date)
    requires ValidDate(d)
    ensures ValidDate(r) && DayOf(r) == DayOf(d) - 1
  {
    if d.day > 1 then Date(d.year, d.month, d.day - 1)
    else if d.month > 1 then
      MonthEnd(d.year, d.month - 1); Date(d.year, d.month - 1, MonthLength(d.year, d.month - 1))
    else YearEnd(d.year - 1); Date(d.year - 1, 12, 31)
  }

  /** The calendar date of a day number, as a calendar is walked: one day at a time from the epoch. */
  function CivilOf(n: int): (r: Date)
    ensures ValidDate(r) && DayOf(r) == n
    decreases if n < 0 then -n else n
  {
    if n == 0 then Date(1970, 1, 1)
    else if n > 0 then NextDate(CivilOf(n - 1))
    else PreviousDate(CivilOf(n + 1))
  }

  lemma {:induction false} YearsGrow(y1: int, y2: int)
    requires y1 < y2
    ensures DaysBeforeYear(y1) + YearLength(y1) <= DaysBeforeYear(y2)
    decreases y2 - y1
  {
    NextYear(y2 - 1);
    if y1 < y2 - 1 {
      YearsGrow(y1, y2 - 1);
    }
  }

  lemma {:induction false} MonthsGrow(y: int, m1: int, m2: int)
    requires 1 <= m1 < m2 <= 13
    ensures DaysBeforeMonth(y, m1) + MonthLength(y, m1) <= DaysBeforeMonth(y, m2)
    decreases m2 - m1
  {
    if m1 < m2 - 1 {
      MonthsGrow(y, m1, m2 - 1);
    }
  }

  predicate Earlier(a: Date, b: Date) {
    a.year < b.year || (a.year == b.year && (a.month < b.month || (a.month == b.month && a.day < b.day)))
  }

  /** Day numbers order dates the way the calendar does. */
  lemma DayNumbersFollowCalendar(a: Date, b: Date)
    requires ValidDate(a) && ValidDate(b)
    ensures Earlier(a, b) <==> DayOf(a) < DayOf(b)
  {
    if Earlier(a, b) {
      EarlierMeansSmaller(a, b);
    } else if Earlier(b, a) {
      EarlierMeansSmaller(b, a);
    } else {
      assert a == b;
    }
  }

  lemma EarlierMeansSmaller(a: Date, b: Date)
    requires ValidDate(a) && ValidDate(b) && Earlier(a, b)
    ensures DayOf(a) < DayOf(b)
  {
    if a.year < b.year {
      YearsGrow(a.year, b.year);
      MonthsFillTheYear(a.year);
      MonthsGrow(a.year, a.month, 13);
      if b.month > 1 { MonthsGrow(b.year, 1, b.month); }
    } else if a.month < b.month {
      MonthsGrow(a.year, a.month, b.month);
    }
  }

  /** Reading the calendar inverts `Date.UTC` on every valid date. */
  lemma CivilInvertsDayNumber(d: Date)
    requires ValidDate(d)
    ensures CivilOf(DayOf(d)) == d
  {
    DayNumbersFollowCalendar(d, CivilOf(DayOf(d)));
    DayNumbersFollowCalendar(CivilOf(DayOf(d)), d);
  }

  // ---- the same calendar in closed form -----------------------------------------

  /** How many years from 1970 up to, not including, `y` have a 29 February: one in four, less one in
      a hundred, plus one in four hundred. */
  function LeapDays(y: int): int {
    (y - 1969) / 4 - (y - 1901) / 100 + (y - 1601) / 400
  }

  lemma Quarter(y: int)
    ensures (y - 1968) / 4 - (y - 1969) / 4 == if y % 4 == 0 then 1 else 0
  {
  }

  lemma Hundredth(y: int)
    ensures (y - 1900) / 100 - (y - 1901) / 100 == if y % 100 == 0 then 1 else 0
  {
  }

  lemma FourHundredth(y: int)
    ensures (y - 1600) / 400 - (y - 1601) / 400 == if y % 400 == 0 then 1 else 0
  {
  }

  lemma MultiplesNest(y: int)
    ensures y % 400 == 0 ==> y % 100 == 0
    ensures y % 100 == 0 ==> y % 4 == 0
  {
    if y % 400 == 0 { MultipleOfHundred(y, 4 * (y / 400)); }
    if y % 100 == 0 { MultipleOfFour(y, 25 * (y / 100)); }
  }

  lemma MultipleOfHundred(y: int, k: int)
    requires y == 100 * k
    ensures y % 100 == 0
  {
  }

  lemma MultipleOfFour(y: int, k: int)
    requires y == 4 * k
    ensures y % 4 == 0
  {
  }

  lemma OneMoreYear(y: int)
    ensures YearLength(y) == 365 + LeapDays(y + 1) - LeapDays(y)
  {
    Quarter(y);
    Hundredth(y);
    FourHundredth(y);
    MultiplesNest(y);
  }

  /** The Gregorian calendar by years: 365 days each, and the leap days. */
  lemma {:induction false} YearsInClosedForm(y: int)
    ensures DaysBeforeYear(y) == 365 * (y - 1970) + (y - 1969) / 4 - (y - 1901) / 100 + (y - 1601) / 400
    decreases if y < 1970 then 1970 - y else y - 1970
  {
    if y > 1970 {
      YearsInClosedForm(y - 1);
      OneMoreYear(y - 1);
    } else if y < 1970 {
      YearsInClosedForm(y + 1);
      OneMoreYear(y);
    }
  }

  /** And by months: from March on five months take 153 days, and January takes 31. What is left of
      the year is February. */
  lemma MonthsInClosedForm(y: int, m: int)
    requires 3 <= m <= 12
    ensures DayOf(Date(y, m, 1)) - DayOf(Date(y, 3, 1)) == (153 * (m - 3) + 2) / 5
    ensures DayOf(Date(y, 2, 1)) == DayOf(Date(y, 1, 1)) + 31
    ensures DayOf(Date(y + 1, 1, 1)) - DayOf(Date(y, 3, 1)) == 306
  {
    YearEnd(y);
    FromMarch(y);
  }

  lemma FromMarch(y: int)
    ensures DaysBeforeMonth(y, 4) == DaysBeforeMonth(y, 3) + 31 && DaysBeforeMonth(y, 5) == DaysBeforeMonth(y, 3) + 61
    ensures DaysBeforeMonth(y, 6) == DaysBeforeMonth(y, 3) + 92 && DaysBeforeMonth(y, 7) == DaysBeforeMonth(y, 3) + 122
    ensures DaysBeforeMonth(y, 8) == DaysBeforeMonth(y, 3) + 153 && DaysBeforeMonth(y, 9) == DaysBeforeMonth(y, 3) + 184
    ensures DaysBeforeMonth(y, 10) == DaysBeforeMonth(y, 3) + 214 && DaysBeforeMonth(y, 11) == DaysBeforeMonth(y, 3) + 245
    ensures DaysBeforeMonth(y, 12) == DaysBeforeMonth(y, 3) + 275
  {
    assert DaysBeforeMonth(y, 6) == DaysBeforeMonth(y, 5) + 31;
    assert DaysBeforeMonth(y, 8) == DaysBeforeMonth(y, 7) + 31;
    assert DaysBeforeMonth(y, 10) == DaysBeforeMonth(y, 9) + 30;
    assert DaysBeforeMonth(y, 12) == DaysBeforeMonth(y, 11) + 30;
  }

  /** What it comes to for a monthly schedule: the end of January is followed by the end of February,
      the 29th exactly in the years the Gregorian rule names. */
  lemma EndOfJanuaryAdvances(y: int)
    ensures NextAnchor(Date(y, 1, 31), MONTHLY)
         == Date(y, 2, if y % 400 == 0 || (y % 4 == 0 && y % 100 != 0) then 29 else 28)
  {
    LastOfFebruary(y);
    LengthOfFebruary(y);
  }

  lemma LastOfFebruary(y: int)
    ensures NextAnchor(Date(y, 1, 31), MONTHLY) == Date(y, 2, MonthLength(y, 2))
  {
    MonthlyAnchorDay(Date(y, 1, 31));
    FebruaryOf(y);
  }

  lemma LengthOfFebruary(y: int)
    ensures MonthLength(y, 2) == if y % 400 == 0 || (y % 4 == 0 && y % 100 != 0) then 29 else 28
  {
    MultiplesNest(y);
  }

  lemma FebruaryOf(y: int)
    ensures LengthOfMonth(MonthIndex(Date(y, 1, 31)) + 1) == MonthLength(y, 2)
  {
    LengthOfNextMonth(Date(y, 1, 31), y, 2);
  }

  // ---- zones ------------------------------------------------------------------

  /** What the wall clock shows at an instant, as milliseconds since a local 1970-01-01T00:00. */
  function LocalMs(t: int, z: Zone): int {
    t + Seconds(z(t))
  }

  datatype Parts = Parts(date: Date, hour: int, minute: int, second: int)

  function GetZonedParts(t: int, z: Zone): Parts {
    var local := LocalMs(t, z);
    var clock := DayClock(local);
    Parts(CivilOf(DayIndex(local)), clock / 3_600_000, clock % 3_600_000 / 60_000, clock % 60_000 / 1_000)
  }

  /** The parts are a valid date and a clock in range. */
  lemma PartsAreInRange(t: int, z: Zone)
    ensures var p := GetZonedParts(t, z);
            ValidDate(p.date) && 0 <= p.hour < 24 && 0 <= p.minute < 60 && 0 <= p.second < 60
  {
    SplitDay(LocalMs(t, z));
    ClockInRange(DayClock(LocalMs(t, z)));
  }

  /** And they spell out the local time to the second. */
  lemma PartsSpellOutTheTime(t: int, z: Zone)
    ensures var p := GetZonedParts(t, z);
            Days(DayOf(p.date)) + Hours(p.hour) + Minutes(p.minute) + Seconds(p.second) == LocalMs(t, z) - t % 1_000
  {
    SplitDay(LocalMs(t, z));
    ClockParts(DayClock(LocalMs(t, z)));
    SameMilliseconds(t, z(t));
  }

  lemma ClockInRange(clock: int)
    requires 0 <= clock < 86_400_000
    ensures 0 <= clock / 3_600_000 < 24 && 0 <= clock % 3_600_000 / 60_000 < 60 && 0 <= clock % 60_000 / 1_000 < 60
  {
    HourAndRest(clock);
    MinuteAndRest(clock % 3_600_000);
    SecondAndRest(clock % 60_000);
  }

  /** `getTimezoneOffsetMinutes`, in milliseconds. */
  function TimezoneOffset(t: int, z: Zone): int {
    var p := GetZonedParts(t, z);
    Days(DayOf(p.date)) + Hours(p.hour) + Minutes(p.minute) + Seconds(p.second) - t
  }

  lemma SplitDay(local: int)
    ensures Days(DayIndex(local)) + DayClock(local) == local
    ensures 0 <= DayClock(local) < Days(1)
  {
  }

  lemma HourAndRest(clock: int)
    ensures Hours(clock / 3_600_000) + clock % 3_600_000 == clock
  {
  }

  lemma MinuteAndRest(rest: int)
    ensures Minutes(rest / 60_000) + rest % 60_000 == rest
  {
  }

  lemma SecondAndRest(rest: int)
    ensures Seconds(rest / 1_000) + rest % 1_000 == rest
  {
  }

  /** The remainder by a multiple keeps the remainder by a divisor. */
  lemma RestsAgree(clock: int)
    ensures clock % 3_600_000 % 60_000 == clock % 60_000
    ensures clock % 60_000 % 1_000 == clock % 1_000
  {
    HourAndRest(clock);
    SameSecondOfMinute(clock, 60 * (clock / 3_600_000));
    assert clock % 3_600_000 == clock - 60_000 * (60 * (clock / 3_600_000));
    MinuteAndRest(clock);
    SameMillisecond(clock, 60 * (clock / 60_000));
    assert clock % 60_000 == clock - 1_000 * (60 * (clock / 60_000));
  }

  lemma SameSecondOfMinute(x: int, k: int)
    ensures (x - 60_000 * k) % 60_000 == x % 60_000
  {
    MinuteAndRest(x);
    assert x - 60_000 * k == 60_000 * (x / 60_000 - k) + x % 60_000;
  }

  lemma SameMillisecond(x: int, k: int)
    ensures (x - 1_000 * k) % 1_000 == x % 1_000
  {
    SecondAndRest(x);
    assert x - 1_000 * k == 1_000 * (x / 1_000 - k) + x % 1_000;
  }

  lemma ClockParts(clock: int)
    ensures Hours(clock / 3_600_000) + Minutes(clock % 3_600_000 / 60_000) + Seconds(clock % 60_000 / 1_000) == clock - clock % 1_000
  {
    HourAndRest(clock);
    MinuteAndRest(clock % 3_600_000);
    SecondAndRest(clock % 60_000);
    RestsAgree(clock);
  }

  lemma SameMilliseconds(t: int, s: int)
    ensures DayClock(t + Seconds(s)) % 1_000 == t % 1_000
  {
    var local := t + Seconds(s);
    assert DayClock(local) == local - 1_000 * (86_400 * DayIndex(local));
    assert DayClock(local) == t + 1_000 * (s - 86_400 * DayIndex(local));
  }

  /** The computed offset is the zone's, short of the milliseconds the parts do not show; so it is
      exact for instants in whole seconds, and only for them. */
  lemma OffsetIsZoneOffset(t: int, z: Zone)
    ensures TimezoneOffset(t, z) == Seconds(z(t)) - t % 1_000
    ensures TimezoneOffset(t, z) == Seconds(z(t)) <==> t % 1_000 == 0
  {
    PartsSpellOutTheTime(t, z);
  }

  /** The wall clock read as if it were UTC: the guess `zonedWallTimeToUtc` starts from. */
  function WallMs(y: int, m: int, d: int, hour: int, minute: int): int {
    Days(DayNumber(y, m, d)) + Hours(hour) + Minutes(minute)
  }

  function ZonedWallTimeToUtc(y: int, m: int, d: int, hour: int, minute: int, z: Zone): int {
    var guess := WallMs(y, m, d, hour, minute);
    guess - TimezoneOffset(guess, z)
  }

  lemma WholeSecond(day: int, hour: int, minute: int)
    ensures (Days(day) + Hours(hour) + Minutes(minute)) % 1_000 == 0
  {
    assert Days(day) + Hours(hour) + Minutes(minute) == 1_000 * (86_400 * day + 3_600 * hour + 60 * minute);
  }

  /** The conversion by day number: the guess, less the offset in force at the guess. */
  function InstantOf(day: int, hour: int, minute: int, z: Zone): int {
    var guess := Days(day) + Hours(hour) + Minutes(minute);
    guess - Seconds(z(guess))
  }

  /** Taking the parts of the guess apart and putting them together again amounts to that. */
  lemma WallTimeResult(y: int, m: int, d: int, hour: int, minute: int, z: Zone)
    ensures ZonedWallTimeToUtc(y, m, d, hour, minute, z) == InstantOf(DayNumber(y, m, d), hour, minute, z)
  {
    WholeSecond(DayNumber(y, m, d), hour, minute);
    OffsetIsZoneOffset(WallMs(y, m, d, hour, minute), z);
  }

  /** Does a wall time, given as if it were UTC, read back after the conversion? */
  ghost predicate ReadsBack(wall: int, z: Zone) {
    LocalMs(wall - Seconds(z(wall)), z) == wall
  }

  /** The conversion shows the requested wall time exactly when the zone's offset an offset earlier
      than the UTC reading of the wall time is the offset at that reading; otherwise it is off by
      their difference. */
  lemma WallTimeRoundTrip(y: int, m: int, d: int, hour: int, minute: int, z: Zone)
    ensures var wall := WallMs(y, m, d, hour, minute);
            var shown := LocalMs(ZonedWallTimeToUtc(y, m, d, hour, minute, z), z);
            && shown == wall + Seconds(z(wall - Seconds(z(wall))) - z(wall))
            && (shown == wall <==> z(wall - Seconds(z(wall))) == z(wall))
            && (shown == wall <==> ReadsBack(wall, z))
  {
    WallTimeResult(y, m, d, hour, minute, z);
  }

  // ---- what that means on a night the clocks change ---------------------------------------------

  /** A zone whose offset changes once, from `before` to `after` seconds. */
  function ChangeAt(change: int, before: int, after: int): Zone {
    t => if t < change then before else after
  }

  /** Exactly the wall times that lie between the change, read as UTC, and the change by the clock
      of the other offset are converted wrongly. */
  lemma ReadsBackIff(wall: int, change: int, before: int, after: int)
    requires before != after
    ensures ReadsBack(wall, ChangeAt(change, before, after)) <==>
            !(change <= wall < change + Seconds(after)) && !(change + Seconds(before) <= wall < change)
  {
  }

  /** Is there an instant, or more than one, at which the clock shows `wall`? */
  ghost predicate Occurs(wall: int, z: Zone) {
    exists t: int :: LocalMs(t, z) == wall
  }

  ghost predicate OccursOnce(wall: int, z: Zone) {
    Occurs(wall, z) && forall t: int, u: int :: LocalMs(t, z) == wall && LocalMs(u, z) == wall ==> t == u
  }

  /** Where a wall time can occur at all in such a zone. */
  lemma OccursIff(wall: int, change: int, before: int, after: int)
    ensures var z := ChangeAt(change, before, after);
            Occurs(wall, z) <==> wall < change + Seconds(before) || wall >= change + Seconds(after)
  {
    var z := ChangeAt(change, before, after);
    if wall < change + Seconds(before) { assert LocalMs(wall - Seconds(before), z) == wall; }
    if wall >= change + Seconds(after) { assert LocalMs(wall - Seconds(after), z) == wall; }
  }

  /** A time that does not occur cannot read back, in any zone. */
  lemma SkippedTimesNeverReadBack(wall: int, z: Zone)
    requires !Occurs(wall, z)
    ensures !ReadsBack(wall, z)
  {
  }

  /** What the clock shows at the instant a wall time of a day is converted to. */
  function Shown(y: int, m: int, d: int, hour: int, minute: int, z: Zone): int {
    LocalMs(ZonedWallTimeToUtc(y, m, d, hour, minute, z), z)
  }

  /** A zone that changes at 01:00 UTC of the day, as central Europe does. */
  function NightOf(y: int, m: int, d: int, before: int, after: int): Zone {
    ChangeAt(Days(DayNumber(y, m, d)) + Hours(1), before, after)
  }

  lemma ShownOnChange(y: int, m: int, d: int, hour: int, minute: int, before: int, after: int)
    ensures var z, wall := NightOf(y, m, d, before, after), WallMs(y, m, d, hour, minute);
            Shown(y, m, d, hour, minute, z) == LocalMs(wall - Seconds(z(wall)), z)
  {
    WallTimeResult(y, m, d, hour, minute, NightOf(y, m, d, before, after));
  }

  /** Autumn: +2 becomes +1, and 02:00-02:59 happens twice. It is the hour before, which happens
      once, that is converted wrongly: it comes out an hour late. The repeated hour reads back. */
  lemma AutumnNight(y: int, m: int, d: int, minute: nat)
    requires minute < 60
    ensures var z, one, two := NightOf(y, m, d, 7200, 3600), WallMs(y, m, d, 1, minute), WallMs(y, m, d, 2, minute);
            && OccursOnce(one, z) && Shown(y, m, d, 1, minute, z) == one + Hours(1)
            && Occurs(two, z) && !OccursOnce(two, z) && Shown(y, m, d, 2, minute, z) == two
  {
    var z, one, two := NightOf(y, m, d, 7200, 3600), WallMs(y, m, d, 1, minute), WallMs(y, m, d, 2, minute);
    ShownOnChange(y, m, d, 1, minute, 7200, 3600);
    ShownOnChange(y, m, d, 2, minute, 7200, 3600);
    assert LocalMs(one - Hours(2), z) == one;
    assert LocalMs(two - Hours(2), z) == two && LocalMs(two - Hours(1), z) == two;
  }

  /** Spring: +1 becomes +2, and 02:00-02:59 is skipped. The hour before happens once and comes out
      an hour early; the skipped hour, which does not occur, comes out as that hour. */
  lemma SpringNight(y: int, m: int, d: int, minute: nat)
    requires minute < 60
    ensures var z, one, two := NightOf(y, m, d, 3600, 7200), WallMs(y, m, d, 1, minute), WallMs(y, m, d, 2, minute);
            && OccursOnce(one, z) && Shown(y, m, d, 1, minute, z) == one - Hours(1)
            && !Occurs(two, z) && Shown(y, m, d, 2, minute, z) == one
  {
    var z, one, two := NightOf(y, m, d, 3600, 7200), WallMs(y, m, d, 1, minute), WallMs(y, m, d, 2, minute);
    ShownOnChange(y, m, d, 1, minute, 3600, 7200);
    ShownOnChange(y, m, d, 2, minute, 3600, 7200);
    assert LocalMs(one - Hours(1), z) == one;
    OccursIff(two, Days(DayNumber(y, m, d)) + Hours(1), 3600, 7200);
  }

  function LocalDay(t: int, z: Zone): int {
    DayIndex(LocalMs(t, z))
  }

  function LocalDate(t: int, z: Zone): Date {
    GetZonedParts(t, z).date
  }

  // ---- recurring schedules ----------------------------------------------------

  datatype Frequency = WEEKLY | BIWEEKLY | MONTHLY

  /** When a schedule runs: how often, at what wall-clock time, in which zone. */
  datatype Plan = Plan(frequency: Frequency, hour: nat, minute: nat, zone: Zone)

  /** `Date.UTC(year, month + 1, 0)` with a 1-based month: day 0 of the month after next. */
  function LastDayOfNextMonth(p: Date): int {
    CivilOf(DayNumber(p.year, p.month + 2, 0)).day
  }

  /** The local date the visit after one on `p` is set for, before month and day roll over. */
  function NextAnchor(p: Date, f: Frequency): Date {
    match f
    case MONTHLY =>
      var last := LastDayOfNextMonth(p);
      Date(p.year, p.month + 1, if p.day < last then p.day else last)
    case BIWEEKLY => Date(p.year, p.month, p.day + 14)
    case WEEKLY => Date(p.year, p.month, p.day + 7)
  }

  function AdvanceRunDate(from: int, p: Plan): int {
    var a := NextAnchor(GetZonedParts(from, p.zone).date, p.frequency);
    ZonedWallTimeToUtc(a.year, a.month, a.day, p.hour, p.minute, p.zone)
  }

  /** The wall time, read as UTC, that the visit after `from` is converted from. */
  function NextWall(from: int, p: Plan): int {
    var a := NextAnchor(LocalDate(from, p.zone), p.frequency);
    WallMs(a.year, a.month, a.day, p.hour, p.minute)
  }

  lemma AdvanceFollowsWall(from: int, p: Plan)
    ensures var wall := NextWall(from, p);
            AdvanceRunDate(from, p) == wall - Seconds(p.zone(wall))
  {
    var a := NextAnchor(LocalDate(from, p.zone), p.frequency);
    WallTimeResult(a.year, a.month, a.day, p.hour, p.minute, p.zone);
  }

  /** Months numbered consecutively, so that `+ 1` is the next month. */
  function MonthIndex(d: Date): int {
    12 * d.year + d.month - 1
  }

  function LengthOfMonth(index: int): (n: int)
    ensures 28 <= n <= 31
  {
    MonthLength(index / 12, index % 12 + 1)
  }

  function ClampedNextMonth(d: Date): (r: Date)
    requires ValidDate(d)
    ensures ValidDate(r) && MonthIndex(r) == MonthIndex(d) + 1
    ensures r.day == if d.day < LengthOfMonth(MonthIndex(r)) then d.day else LengthOfMonth(MonthIndex(r))
  {
    var i := MonthIndex(d) + 1;
    Date(i / 12, i % 12 + 1, if d.day < LengthOfMonth(i) then d.day else LengthOfMonth(i))
  }

  lemma NextMonthOf(d: Date)
    requires ValidDate(d)
    ensures var i := MonthIndex(d) + 1;
            if d.month < 12 then i / 12 == d.year && i % 12 == d.month else i / 12 == d.year + 1 && i % 12 == 0
  {
  }

  lemma MonthAfterNext(month: int)
    requires 1 <= month <= 12
    ensures if month < 11 then (month + 1) / 12 == 0 && (month + 1) % 12 == month + 1 else (month + 1) / 12 == 1 && (month + 1) % 12 == month - 11
  {
  }

  /** Day 0 of a month is the last day of the month before. */
  lemma DayZero(y: int, m: int)
    requires 1 <= m <= 12
    ensures DayOf(Date(y, m, MonthLength(y, m))) == if m < 12 then DayOf(Date(y, m + 1, 0)) else DayOf(Date(y + 1, 1, 0))
  {
    if m == 12 {
      MonthsFillTheYear(y);
      NextYear(y);
      assert DaysBeforeMonth(y, 13) == DaysBeforeMonth(y, 12) + MonthLength(y, 12);
    }
  }

  /** The month after the next one, day 0, as `Date.UTC` reads it. */
  lemma DayZeroOfMonthAfterNext(d: Date, y: int, m: int)
    requires ValidDate(d) && y == d.year + (if d.month < 12 then 0 else 1) && m == (if d.month < 12 then d.month + 1 else 1)
    ensures DayNumber(d.year, d.month + 2, 0) == if m < 12 then DayOf(Date(y, m + 1, 0)) else DayOf(Date(y + 1, 1, 0))
  {
    MonthAfterNext(d.month);
  }

  lemma LengthOfNextMonth(d: Date, y: int, m: int)
    requires ValidDate(d) && y == d.year + (if d.month < 12 then 0 else 1) && m == (if d.month < 12 then d.month + 1 else 1)
    ensures LengthOfMonth(MonthIndex(d) + 1) == MonthLength(y, m)
  {
    NextMonthOf(d);
  }

  lemma LastDayIsTheLength(d: Date)
    requires ValidDate(d)
    ensures LastDayOfNextMonth(d) == LengthOfMonth(MonthIndex(d) + 1)
  {
    var y, m := d.year + (if d.month < 12 then 0 else 1), if d.month < 12 then d.month + 1 else 1;
    LengthOfNextMonth(d, y, m);
    DayZeroOfMonthAfterNext(d, y, m);
    DayZero(y, m);
    CivilInvertsDayNumber(Date(y, m, MonthLength(y, m)));
  }

  /** The local day, counted from the epoch, that the visit after one on day `day` is set for. */
  function NextDay(day: int, f: Frequency): int {
    match f
    case WEEKLY => day + 7
    case BIWEEKLY => day + 14
    case MONTHLY => DayOf(ClampedNextMonth(CivilOf(day)))
  }

  lemma RollsOverTo(p: Date, day: int, r: Date)
    requires ValidDate(p) && 1 <= r.month <= 12
    requires MonthIndex(r) == MonthIndex(p) + 1 && r.day == day
    ensures DayNumber(p.year, p.month + 1, day) == DayOf(r)
  {
    assert Date(p.year + p.month / 12, p.month % 12 + 1, day) == r;
  }

  lemma MonthlyAnchorDay(p: Date)
    requires ValidDate(p)
    ensures NextAnchor(p, MONTHLY) == Date(p.year, p.month + 1, ClampedNextMonth(p).day)
  {
    LastDayIsTheLength(p);
    ClampedDay(p, LastDayOfNextMonth(p));
  }

  lemma ClampedDay(p: Date, last: int)
    requires ValidDate(p) && last == LengthOfMonth(MonthIndex(p) + 1)
    ensures ClampedNextMonth(p).day == if p.day < last then p.day else last
  {
  }

  lemma MonthlyAnchor(p: Date)
    requires ValidDate(p)
    ensures var a := NextAnchor(p, MONTHLY); DayNumber(a.year, a.month, a.day) == DayOf(ClampedNextMonth(p))
  {
    MonthlyAnchorDay(p);
    RollsOverTo(p, ClampedNextMonth(p).day, ClampedNextMonth(p));
  }

  lemma WeeklyAnchor(p: Date, days: int)
    requires ValidDate(p)
    ensures DayNumber(p.year, p.month, p.day + days) == DayOf(p) + days
  {
    assert (p.month - 1) / 12 == 0;
  }

  lemma NextDayOf(p: Date)
    requires ValidDate(p)
    ensures NextDay(DayOf(p), MONTHLY) == DayOf(ClampedNextMonth(p))
  {
    CivilInvertsDayNumber(p);
  }

  lemma AnchorDay(p: Date, f: Frequency)
    requires ValidDate(p)
    ensures var a := NextAnchor(p, f); DayNumber(a.year, a.month, a.day) == NextDay(DayOf(p), f)
  {
    match f
    case MONTHLY => NextDayOf(p); MonthlyAnchor(p);
    case BIWEEKLY => WeeklyAnchor(p, 14);
    case WEEKLY => WeeklyAnchor(p, 7);
  }

  lemma NextMonthIsLater(d: Date)
    requires ValidDate(d)
    ensures DayOf(ClampedNextMonth(d)) >= DayOf(d) + 28
  {
    var r := ClampedNextMonth(d);
    if d.month == 12 {
      YearEnd(d.year);
      assert r.year == d.year + 1 && r.month == 1;
    } else {
      MonthEnd(d.year, d.month);
      assert r.year == d.year && r.month == d.month + 1;
    }
  }

  lemma NextWallDay(from: int, p: Plan)
    ensures NextWall(from, p) ==
            Days(NextDay(DayIndex(LocalMs(from, p.zone)), p.frequency)) + Hours(p.hour) + Minutes(p.minute)
  {
    AnchorDay(LocalDate(from, p.zone), p.frequency);
  }

  ghost predicate Bounded(z: Zone) {
    forall t: int :: -MAX_OFFSET <= z(t) <= MAX_OFFSET
  }

  lemma NextDayIsAWeekLater(day: int, f: Frequency)
    ensures NextDay(day, f) >= day + 7
  {
    NextMonthIsLater(CivilOf(day));
  }

  /** A schedule always moves forward, whatever the zone does to the clocks. */
  lemma AdvanceStrictlyIncreases(from: int, p: Plan)
    requires Bounded(p.zone)
    ensures AdvanceRunDate(from, p) > from
  {
    AdvanceFollowsWall(from, p);
    NextWallDay(from, p);
    NextDayIsAWeekLater(DayIndex(LocalMs(from, p.zone)), p.frequency);
    SplitDay(LocalMs(from, p.zone));
  }

  function Iterate(step: int -> int, first: int, n: nat): int {
    if n == 0 then first else step(Iterate(step, first, n - 1))
  }

  lemma {:induction false} IterateIncreases(step: int -> int, first: int, i: nat, j: nat)
    requires forall t: int :: step(t) > t
    requires i < j
    ensures Iterate(step, first, i) < Iterate(step, first, j)
    decreases j
  {
    if i < j - 1 {
      IterateIncreases(step, first, i, j - 1);
    }
  }

  function Advancing(p: Plan): int -> int {
    t => AdvanceRunDate(t, p)
  }

  /** The n-th visit after `first`. */
  function Orbit(p: Plan, first: int, n: nat): int {
    Iterate(Advancing(p), first, n)
  }

  lemma OrbitStep(p: Plan, first: int, n: nat)
    ensures Orbit(p, first, n + 1) == AdvanceRunDate(Orbit(p, first, n), p)
  {
  }

  /** Visits are in time order, and so never repeat. */
  lemma OrbitIncreases(p: Plan, first: int, i: nat, j: nat)
    requires Bounded(p.zone)
    requires i < j
    ensures Orbit(p, first, i) < Orbit(p, first, j)
  {
    var step := Advancing(p);
    forall t: int ensures step(t) > t {
      AdvanceStrictlyIncreases(t, p);
    }
    IterateIncreases(step, first, i, j);
  }

  function LocalClock(t: int, z: Zone): int {
    DayClock(LocalMs(t, z))
  }

  /** The visit after `from` stays on the day it was set for: what the change of offset between
      guess and result adds to the start time does not cross a midnight. */
  ghost predicate StaysOnItsDay(from: int, p: Plan) {
    0 <= Hours(p.hour) + Minutes(p.minute) + Seconds(p.zone(AdvanceRunDate(from, p)) - p.zone(NextWall(from, p))) < Days(1)
  }

  /** One step: the date is the anchored one, and the clock shows the start time exactly when the offsets agree. */
  lemma VisitLands(from: int, p: Plan)
    requires StaysOnItsDay(from, p)
    ensures var visit := AdvanceRunDate(from, p);
            && DayIndex(LocalMs(visit, p.zone)) == NextDay(DayIndex(LocalMs(from, p.zone)), p.frequency)
            && (LocalClock(visit, p.zone) == Hours(p.hour) + Minutes(p.minute) <==> p.zone(visit) == p.zone(NextWall(from, p)))
  {
    AdvanceFollowsWall(from, p);
    NextWallDay(from, p);
    var wall := NextWall(from, p);
    var visit := AdvanceRunDate(from, p);
    DayAndClock(LocalMs(visit, p.zone), NextDay(DayIndex(LocalMs(from, p.zone)), p.frequency),
                Hours(p.hour) + Minutes(p.minute) + Seconds(p.zone(visit) - p.zone(wall)));
  }

  lemma DayAndClock(local: int, day: int, clock: int)
    requires local == Days(day) + clock && 0 <= clock < Days(1)
    ensures DayIndex(local) == day && DayClock(local) == clock
  {
  }

  ghost predicate StaysOnItsDays(p: Plan, first: int, n: nat) {
    forall k: nat :: k < n ==> StaysOnItsDay(Orbit(p, first, k), p)
  }

  lemma {:induction false} IterateAdds(step: int -> int, day: int -> int, first: int, n: nat, c: int)
    requires forall k: nat :: k < n ==> day(step(Iterate(step, first, k))) == day(Iterate(step, first, k)) + c
    ensures day(Iterate(step, first, n)) == day(first) + c * n
  {
    if n > 0 {
      IterateAdds(step, day, first, n - 1, c);
      assert day(step(Iterate(step, first, n - 1))) == day(Iterate(step, first, n - 1)) + c;
    }
  }

  /** `n` weekly (or biweekly) advances land exactly `7n` (`14n`) local days on. */
  lemma WeeklyLandsWeeksOn(p: Plan, first: int, n: nat)
    requires p.frequency != MONTHLY
    requires StaysOnItsDays(p, first, n)
    ensures LocalDay(Orbit(p, first, n), p.zone) ==
            LocalDay(first, p.zone) + (if p.frequency == WEEKLY then 7 else 14) * n
  {
    var step := Advancing(p);
    var day := t => LocalDay(t, p.zone);
    var c := if p.frequency == WEEKLY then 7 else 14;
    forall k: nat | k < n ensures day(step(Iterate(step, first, k))) == day(Iterate(step, first, k)) + c {
      assert StaysOnItsDay(Orbit(p, first, k), p);
      VisitLands(Orbit(p, first, k), p);
    }
    IterateAdds(step, day, first, n, c);
  }

  /** The length of the `i`-th month after the one `d` is in. */
  function MonthPassed(d: Date, i: nat): int {
    LengthOfMonth(MonthIndex(d) + i)
  }

  /** The day of the month after `n` months: the start day, cut down by every shorter month passed through. */
  function DayAfterMonths(d: Date, n: nat): int
  {
    if n == 0 then d.day
    else
      var before := DayAfterMonths(d, n - 1);
      var length := MonthPassed(d, n);
      if before < length then before else length
  }

  /** It is the least of the start day and the lengths of all the months on the way. */
  lemma {:induction false} DayAfterMonthsIsTheMinimum(d: Date, n: nat)
    ensures DayAfterMonths(d, n) <= d.day
    ensures forall i: nat :: 1 <= i <= n ==> DayAfterMonths(d, n) <= MonthPassed(d, i)
    ensures DayAfterMonths(d, n) == d.day || exists i: nat :: 1 <= i <= n && DayAfterMonths(d, n) == MonthPassed(d, i)
  {
    if n > 0 {
      DayAfterMonthsIsTheMinimum(d, n - 1);
    }
  }

  lemma MonthlyStep(from: int, p: Plan)
    requires p.frequency == MONTHLY && StaysOnItsDay(from, p)
    ensures LocalDate(AdvanceRunDate(from, p), p.zone) == ClampedNextMonth(LocalDate(from, p.zone))
  {
    VisitLands(from, p);
    CivilInvertsDayNumber(ClampedNextMonth(LocalDate(from, p.zone)));
  }

  lemma {:induction false} IterateClamps(step: int -> int, date: int -> Date, first: int, n: nat)
    requires forall t: int :: ValidDate(date(t))
    requires forall k: nat :: k < n ==> date(step(Iterate(step, first, k))) == ClampedNextMonth(date(Iterate(step, first, k)))
    ensures MonthIndex(date(Iterate(step, first, n))) == MonthIndex(date(first)) + n
    ensures date(Iterate(step, first, n)).day == DayAfterMonths(date(first), n)
  {
    if n > 0 {
      IterateClamps(step, date, first, n - 1);
      var before := date(Iterate(step, first, n - 1));
      assert date(step(Iterate(step, first, n - 1))) == ClampedNextMonth(before);
      assert MonthIndex(ClampedNextMonth(before)) == MonthIndex(date(first)) + n;
    }
  }

  /** `n` monthly advances land `n` months on, on that day: a schedule that starts on the
      31st and passes through February keeps the 28th (or 29th) from then on. */
  lemma MonthlyLandsMonthsOn(p: Plan, first: int, n: nat)
    requires p.frequency == MONTHLY
    requires StaysOnItsDays(p, first, n)
    ensures MonthIndex(LocalDate(Orbit(p, first, n), p.zone)) == MonthIndex(LocalDate(first, p.zone)) + n
    ensures LocalDate(Orbit(p, first, n), p.zone).day == DayAfterMonths(LocalDate(first, p.zone), n)
  {
    var step := Advancing(p);
    var date := t => LocalDate(t, p.zone);
    forall k: nat | k < n ensures date(step(Iterate(step, first, k))) == ClampedNextMonth(date(Iterate(step, first, k))) {
      assert StaysOnItsDay(Orbit(p, first, k), p);
      MonthlyStep(Orbit(p, first, k), p);
    }
    IterateClamps(step, date, first, n);
  }

  lemma SameOffsetReadsBack(visit: int, wall: int, z: Zone)
    requires visit == wall - Seconds(z(wall))
    ensures z(visit) == z(wall) <==> ReadsBack(wall, z)
  {
  }

  lemma AdvanceReadsBack(from: int, p: Plan)
    ensures p.zone(AdvanceRunDate(from, p)) == p.zone(NextWall(from, p)) <==> ReadsBack(NextWall(from, p), p.zone)
  {
    AdvanceFollowsWall(from, p);
    SameOffsetReadsBack(AdvanceRunDate(from, p), NextWall(from, p), p.zone);
  }

  /** Each visit shows the start time exactly when the wall time it is set for reads back: an hour lost to a clock change is never carried into the next visit. */
  lemma VisitIsOnTime(p: Plan, first: int, n: nat)
    requires StaysOnItsDay(Orbit(p, first, n), p)
    ensures LocalClock(Orbit(p, first, n + 1), p.zone) == Hours(p.hour) + Minutes(p.minute) <==>
            ReadsBack(NextWall(Orbit(p, first, n), p), p.zone)
  {
    AdvanceReadsBack(Orbit(p, first, n), p);
    VisitLands(Orbit(p, first, n), p);
    OrbitStep(p, first, n);
  }
}
