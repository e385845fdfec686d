/** The tables as the services change them, statement by statement. Each method is proved to
    have exactly the effect Lifecycle gives its operation, so that every theorem about runs
    there is about these methods. */
module BookingStore {
  import opened Bookings
  import opened Lifecycle

  class Store {
    var bookings: map<BookingId, Booking>
    var rows: map<RowId, Row>
    var cleaners: map<CleanerId, Employment>

    function Tables(): Db
      reads this
    {
      Db(bookings, rows, cleaners)
    }

    ghost predicate Valid()
      reads this
    {
      Inv(Tables())
    }

    constructor ()
      ensures Valid() && Tables() == Db(map[], map[], map[])
    {
      bookings, rows, cleaners := map[], map[], map[];
    }

    /** bookings.service.js `createBooking`. */
    method CreateBooking(b: BookingId, w: Window)
      requires Valid() && b !in bookings
      modifies this
      ensures Valid() && Tables() == Apply(old(Tables()), Create(b, w))
    {
      ApplyKeeps(Tables(), Create(b, w));
      bookings := bookings[b := Booking(REQUESTED, w)];
    }

    /** cleaners.service.js `onboardCleaner`: someone new, or someone who had left. */
    method OnboardCleaner(c: CleanerId, room: bool) returns (ok: bool)
      requires Valid()
      modifies this
      ensures Valid() && Tables() == Apply(old(Tables()), Onboard(c, room))
      ensures ok == Accepts(old(Tables()), Onboard(c, room))
      ensures ok <==> room && (c !in old(cleaners) || old(cleaners)[c] == OFFBOARDED)
    {
      ApplyKeeps(Tables(), Onboard(c, room));
      if !room { return false; }
      if c in cleaners && cleaners[c] != OFFBOARDED { return false; }
      cleaners := cleaners[c := ACTIVE];
      return true;
    }

    /** cleaners.service.js `reactivateCleaner`. */
    method ReactivateCleaner(c: CleanerId, room: bool) returns (ok: bool)
      requires Valid()
      modifies this
      ensures Valid() && Tables() == Apply(old(Tables()), Reactivate(c, room))
      ensures ok == Accepts(old(Tables()), Reactivate(c, room))
      ensures ok <==> c in old(cleaners) && old(cleaners)[c] == SUSPENDED && room
    {
      ApplyKeeps(Tables(), Reactivate(c, room));
      if c !in cleaners || cleaners[c] != SUSPENDED || !room { return false; }
      cleaners := cleaners[c := ACTIVE];
      return true;
    }

    /** bookings.service.js `assignBooking` and dispatch.service.js `createAssignment`. */
    method AssignBooking(b: BookingId, c: CleanerId, row: RowId, lead: bool) returns (ok: bool)
      requires Valid() && row !in rows
      modifies this
      ensures Valid() && Tables() == Apply(old(Tables()), Assign(b, c, row, lead))
      ensures ok == Accepts(old(Tables()), Assign(b, c, row, lead))
    {
      ApplyKeeps(Tables(), Assign(b, c, row, lead));
      if b !in bookings || Terminal(bookings[b].status) { return false; }
      if c !in cleaners || cleaners[c] != ACTIVE { return false; }
      if !CleanerFree(Tables(), c, bookings[b].window, b) { return false; }
      rows := rows[row := Row(b, c, lead, false, false)];
      var next := StatusAfterAssign(bookings[b].status);
      if next != bookings[b].status {
        bookings := bookings[b := bookings[b].(status := next)];
      } else {
        assert bookings[b := bookings[b].(status := next)] == bookings;
      }
      return true;
    }

    /** dispatch.service.js `deleteAssignment`. */
    method DeleteAssignment(row: RowId) returns (ok: bool)
      requires Valid()
      modifies this
      ensures Valid() && Tables() == Apply(old(Tables()), Unassign(row))
      ensures ok == Accepts(old(Tables()), Unassign(row))
      ensures ok <==> row in old(rows) && !old(rows)[row].checkedIn && old(bookings)[old(rows)[row].booking].status !in {COMPLETED, CANCELLED}
    {
      ghost var before := Tables();
      ApplyKeeps(before, Unassign(row));
      if row !in rows { return false; }
      var b := rows[row].booking;
      if Terminal(bookings[b].status) || rows[row].checkedIn { return false; }
      rows := rows - {row};
      var remaining := RowsOf(Tables(), b);
      assert remaining == RowsOf(before, b) - {row};
      var next := StatusAfterUnassign(bookings[b].status, |remaining|);
      if next != bookings[b].status {
        bookings := bookings[b := bookings[b].(status := next)];
      }
      assert row in RowsOf(before, b) * {row};
      assert bookings == Without(before, {row}).bookings;
      return true;
    }

    /** cleaners.service.js `clockIn`. */
    method ClockInCleaner(row: RowId) returns (ok: bool)
      requires Valid()
      modifies this
      ensures Valid() && Tables() == Apply(old(Tables()), ClockIn(row))
      ensures ok == Accepts(old(Tables()), ClockIn(row))
      ensures ok <==> row in old(rows) && (old(rows)[row].checkedIn || old(bookings)[old(rows)[row].booking].status !in {COMPLETED, CANCELLED})
    {
      ApplyKeeps(Tables(), ClockIn(row));
      if row !in rows { return false; }
      if rows[row].checkedIn { return true; }
      var b := rows[row].booking;
      if Terminal(bookings[b].status) { return false; }
      rows := rows[row := rows[row].(checkedIn := true)];
      if bookings[b].status in {REQUESTED, CONFIRMED, ASSIGNED} {
        bookings := bookings[b := bookings[b].(status := IN_PROGRESS)];
      }
      return true;
    }

    /** cleaners.service.js `clockOut`. */
    method ClockOutCleaner(row: RowId) returns (ok: bool)
      requires Valid()
      modifies this
      ensures Valid() && Tables() == Apply(old(Tables()), ClockOut(row))
      ensures ok == Accepts(old(Tables()), ClockOut(row))
      ensures ok <==> row in old(rows)
    {
      ApplyKeeps(Tables(), ClockOut(row));
      if row !in rows { return false; }
      rows := rows[row := rows[row].(checkedOut := true)];
      return true;
    }

    /** cleanerBookings.routes.js `/:id/start`. */
    method StartJob(row: RowId) returns (ok: bool)
      requires Valid()
      modifies this
      ensures Valid() && Tables() == Apply(old(Tables()), Start(row))
      ensures ok == Accepts(old(Tables()), Start(row))
      ensures ok <==> row in old(rows) && old(bookings)[old(rows)[row].booking].status !in {COMPLETED, CANCELLED}
    {
      ApplyKeeps(Tables(), Start(row));
      if row !in rows { return false; }
      var b := rows[row].booking;
      if Terminal(bookings[b].status) { return false; }
      if !rows[row].checkedIn {
        ok := ClockInCleaner(row);
        return;
      }
      bookings := bookings[b := bookings[b].(status := IN_PROGRESS)]; // where it is not so already
      return true;
    }

    /** bookings.service.js `completeBooking`: the status first, then the missing check-outs. */
    method CompleteBooking(b: BookingId) returns (ok: bool)
      requires Valid()
      modifies this
      ensures Valid() && Tables() == Apply(old(Tables()), Complete(b))
      ensures ok == Accepts(old(Tables()), Complete(b))
      ensures ok <==> b in old(bookings) && old(bookings)[b].status != CANCELLED
    {
      ApplyKeeps(Tables(), Complete(b));
      if b !in bookings || bookings[b].status == CANCELLED { return false; }
      if bookings[b].status == COMPLETED { return true; }
      bookings := bookings[b := bookings[b].(status := COMPLETED)];
      var stamped := rows;
      rows := map r | r in stamped ::
        if stamped[r].booking == b && stamped[r].checkedIn then stamped[r].(checkedOut := true) else stamped[r];
      return true;
    }

    /** bookings.service.js `completeBookingByCleaner`: a helper who leaves while colleagues are on
        site only checks out. The check-out is recorded even when the booking turns out cancelled. */
    method CompleteBookingByCleaner(row: RowId, photos: nat) returns (done: bool)
      requires Valid()
      modifies this
      ensures Valid() && Tables() == Apply(old(Tables()), CompleteByCleaner(row, photos))
      ensures done ==> row in old(rows) && old(rows)[row].booking in bookings && bookings[old(rows)[row].booking].status == COMPLETED
      // the lead's exit completes the job, and so does the exit of the last who is still on site
      ensures done <==>
                && row in old(rows) && old(rows)[row].cleaner in old(cleaners) && old(cleaners)[old(rows)[row].cleaner] == ACTIVE && photos > 0
                && old(bookings)[old(rows)[row].booking].status != CANCELLED
                && (old(rows)[row].lead || forall r :: r in old(rows) && r != row && old(rows)[r].booking == old(rows)[row].booking ==>
                      old(rows)[r].checkedIn ==> old(rows)[r].checkedOut)
    {
      ghost var before := Tables();
      ApplyKeeps(Tables(), CompleteByCleaner(row, photos));
      if row !in rows || rows[row].cleaner !in cleaners || cleaners[rows[row].cleaner] != ACTIVE || photos == 0 { return false; }
      StampKeeps(Tables(), row);
      var b, lead := rows[row].booking, rows[row].lead;
      rows := rows[row := rows[row].(checkedOut := true)];
      LastOnSite(before, row);
      if !lead && StillOnSite(Tables(), b) { return false; }
      done := CompleteBooking(b);
    }

    /** bookings.service.js `rescheduleBooking`: every assigned cleaner must be clear at the new time. */
    method RescheduleBooking(b: BookingId, w: Window) returns (ok: bool)
      requires Valid()
      modifies this
      ensures Valid() && Tables() == Apply(old(Tables()), Reschedule(b, w))
      ensures ok == Accepts(old(Tables()), Reschedule(b, w))
      ensures ok ==> old(bookings)[b].status !in {COMPLETED, CANCELLED}
    {
      ApplyKeeps(Tables(), Reschedule(b, w));
      if b !in bookings || Terminal(bookings[b].status) { return false; }
      var todo := RowsOf(Tables(), b);
      while todo != {}
        invariant todo <= RowsOf(Tables(), b)
        invariant forall r :: r in RowsOf(Tables(), b) - todo ==> CleanerClear(Tables(), rows[r].cleaner, w, b)
        decreases |todo|
      {
        var a :| a in todo;
        if !CleanerClear(Tables(), rows[a].cleaner, w, b) { return false; }
        todo := todo - {a};
      }
      bookings := bookings[b := bookings[b].(window := w)];
      return true;
    }

    /** customerPortal.service.js `rescheduleMyBooking`, inside the lock: the cleaners stay only if all
        are free. `read` is the status seen before the lock; the tables stay consistent exactly when
        it still fits. */
    method RescheduleMyBooking(b: BookingId, w: Window, spare: nat, read: Status) returns (ok: bool)
      requires Valid()
      modifies this
      ensures Tables() == Apply(old(Tables()), PortalReschedule(b, w, spare, read))
      ensures Valid() <==> ReadStillFits(old(Tables()), PortalReschedule(b, w, spare, read))
      ensures ok == Accepts(old(Tables()), PortalReschedule(b, w, spare, read))
      ensures ok <==> b in old(bookings) && (read == REQUESTED || read == CONFIRMED || read == ASSIGNED) && spare >= 1
    {
      ApplyKeepsIff(Tables(), PortalReschedule(b, w, spare, read));
      if b !in bookings || read in {COMPLETED, CANCELLED, IN_PROGRESS} || spare < 1 { return false; }
      var assignments := RowsOf(Tables(), b);
      var todo := assignments;
      var released := false;
      while todo != {}
        invariant todo <= assignments
        invariant !released
        invariant forall r :: r in assignments - todo ==> CleanerFree(Tables(), rows[r].cleaner, w, b)
        decreases |todo|
      {
        var a :| a in todo;
        if !CleanerFree(Tables(), rows[a].cleaner, w, b) {
          released := true;
          break;
        }
        todo := todo - {a};
      }
      assert released <==> !CrewIsFree(Tables(), b, w);
      if released { rows := rows - assignments; }
      bookings := bookings[b := Booking(if released && read == ASSIGNED then CONFIRMED else read, w)];
      return true;
    }

    /** cleaners.service.js `releaseCleaner`: the upcoming jobs lose the cleaner, and each booking
        left without one is re-opened; reports the bookings affected. */
    method ReleaseCleaner(c: CleanerId, now: int, to: Employment) returns (unassigned: seq<BookingId>)
      requires Valid() && c in cleaners && to != ACTIVE
      modifies this
      ensures Valid() && Tables() == Apply(old(Tables()), Release(c, now, to))
      ensures cleaners[c] == to
      ensures old(cleaners[c]) != to ==> LeftWork(old(Tables()), Tables(), c, now)
      ensures old(cleaners[c]) != to ==>
                forall b :: b in unassigned <==> b in BookingsOf(old(Tables()), UpcomingRows(old(Tables()), c, now))
    {
      ApplyKeeps(Tables(), Release(c, now, to));
      unassigned := [];
      if cleaners[c] == to { return; }
      ReleaseLeavesNothingUpcoming(Tables(), c, now, to);
      unassigned := TakeOff(UpcomingRows(Tables(), c, now));
      cleaners := cleaners[c := to];
    }

    /** Deletes the rows and re-opens, one row at a time, each booking that has none left. */
    method TakeOff(upcoming: set<RowId>) returns (unassigned: seq<BookingId>)
      requires RowsHaveBookings(Tables()) && upcoming <= rows.Keys
      modifies this`rows, this`bookings
      ensures bookings == Without(old(Tables()), upcoming).bookings && rows == old(rows) - upcoming
      ensures forall b :: b in unassigned <==> b in BookingsOf(old(Tables()), upcoming)
    {
      var read := Tables();
      ghost var target := Without(read, upcoming).bookings;
      ghost var seen: set<BookingId> := {};
      unassigned := [];
      var kept := rows - upcoming;
      rows := kept;
      var todo := upcoming;
      while todo != {}
        invariant todo <= upcoming && rows == kept
        invariant bookings.Keys == read.bookings.Keys
        invariant forall b :: b in read.bookings ==> bookings[b] == if b in seen then target[b] else read.bookings[b]
        invariant seen == BookingsOf(read, upcoming - todo)
        invariant forall b :: b in unassigned <==> b in seen
        decreases todo
      {
        var a :| a in todo;
        var b := read.rows[a].booking;
        OneMoreRow(read, kept, upcoming, todo, a);
        if |RowsAmong(kept, b)| == 0 && read.bookings[b].status == ASSIGNED {
          bookings := bookings[b := bookings[b].(status := CONFIRMED)];
        }
        assert bookings[b] == target[b];
        unassigned, seen := unassigned + [b], seen + {b};
        todo := todo - {a};
      }
      assert upcoming - todo == upcoming;
      forall b | b in read.bookings ensures bookings[b] == target[b] {
        UntouchedByRemoval(read, upcoming, b);
      }
      assert bookings == target;
    }

    method ConfirmBooking(b: BookingId) returns (ok: bool)
      requires Valid()
      modifies this
      ensures Valid() && Tables() == Apply(old(Tables()), Confirm(b))
      ensures ok == Accepts(old(Tables()), Confirm(b))
      ensures ok <==> b in old(bookings) && old(bookings)[b].status != CANCELLED
    {
      ApplyKeeps(Tables(), Confirm(b));
      if b !in bookings || bookings[b].status == CANCELLED { return false; }
      if bookings[b].status != REQUESTED { return true; }
      bookings := bookings[b := bookings[b].(status := CONFIRMED)];
      return true;
    }

    method CancelBooking(b: BookingId) returns (ok: bool)
      requires Valid()
      modifies this
      ensures Valid() && Tables() == Apply(old(Tables()), Cancel(b))
      ensures ok == Accepts(old(Tables()), Cancel(b))
      ensures ok <==> b in old(bookings) && old(bookings)[b].status !in {COMPLETED, CANCELLED}
    {
      ApplyKeeps(Tables(), Cancel(b));
      if b !in bookings || Terminal(bookings[b].status) { return false; }
      bookings := bookings[b := bookings[b].(status := CANCELLED)];
      return true;
    }
  }

  /** With the row checked out, somebody is still on site exactly if it is somebody else. */
  lemma LastOnSite(db: Db, row: RowId)
    requires row in db.rows
    ensures StillOnSite(db.(rows := db.rows[row := db.rows[row].(checkedOut := true)]), db.rows[row].booking) <==>
            exists r :: r in db.rows && r != row && db.rows[r].booking == db.rows[row].booking && db.rows[r].checkedIn && !db.rows[r].checkedOut
  {
    var b, db' := db.rows[row].booking, db.(rows := db.rows[row := db.rows[row].(checkedOut := true)]);
    forall r | r in db.rows ensures r in RowsOf(db', b) <==> db.rows[r].booking == b {
    }
    if StillOnSite(db', b) {
      var r :| r in RowsOf(db', b) && db'.rows[r].checkedIn && !db'.rows[r].checkedOut;
      assert r != row;
    }
    if r :| r in db.rows && r != row && db.rows[r].booking == b && db.rows[r].checkedIn && !db.rows[r].checkedOut {
      assert r in RowsOf(db', b) && db'.rows[r] == db.rows[r];
    }
  }

  function BookingsOf(db: Db, some: set<RowId>): set<BookingId> {
    set r | r in some && r in db.rows :: db.rows[r].booking
  }

  function RowsAmong(rows: map<RowId, Row>, b: BookingId): set<RowId> {
    set r | r in rows && rows[r].booking == b
  }

  lemma OneMoreRow(db: Db, kept: map<RowId, Row>, upcoming: set<RowId>, todo: set<RowId>, a: RowId)
    requires RowsHaveBookings(db) && a in todo && todo <= upcoming && upcoming <= db.rows.Keys && kept == db.rows - upcoming
    ensures var b := db.rows[a].booking;
            && BookingsOf(db, upcoming - (todo - {a})) == BookingsOf(db, upcoming - todo) + {b}
            && Without(db, upcoming).bookings[b] == db.bookings[b].(status :=
                 if |RowsAmong(kept, b)| == 0 && db.bookings[b].status == ASSIGNED then CONFIRMED else db.bookings[b].status)
  {
    var b := db.rows[a].booking;
    assert a in RowsOf(db, b) * upcoming;
    assert upcoming - (todo - {a}) == upcoming - todo + {a};
    assert RowsAmong(kept, b) == RowsOf(db, b) - upcoming;
  }

  lemma UntouchedByRemoval(db: Db, gone: set<RowId>, b: BookingId)
    requires b in db.bookings && gone <= db.rows.Keys
    ensures b !in BookingsOf(db, gone) ==> Without(db, gone).bookings[b] == db.bookings[b]
  {
    if b !in BookingsOf(db, gone) { assert RowsOf(db, b) * gone == {}; }
  }
}
