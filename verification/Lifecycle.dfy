/** The life of a booking and of its assignment rows: every service that creates, assigns, unassigns,
    clocks in, starts, completes, cancels, reschedules, or takes cleaners in and out of service, each
    call as one step; a portal reschedule carries the status it read before its step
    (src/lib/bookingStateMachine.js, src/lib/assignmentConflicts.js and the services that use them). */
module Lifecycle {
  import opened Bookings

  type RowId = nat

  datatype Booking = Booking(status: Status, window: Window)

  /** A bookingAssignment row. */
  datatype Row = Row(booking: BookingId, cleaner: CleanerId, lead: bool, checkedIn: bool, checkedOut: bool)

  datatype Employment = ACTIVE | SUSPENDED | OFFBOARDED

  datatype Db = Db(bookings: map<BookingId, Booking>, rows: map<RowId, Row>, cleaners: map<CleanerId, Employment>)

  // ---- bookingStateMachine.js ------------------------------------------------------

  predicate Terminal(s: Status) {
    s == COMPLETED || s == CANCELLED
  }

  function StatusAfterAssign(s: Status): Status {
    if s == REQUESTED || s == CONFIRMED then ASSIGNED else s
  }

  function StatusAfterUnassign(s: Status, remaining: nat): Status {
    if s == ASSIGNED && remaining == 0 then CONFIRMED else s
  }

  // ---- assignmentConflicts.js ------------------------------------------------------

  /** Row `r` is work of `c` on another booking that blocks the window. */
  predicate Blocks(db: Db, r: RowId, c: CleanerId, w: Window, except: BookingId)
    requires r in db.rows
  {
    var row := db.rows[r];
    && row.cleaner == c && row.booking != except && row.booking in db.bookings
    && db.bookings[row.booking].status != CANCELLED && Overlaps(db.bookings[row.booking].window, w)
  }

  predicate CleanerFree(db: Db, c: CleanerId, w: Window, except: BookingId) {
    forall r :: r in db.rows ==> !Blocks(db, r, c, w, except)
  }

  /** The stricter test inside the staff reschedule, which lets touching bookings conflict. */
  predicate BlocksOrTouches(db: Db, r: RowId, c: CleanerId, w: Window, except: BookingId)
    requires r in db.rows
  {
    var row := db.rows[r];
    && row.cleaner == c && row.booking != except && row.booking in db.bookings
    && db.bookings[row.booking].status != CANCELLED
    && db.bookings[row.booking].window.start <= w.end && db.bookings[row.booking].window.end >= w.start
  }

  predicate CleanerClear(db: Db, c: CleanerId, w: Window, except: BookingId) {
    forall r :: r in db.rows ==> !BlocksOrTouches(db, r, c, w, except)
  }

  // ---- the operations --------------------------------------------------------------

  datatype Op =
    | Create(b: BookingId, window: Window)
    | Assign(b: BookingId, c: CleanerId, row: RowId, lead: bool)     // staff assignment and dispatch alike
    | Unassign(row: RowId)
    | Confirm(b: BookingId)
    | ClockIn(row: RowId)
    | Start(row: RowId)
    | ClockOut(row: RowId)
    | Complete(b: BookingId)
    | CompleteByCleaner(row: RowId, photos: nat)
    | Cancel(b: BookingId)
    | Reschedule(b: BookingId, window: Window)
    | PortalReschedule(b: BookingId, window: Window, spare: nat, read: Status)  // `read`: the status seen before the lock
    | Release(c: CleanerId, now: int, to: Employment)
    | Reactivate(c: CleanerId, room: bool)                           // `room`: the plan's cleaner limit allows one more
    | Onboard(c: CleanerId, room: bool)

  function RowsOf(db: Db, b: BookingId): set<RowId> {
    set r | r in db.rows && db.rows[r].booking == b
  }

  /** The assignments a departing cleaner is taken off: not started, on an upcoming open booking. */
  predicate Upcoming(db: Db, r: RowId, c: CleanerId, now: int)
    requires r in db.rows
  {
    var row := db.rows[r];
    && row.cleaner == c && !row.checkedIn && row.booking in db.bookings
    && db.bookings[row.booking].status in {REQUESTED, CONFIRMED, ASSIGNED} && db.bookings[row.booking].window.start >= now
  }

  function UpcomingRows(db: Db, c: CleanerId, now: int): set<RowId> {
    set r | r in db.rows && Upcoming(db, r, c, now)
  }

  /** Does the call succeed? Refused calls change nothing. */
  predicate Accepts(db: Db, op: Op) {
    match op
    case Create(b, _) => b !in db.bookings
    case Assign(b, c, row, _) =>
      && b in db.bookings && !Terminal(db.bookings[b].status) && c in db.cleaners && db.cleaners[c] == ACTIVE
      && CleanerFree(db, c, db.bookings[b].window, b) && row !in db.rows
    case Unassign(row) =>
      && row in db.rows && db.rows[row].booking in db.bookings
      && !Terminal(db.bookings[db.rows[row].booking].status) && !db.rows[row].checkedIn
    case Confirm(b) => b in db.bookings && db.bookings[b].status != CANCELLED
    case ClockIn(row) =>
      && row in db.rows && db.rows[row].booking in db.bookings
      && (db.rows[row].checkedIn || !Terminal(db.bookings[db.rows[row].booking].status))
    case Start(row) => row in db.rows && db.rows[row].booking in db.bookings && !Terminal(db.bookings[db.rows[row].booking].status)
    case ClockOut(row) => row in db.rows && db.rows[row].booking in db.bookings
    case Complete(b) => b in db.bookings && db.bookings[b].status != CANCELLED
    case CompleteByCleaner(row, photos) =>
      && row in db.rows && db.rows[row].booking in db.bookings && photos > 0
      && db.rows[row].cleaner in db.cleaners && db.cleaners[db.rows[row].cleaner] == ACTIVE
    case Cancel(b) => b in db.bookings && !Terminal(db.bookings[b].status)
    case Reschedule(b, w) =>
      && b in db.bookings && !Terminal(db.bookings[b].status)
      && forall r :: r in RowsOf(db, b) ==> CleanerClear(db, db.rows[r].cleaner, w, b)
    case PortalReschedule(b, _, spare, read) => b in db.bookings && read in {REQUESTED, CONFIRMED, ASSIGNED} && spare >= 1
    case Release(c, _, to) => c in db.cleaners && to != ACTIVE
    case Reactivate(c, room) => c in db.cleaners && db.cleaners[c] == SUSPENDED && room
    case Onboard(c, room) => room && (c !in db.cleaners || db.cleaners[c] == OFFBOARDED)
  }

  function WithStatus(db: Db, b: BookingId, s: Status): Db
    requires b in db.bookings
  {
    db.(bookings := db.bookings[b := db.bookings[b].(status := s)])
  }

  /** `bookingAssignment.updateMany`: everyone still on site is checked out. */
  function CheckedOut(db: Db, b: BookingId): Db {
    db.(rows := map r | r in db.rows ::
      if db.rows[r].booking == b && db.rows[r].checkedIn then db.rows[r].(checkedOut := true) else db.rows[r])
  }

  function Completed(db: Db, b: BookingId): Db
    requires b in db.bookings
  {
    if Terminal(db.bookings[b].status) then db else CheckedOut(WithStatus(db, b, COMPLETED), b)
  }

  function ClockedIn(db: Db, row: RowId): Db
    requires row in db.rows && db.rows[row].booking in db.bookings
  {
    var b := db.rows[row].booking;
    var db' := db.(rows := db.rows[row := db.rows[row].(checkedIn := true)]);
    if db.bookings[b].status in {REQUESTED, CONFIRMED, ASSIGNED} then WithStatus(db', b, IN_PROGRESS) else db'
  }

  /** The status of `b` once the rows in `gone` are deleted: re-opened when it has lost its last cleaner. */
  function AfterRemoval(db: Db, b: BookingId, gone: set<RowId>): Status
    requires b in db.bookings
  {
    if RowsOf(db, b) * gone != {} then StatusAfterUnassign(db.bookings[b].status, |RowsOf(db, b) - gone|) else db.bookings[b].status
  }

  function Without(db: Db, gone: set<RowId>): Db {
    Db(map b | b in db.bookings :: db.bookings[b].(status := AfterRemoval(db, b, gone)), db.rows - gone, db.cleaners)
  }

  /** The effect of an accepted call. */
  function Effect(db: Db, op: Op): Db
    requires Accepts(db, op)
  {
    match op
    case Create(b, w) => db.(bookings := db.bookings[b := Booking(REQUESTED, w)])
    case Assign(b, c, row, lead) =>
      WithStatus(db.(rows := db.rows[row := Row(b, c, lead, false, false)]), b, StatusAfterAssign(db.bookings[b].status))
    case Unassign(row) => Without(db, {row})
    case Confirm(b) => if db.bookings[b].status == REQUESTED then WithStatus(db, b, CONFIRMED) else db
    case ClockIn(row) => if db.rows[row].checkedIn then db else ClockedIn(db, row)
    case Start(row) => if db.rows[row].checkedIn then WithStatus(db, db.rows[row].booking, IN_PROGRESS) else ClockedIn(db, row)
    case ClockOut(row) => db.(rows := db.rows[row := db.rows[row].(checkedOut := true)])
    case Complete(b) => Completed(db, b)
    case CompleteByCleaner(row, _) =>
      var b := db.rows[row].booking;
      var db' := db.(rows := db.rows[row := db.rows[row].(checkedOut := true)]);
      if !db.rows[row].lead && StillOnSite(db', b) then db' else Completed(db', b)
    case Cancel(b) => WithStatus(db, b, CANCELLED)
    case Reschedule(b, w) => db.(bookings := db.bookings[b := db.bookings[b].(window := w)])
    case PortalReschedule(b, w, _, read) =>
      var keep := CrewIsFree(db, b, w);
      var s := if !keep && read == ASSIGNED then CONFIRMED else read;
      db.(bookings := db.bookings[b := Booking(s, w)], rows := if keep then db.rows else db.rows - RowsOf(db, b))
    case Release(c, now, to) =>
      if db.cleaners[c] == to then db
      else Without(db, UpcomingRows(db, c, now)).(cleaners := db.cleaners[c := to])
    case Reactivate(c, _) => db.(cleaners := db.cleaners[c := ACTIVE])
    case Onboard(c, _) => db.(cleaners := db.cleaners[c := ACTIVE])
  }

  /** Everyone assigned to `b` could do it at the new time. */
  predicate CrewIsFree(db: Db, b: BookingId, w: Window) {
    forall r :: r in RowsOf(db, b) ==> CleanerFree(db, db.rows[r].cleaner, w, b)
  }

  predicate StillOnSite(db: Db, b: BookingId) {
    exists r :: r in RowsOf(db, b) && db.rows[r].checkedIn && !db.rows[r].checkedOut
  }

  function Apply(db: Db, op: Op): Db {
    if Accepts(db, op) then Effect(db, op) else db
  }

  function Run(db: Db, ops: seq<Op>): Db
    decreases |ops|
  {
    if ops == [] then db else Run(Apply(db, ops[0]), ops[1..])
  }

  // ---- what holds in every reachable state ------------------------------------------

  ghost predicate RowOf(db: Db, r: RowId, b: BookingId) {
    r in db.rows && db.rows[r].booking == b
  }

  ghost predicate HasRow(db: Db, b: BookingId) {
    exists r :: RowOf(db, r, b)
  }

  ghost predicate HasCheckIn(db: Db, b: BookingId) {
    exists r :: RowOf(db, r, b) && db.rows[r].checkedIn
  }

  /** Status and rows agree: an open booking waits for a cleaner exactly when it has no rows and
      is in progress exactly when someone checked in; nobody is still on site of a completed one. */
  ghost predicate StatusFits(db: Db, b: BookingId)
    requires b in db.bookings
  {
    var s := db.bookings[b].status;
    && (s != COMPLETED && s != CANCELLED ==> ((s == REQUESTED || s == CONFIRMED) <==> !HasRow(db, b)))
    && (s != COMPLETED && s != CANCELLED ==> (s == IN_PROGRESS <==> HasCheckIn(db, b)))
    && (s == COMPLETED ==> forall r :: RowOf(db, r, b) && db.rows[r].checkedIn ==> db.rows[r].checkedOut)
  }

  /** Rows `r` and `q` put one cleaner on two overlapping live bookings. */
  ghost predicate DoubleBooked(db: Db, r: RowId, q: RowId)
    requires r in db.rows && q in db.rows && db.rows[r].booking in db.bookings && db.rows[q].booking in db.bookings
  {
    var a, b := db.rows[r].booking, db.rows[q].booking;
    && a != b && db.rows[r].cleaner == db.rows[q].cleaner
    && db.bookings[a].status != CANCELLED && db.bookings[b].status != CANCELLED
    && Overlaps(db.bookings[a].window, db.bookings[b].window)
  }

  ghost predicate RowsHaveBookings(db: Db) {
    forall r :: r in db.rows ==> db.rows[r].booking in db.bookings
  }

  ghost predicate StatusesFit(db: Db) {
    forall b :: b in db.bookings ==> StatusFits(db, b)
  }

  ghost predicate NobodyDoubleBooked(db: Db)
    requires RowsHaveBookings(db)
  {
    forall r, q :: r in db.rows && q in db.rows ==> !DoubleBooked(db, r, q)
  }

  /** Rows belong to bookings, and nobody is double-booked. */
  ghost predicate Apart(db: Db) {
    RowsHaveBookings(db) && NobodyDoubleBooked(db)
  }

  ghost predicate Inv(db: Db) {
    Apart(db) && StatusesFit(db)
  }

  // ---- every call keeps it -----------------------------------------------------------

  /** Nothing that matters to booking `o` has changed. */
  ghost predicate Untouched(db: Db, db': Db, o: BookingId)
    requires o in db.bookings && o in db'.bookings
  {
    && db'.bookings[o].status == db.bookings[o].status
    && (forall r :: RowOf(db, r, o) <==> RowOf(db', r, o))
    && (forall r :: RowOf(db, r, o) ==> db'.rows[r].checkedIn == db.rows[r].checkedIn && (db.rows[r].checkedOut ==> db'.rows[r].checkedOut))
  }

  lemma UntouchedFits(db: Db, db': Db, o: BookingId)
    requires o in db.bookings && o in db'.bookings && StatusFits(db, o) && Untouched(db, db', o)
    ensures StatusFits(db', o)
  {
    assert HasRow(db', o) ==> HasRow(db, o);
    assert HasRow(db, o) ==> HasRow(db', o);
    assert HasCheckIn(db', o) ==> HasCheckIn(db, o);
    assert HasCheckIn(db, o) ==> HasCheckIn(db', o);
  }

  /** Without new work, moved windows or revived bookings nobody becomes double-booked. This is
      where CANCELLED has to be final: cancelled bookings keep their rows. */
  lemma NoNewWork(db: Db, db': Db)
    requires Apart(db)
    requires forall r :: r in db'.rows ==> r in db.rows && db'.rows[r].booking == db.rows[r].booking && db'.rows[r].cleaner == db.rows[r].cleaner
    requires forall b :: b in db.bookings ==>
               b in db'.bookings && db'.bookings[b].window == db.bookings[b].window && (db.bookings[b].status == CANCELLED ==> db'.bookings[b].status == CANCELLED)
    ensures RowsHaveBookings(db') && NobodyDoubleBooked(db')
  {
    forall r, q | r in db'.rows && q in db'.rows ensures !DoubleBooked(db', r, q) {
      assert !DoubleBooked(db, r, q);
    }
  }

  // ---- nobody is ever double-booked, whatever a portal reschedule has read -------------------

  lemma NewRowFits(db: Db, db': Db, b: BookingId, c: CleanerId, row: RowId)
    requires Apart(db) && b in db.bookings && row !in db.rows && CleanerFree(db, c, db.bookings[b].window, b)
    requires row in db'.rows && db'.rows - {row} == db.rows && db'.rows[row].booking == b && db'.rows[row].cleaner == c
    requires RowsHaveBookings(db')
    requires forall o :: o in db.bookings ==> o in db'.bookings && db'.bookings[o].window == db.bookings[o].window
    requires forall o :: o in db.bookings ==> (db'.bookings[o].status == CANCELLED <==> db.bookings[o].status == CANCELLED)
    ensures NobodyDoubleBooked(db')
  {
    forall r, q | r in db'.rows && q in db'.rows ensures !DoubleBooked(db', r, q) {
      if r != row { assert r in db'.rows - {row} && db'.rows[r] == db.rows[r] && !Blocks(db, r, c, db.bookings[b].window, b); }
      if q != row { assert q in db'.rows - {row} && db'.rows[q] == db.rows[q] && !Blocks(db, q, c, db.bookings[b].window, b); }
      if r != row && q != row { assert !DoubleBooked(db, r, q); }
    }
  }

  /** A booking may move when each of its cleaners is free at the new time. */
  lemma MoveKeepsApart(db: Db, db': Db, b: BookingId)
    requires Apart(db) && b in db.bookings && RowsHaveBookings(db')
    requires db'.rows.Keys <= db.rows.Keys && db'.bookings.Keys == db.bookings.Keys
    requires forall r :: r in db'.rows ==> db'.rows[r] == db.rows[r]
    requires forall o :: o in db.bookings && o != b ==> db'.bookings[o] == db.bookings[o]
    requires forall r :: r in db'.rows && db'.rows[r].booking == b ==> CleanerFree(db, db.rows[r].cleaner, db'.bookings[b].window, b)
    ensures NobodyDoubleBooked(db')
  {
    forall r, q | r in db'.rows && q in db'.rows ensures !DoubleBooked(db', r, q) {
      assert !DoubleBooked(db, r, q);
      if db.rows[r].booking == b && db.rows[q].booking != b {
        assert !Blocks(db, q, db.rows[r].cleaner, db'.bookings[b].window, b);
      } else if db.rows[q].booking == b && db.rows[r].booking != b {
        assert !Blocks(db, r, db.rows[q].cleaner, db'.bookings[b].window, b);
      }
    }
  }

  /** The staff test is stricter than needed: clear of touching work means free. */
  lemma ClearMeansFree(db: Db, c: CleanerId, w: Window, b: BookingId)
    requires CleanerClear(db, c, w, b)
    ensures CleanerFree(db, c, w, b)
  {
    forall r | r in db.rows ensures !Blocks(db, r, c, w, b) {
      assert !BlocksOrTouches(db, r, c, w, b);
    }
  }

  lemma CreateKeepsApart(db: Db, b: BookingId, w: Window)
    requires Apart(db) && Accepts(db, Create(b, w))
    ensures Apart(Effect(db, Create(b, w)))
  {
    var db' := Effect(db, Create(b, w));
    forall r, q | r in db'.rows && q in db'.rows ensures !DoubleBooked(db', r, q) {
      assert !DoubleBooked(db, r, q);
    }
  }

  lemma AssignKeepsApart(db: Db, b: BookingId, c: CleanerId, row: RowId, lead: bool)
    requires Apart(db) && Accepts(db, Assign(b, c, row, lead))
    ensures Apart(Effect(db, Assign(b, c, row, lead)))
  {
    NewRowFits(db, Effect(db, Assign(b, c, row, lead)), b, c, row);
  }

  lemma RescheduleKeepsApart(db: Db, b: BookingId, w: Window)
    requires Apart(db) && Accepts(db, Reschedule(b, w))
    ensures Apart(Effect(db, Reschedule(b, w)))
  {
    var db' := Effect(db, Reschedule(b, w));
    forall r | r in db'.rows && db'.rows[r].booking == b ensures CleanerFree(db, db.rows[r].cleaner, w, b) {
      assert r in RowsOf(db, b);
      ClearMeansFree(db, db.rows[r].cleaner, w, b);
    }
    MoveKeepsApart(db, db', b);
  }

  /** A kept crew was checked at the new time, so even a cancelled booking may be revived with it. */
  lemma PortalRescheduleKeepsApart(db: Db, b: BookingId, w: Window, spare: nat, read: Status)
    requires Apart(db) && Accepts(db, PortalReschedule(b, w, spare, read))
    ensures Apart(Effect(db, PortalReschedule(b, w, spare, read)))
  {
    var db' := Effect(db, PortalReschedule(b, w, spare, read));
    forall r | r in db'.rows && db'.rows[r].booking == b ensures CleanerFree(db, db.rows[r].cleaner, w, b) {
      assert r in RowsOf(db, b);
    }
    MoveKeepsApart(db, db', b);
  }

  lemma RemovalKeepsApart(db: Db, gone: set<RowId>)
    requires Apart(db)
    ensures Apart(Without(db, gone))
  {
    NoNewWork(db, Without(db, gone));
  }

  lemma CompletionKeepsApart(db: Db, b: BookingId)
    requires Apart(db) && b in db.bookings
    ensures Apart(Completed(db, b))
  {
    NoNewWork(db, Completed(db, b));
  }

  lemma StampKeepsApart(db: Db, row: RowId)
    requires Apart(db) && row in db.rows
    ensures Apart(db.(rows := db.rows[row := db.rows[row].(checkedOut := true)]))
  {
    NoNewWork(db, db.(rows := db.rows[row := db.rows[row].(checkedOut := true)]));
  }

  lemma StaffingKeepsApart(db: Db, cleaners: map<CleanerId, Employment>)
    requires Apart(db)
    ensures Apart(db.(cleaners := cleaners))
  {
    NoNewWork(db, db.(cleaners := cleaners));
  }

  /** Confirming, cancelling, checking in and starting. */
  lemma StatusCallsKeepApart(db: Db, op: Op)
    requires Apart(db) && Accepts(db, op) && (op.Confirm? || op.Cancel? || op.ClockIn? || op.Start?)
    ensures Apart(Effect(db, op))
  {
    NoNewWork(db, Effect(db, op));
  }

  lemma ApplyKeepsApart(db: Db, op: Op)
    requires Apart(db)
    ensures Apart(Apply(db, op))
  {
    if Accepts(db, op) {
      match op
      case Create(b, w) => CreateKeepsApart(db, b, w);
      case Assign(b, c, row, lead) => AssignKeepsApart(db, b, c, row, lead);
      case Reschedule(b, w) => RescheduleKeepsApart(db, b, w);
      case PortalReschedule(b, w, spare, read) => PortalRescheduleKeepsApart(db, b, w, spare, read);
      case Unassign(row) => RemovalKeepsApart(db, {row});
      case Release(c, now, to) =>
        RemovalKeepsApart(db, UpcomingRows(db, c, now));
        if db.cleaners[c] != to { StaffingKeepsApart(Without(db, UpcomingRows(db, c, now)), db.cleaners[c := to]); }
      case Complete(b) => CompletionKeepsApart(db, b);
      case CompleteByCleaner(row, _) =>
        StampKeepsApart(db, row);
        CompletionKeepsApart(db.(rows := db.rows[row := db.rows[row].(checkedOut := true)]), db.rows[row].booking);
      case ClockOut(row) => StampKeepsApart(db, row);
      case Reactivate(c, _) => StaffingKeepsApart(db, db.cleaners[c := ACTIVE]);
      case Onboard(c, _) => StaffingKeepsApart(db, db.cleaners[c := ACTIVE]);
      case _ => StatusCallsKeepApart(db, op);
    }
  }

  /** Over every run of all operations, however stale what portal reschedules have read: no cleaner is
      on two overlapping live bookings. */
  lemma {:induction false} NeverDoubleBooked(db: Db, ops: seq<Op>)
    requires Apart(db)
    ensures Apart(Run(db, ops))
    decreases |ops|
  {
    if ops != [] {
      ApplyKeepsApart(db, ops[0]);
      NeverDoubleBooked(Apply(db, ops[0]), ops[1..]);
    }
  }

  // ---- status and rows agree -----------------------------------------------------------

  lemma CreateKeeps(db: Db, b: BookingId, w: Window)
    requires Inv(db) && Accepts(db, Create(b, w))
    ensures Inv(Effect(db, Create(b, w)))
  {
    var db' := Effect(db, Create(b, w));
    CreateKeepsApart(db, b, w);
    forall o | o in db'.bookings ensures StatusFits(db', o) {
      if o != b { UntouchedFits(db, db', o); }
    }
  }

  lemma AssignKeeps(db: Db, b: BookingId, c: CleanerId, row: RowId, lead: bool)
    requires Inv(db) && Accepts(db, Assign(b, c, row, lead))
    ensures Inv(Effect(db, Assign(b, c, row, lead)))
  {
    var db' := Effect(db, Assign(b, c, row, lead));
    forall o | o in db'.bookings ensures StatusFits(db', o) {
      if o != b {
        UntouchedFits(db, db', o);
      } else {
        assert StatusFits(db, b) && RowOf(db', row, b);
        assert HasCheckIn(db', b) ==> HasCheckIn(db, b) by {
          assert forall r :: RowOf(db', r, b) && db'.rows[r].checkedIn ==> RowOf(db, r, b);
        }
        assert HasCheckIn(db, b) ==> HasCheckIn(db', b) by {
          assert forall r :: RowOf(db, r, b) ==> RowOf(db', r, b);
        }
      }
    }
    AssignKeepsApart(db, b, c, row, lead);
  }

  /** Deleting rows nobody started on, from open bookings, re-opens exactly those left without a cleaner. */
  lemma RemovalKeeps(db: Db, gone: set<RowId>)
    requires Inv(db)
    requires forall r :: r in gone ==> r in db.rows && !db.rows[r].checkedIn && !Terminal(db.bookings[db.rows[r].booking].status)
    ensures Inv(Without(db, gone))
  {
    var db' := Without(db, gone);
    NoNewWork(db, db');
    forall o | o in db'.bookings ensures StatusFits(db', o) {
      RemovalFits(db, gone, o);
    }
  }

  lemma RemovalFits(db: Db, gone: set<RowId>, o: BookingId)
    requires Inv(db) && o in db.bookings
    requires forall r :: r in gone ==> r in db.rows && !db.rows[r].checkedIn && !Terminal(db.bookings[db.rows[r].booking].status)
    ensures StatusFits(Without(db, gone), o)
  {
    var db' := Without(db, gone);
    assert StatusFits(db, o);
    var left := RowsOf(db, o) - gone;
    assert forall r :: RowOf(db', r, o) <==> r in left;
    assert HasCheckIn(db', o) <==> HasCheckIn(db, o) by {
      assert forall r :: RowOf(db, r, o) && db.rows[r].checkedIn ==> RowOf(db', r, o);
      assert forall r :: RowOf(db', r, o) ==> RowOf(db, r, o);
    }
    if RowsOf(db, o) * gone == {} {
      forall r | r in RowsOf(db, o) ensures r in left { assert r !in RowsOf(db, o) * gone; }
      assert left == RowsOf(db, o);
      assert forall r :: RowOf(db, r, o) <==> r in left;
      UntouchedFits(db, db', o);
    } else {
      var r :| r in RowsOf(db, o) * gone;
      assert RowOf(db, r, o);
      assert HasRow(db', o) <==> left != {} by {
        if left != {} { var q :| q in left; assert RowOf(db', q, o); }
      }
      assert |left| == 0 <==> left == {};
    }
  }

  lemma ClockInKeeps(db: Db, row: RowId)
    requires Inv(db) && row in db.rows && !Terminal(db.bookings[db.rows[row].booking].status)
    ensures Inv(ClockedIn(db, row))
  {
    var db' := ClockedIn(db, row);
    var b := db.rows[row].booking;
    assert StatusFits(db, b) && RowOf(db, row, b) && RowOf(db', row, b);
    NoNewWork(db, db');
    forall o | o in db'.bookings ensures StatusFits(db', o) {
      if o != b { UntouchedFits(db, db', o); }
    }
  }

  /** On a checked-in row of an open booking the status is IN_PROGRESS already: `start` has nothing to do. */
  lemma StartingAgainChangesNothing(db: Db, row: RowId)
    requires Inv(db) && Accepts(db, Start(row)) && db.rows[row].checkedIn
    ensures Effect(db, Start(row)) == db
  {
    var b := db.rows[row].booking;
    assert StatusFits(db, b) && RowOf(db, row, b);
    assert db.bookings[b := db.bookings[b].(status := IN_PROGRESS)] == db.bookings;
  }

  lemma StampKeeps(db: Db, row: RowId)
    requires Inv(db) && row in db.rows
    ensures Inv(db.(rows := db.rows[row := db.rows[row].(checkedOut := true)]))
  {
    var db' := db.(rows := db.rows[row := db.rows[row].(checkedOut := true)]);
    NoNewWork(db, db');
    forall o | o in db'.bookings ensures StatusFits(db', o) {
      UntouchedFits(db, db', o);
    }
  }

  lemma CompleteKeeps(db: Db, b: BookingId)
    requires Inv(db) && b in db.bookings
    ensures Inv(Completed(db, b))
  {
    if !Terminal(db.bookings[b].status) {
      var db' := Completed(db, b);
      NoNewWork(db, db');
      forall o | o in db'.bookings ensures StatusFits(db', o) {
        if o != b { UntouchedFits(db, db', o); }
      }
    }
  }

  lemma StatusChangeKeeps(db: Db, b: BookingId, s: Status)
    requires Inv(db) && b in db.bookings && !Terminal(db.bookings[b].status)
    requires s == CANCELLED || (s == CONFIRMED && db.bookings[b].status == REQUESTED)
    ensures Inv(WithStatus(db, b, s))
  {
    var db' := WithStatus(db, b, s);
    NoNewWork(db, db');
    forall o | o in db'.bookings ensures StatusFits(db', o) {
      if o != b { UntouchedFits(db, db', o); } else {
        assert StatusFits(db, b);
        assert forall r :: RowOf(db, r, b) <==> RowOf(db', r, b);
        assert HasRow(db', b) ==> HasRow(db, b);
        assert HasCheckIn(db', b) ==> HasCheckIn(db, b);
      }
    }
  }

  lemma RescheduleKeeps(db: Db, b: BookingId, w: Window)
    requires Inv(db) && Accepts(db, Reschedule(b, w))
    ensures Inv(Effect(db, Reschedule(b, w)))
  {
    var db' := Effect(db, Reschedule(b, w));
    RescheduleKeepsApart(db, b, w);
    forall o | o in db'.bookings ensures StatusFits(db', o) {
      UntouchedFits(db, db', o);
    }
  }

  /** What a portal reschedule relies on when it writes back a status read earlier: if the crew
      stays, nobody has started meanwhile, and there is a crew exactly if the status says so. */
  predicate ReadStillFits(db: Db, op: Op) {
    op.PortalReschedule? && Accepts(db, op) && CrewIsFree(db, op.b, op.window) ==>
      && (forall r :: r in RowsOf(db, op.b) ==> !db.rows[r].checkedIn)
      && (op.read == ASSIGNED <==> RowsOf(db, op.b) != {})
  }

  lemma PortalLeavesOthers(db: Db, b: BookingId, w: Window, spare: nat, read: Status)
    requires Inv(db) && Accepts(db, PortalReschedule(b, w, spare, read))
    ensures forall o :: o in db.bookings && o != b ==> StatusFits(Effect(db, PortalReschedule(b, w, spare, read)), o)
  {
    forall o | o in db.bookings && o != b ensures StatusFits(Effect(db, PortalReschedule(b, w, spare, read)), o) {
      UntouchedFits(db, Effect(db, PortalReschedule(b, w, spare, read)), o);
    }
  }

  lemma ReleasedCrewFits(db: Db, b: BookingId, w: Window, spare: nat, read: Status)
    requires Inv(db) && Accepts(db, PortalReschedule(b, w, spare, read)) && !CrewIsFree(db, b, w)
    ensures StatusFits(Effect(db, PortalReschedule(b, w, spare, read)), b)
  {
    var db' := Effect(db, PortalReschedule(b, w, spare, read));
    assert forall r :: RowOf(db, r, b) ==> r in RowsOf(db, b);
    assert !HasRow(db', b) && !HasCheckIn(db', b);
  }

  lemma KeptCrewFitsIff(db: Db, b: BookingId, w: Window, spare: nat, read: Status)
    requires Inv(db) && Accepts(db, PortalReschedule(b, w, spare, read)) && CrewIsFree(db, b, w)
    ensures StatusFits(Effect(db, PortalReschedule(b, w, spare, read)), b) <==> ReadStillFits(db, PortalReschedule(b, w, spare, read))
  {
    var db' := Effect(db, PortalReschedule(b, w, spare, read));
    assert forall r :: RowOf(db', r, b) <==> r in RowsOf(db, b);
    assert HasRow(db', b) <==> RowsOf(db, b) != {} by {
      if RowsOf(db, b) != {} { var r :| r in RowsOf(db, b); assert RowOf(db', r, b); }
    }
    assert HasCheckIn(db', b) <==> !(forall r :: r in RowsOf(db, b) ==> !db.rows[r].checkedIn) by {
      if r :| r in RowsOf(db, b) && db.rows[r].checkedIn { assert RowOf(db', r, b); }
    }
  }

  /** A portal reschedule keeps everything exactly when the status it read still fits the rows it keeps. */
  lemma PortalKeepsIff(db: Db, b: BookingId, w: Window, spare: nat, read: Status)
    requires Inv(db) && Accepts(db, PortalReschedule(b, w, spare, read))
    ensures Inv(Effect(db, PortalReschedule(b, w, spare, read))) <==> ReadStillFits(db, PortalReschedule(b, w, spare, read))
  {
    PortalRescheduleKeepsApart(db, b, w, spare, read);
    PortalLeavesOthers(db, b, w, spare, read);
    if CrewIsFree(db, b, w) { KeptCrewFitsIff(db, b, w, spare, read); } else { ReleasedCrewFits(db, b, w, spare, read); }
  }

  /** If nothing touched the booking between read and write, the read fits. */
  lemma FreshReadFits(db: Db, op: Op)
    requires Inv(db) && op.PortalReschedule? && op.b in db.bookings && op.read == db.bookings[op.b].status
    ensures ReadStillFits(db, op)
  {
    assert StatusFits(db, op.b);
    assert forall r :: RowOf(db, r, op.b) <==> r in RowsOf(db, op.b);
    if RowsOf(db, op.b) != {} { var r :| r in RowsOf(db, op.b); assert RowOf(db, r, op.b); }
    assert HasCheckIn(db, op.b) <== exists r :: r in RowsOf(db, op.b) && db.rows[r].checkedIn;
  }

  lemma StaffingKeeps(db: Db, cleaners: map<CleanerId, Employment>)
    requires Inv(db)
    ensures Inv(db.(cleaners := cleaners))
  {
    var db' := db.(cleaners := cleaners);
    NoNewWork(db, db');
    forall o | o in db'.bookings ensures StatusFits(db', o) {
      UntouchedFits(db, db', o);
    }
  }

  /** Every call keeps the invariant, and a portal reschedule exactly when its read still fits. */
  lemma ApplyKeepsIff(db: Db, op: Op)
    requires Inv(db)
    ensures Inv(Apply(db, op)) <==> ReadStillFits(db, op)
  {
    if op.PortalReschedule? && Accepts(db, op) {
      PortalKeepsIff(db, op.b, op.window, op.spare, op.read);
    } else {
      ApplyKeeps(db, op);
    }
  }

  lemma ApplyKeeps(db: Db, op: Op)
    requires Inv(db) && ReadStillFits(db, op)
    ensures Inv(Apply(db, op))
  {
    if Accepts(db, op) {
      match op
      case Create(b, w) => CreateKeeps(db, b, w);
      case Assign(b, c, row, lead) => AssignKeeps(db, b, c, row, lead);
      case Unassign(row) => RemovalKeeps(db, {row});
      case Confirm(b) => if db.bookings[b].status == REQUESTED { StatusChangeKeeps(db, b, CONFIRMED); }
      case ClockIn(row) => if !db.rows[row].checkedIn { ClockInKeeps(db, row); }
      case Start(row) => if db.rows[row].checkedIn { StartingAgainChangesNothing(db, row); } else { ClockInKeeps(db, row); }
      case ClockOut(row) => StampKeeps(db, row);
      case Complete(b) => CompleteKeeps(db, b);
      case CompleteByCleaner(row, _) =>
        StampKeeps(db, row);
        CompleteKeeps(db.(rows := db.rows[row := db.rows[row].(checkedOut := true)]), db.rows[row].booking);
      case Cancel(b) => StatusChangeKeeps(db, b, CANCELLED);
      case Reschedule(b, w) => RescheduleKeeps(db, b, w);
      case PortalReschedule(b, w, spare, read) => PortalKeepsIff(db, b, w, spare, read);
      case Release(c, now, to) =>
        if db.cleaners[c] != to {
          RemovalKeeps(db, UpcomingRows(db, c, now));
          StaffingKeeps(Without(db, UpcomingRows(db, c, now)), db.cleaners[c := to]);
        }
      case Reactivate(c, _) => StaffingKeeps(db, db.cleaners[c := ACTIVE]);
      case Onboard(c, _) => StaffingKeeps(db, db.cleaners[c := ACTIVE]);
    }
  }

  /** Every portal reschedule of the run writes a status that still fits. */
  predicate ReadsFit(db: Db, ops: seq<Op>)
    decreases |ops|
  {
    ops == [] || (ReadStillFits(db, ops[0]) && ReadsFit(Apply(db, ops[0]), ops[1..]))
  }

  /** In every reachable state of such a run status and rows agree, too. */
  lemma {:induction false} EveryRunKeeps(db: Db, ops: seq<Op>)
    requires Inv(db) && ReadsFit(db, ops)
    ensures Inv(Run(db, ops))
    decreases |ops|
  {
    if ops != [] {
      ApplyKeeps(db, ops[0]);
      EveryRunKeeps(Apply(db, ops[0]), ops[1..]);
    }
  }

  ghost predicate AllAlong(db: Db, ops: seq<Op>)
    decreases |ops|
  {
    Inv(db) && (ops != [] ==> AllAlong(Apply(db, ops[0]), ops[1..]))
  }

  /** And the condition is exact: the invariant holds all along a run exactly when no portal
      reschedule in it writes back a status that has stopped fitting. */
  lemma {:induction false} RunsKeepAllAlongIff(db: Db, ops: seq<Op>)
    requires Inv(db)
    ensures AllAlong(db, ops) <==> ReadsFit(db, ops)
    decreases |ops|
  {
    if ops != [] {
      ApplyKeepsIff(db, ops[0]);
      if ReadStillFits(db, ops[0]) { RunsKeepAllAlongIff(Apply(db, ops[0]), ops[1..]); }
    }
  }

  /** Runs without portal reschedules need no care. */
  lemma {:induction false} OtherRunsFit(db: Db, ops: seq<Op>)
    requires forall i :: 0 <= i < |ops| ==> !ops[i].PortalReschedule?
    ensures ReadsFit(db, ops)
    decreases |ops|
  {
    if ops != [] { OtherRunsFit(Apply(db, ops[0]), ops[1..]); }
  }

  /** Tables before anything happened. */
  function NoData(): Db {
    Db(map[], map[], map[])
  }

  // ---- what the calls achieve -----------------------------------------------------------

  lemma MayBeUnassigned(db: Db, b: BookingId, c: CleanerId, row: RowId, lead: bool)
    requires Accepts(db, Assign(b, c, row, lead))
    ensures Accepts(Effect(db, Assign(b, c, row, lead)), Unassign(row))
    ensures Without(Effect(db, Assign(b, c, row, lead)), {row}).rows == db.rows
  {
  }

  lemma BookingUndone(db: Db, b: BookingId, c: CleanerId, row: RowId, lead: bool, o: BookingId)
    requires Inv(db) && Accepts(db, Assign(b, c, row, lead)) && o in db.bookings
    ensures var after := Without(Effect(db, Assign(b, c, row, lead)), {row}).bookings;
            && o in after
            && after[o] == if o == b && db.bookings[b].status == REQUESTED then db.bookings[o].(status := CONFIRMED) else db.bookings[o]
  {
    StatusUndone(db, b, c, row, lead, o);
  }

  lemma BookingsUndone(db: Db, b: BookingId, c: CleanerId, row: RowId, lead: bool)
    requires Inv(db) && Accepts(db, Assign(b, c, row, lead))
    ensures Without(Effect(db, Assign(b, c, row, lead)), {row}).bookings
         == if db.bookings[b].status == REQUESTED then WithStatus(db, b, CONFIRMED).bookings else db.bookings
  {
    var after := Without(Effect(db, Assign(b, c, row, lead)), {row}).bookings;
    forall o | o in db.bookings
      ensures o in after && after[o] == if o == b && db.bookings[b].status == REQUESTED then db.bookings[o].(status := CONFIRMED) else db.bookings[o]
    {
      BookingUndone(db, b, c, row, lead, o);
    }
    assert after.Keys == db.bookings.Keys;
  }

  /** Taking a cleaner off again leaves the booking as it was before, except that a REQUESTED one is now CONFIRMED. */
  lemma UnassigningUndoesAssigning(db: Db, b: BookingId, c: CleanerId, row: RowId, lead: bool)
    requires Inv(db) && Accepts(db, Assign(b, c, row, lead))
    ensures var db' := Apply(db, Assign(b, c, row, lead));
            && Accepts(db', Unassign(row))
            && Apply(db', Unassign(row)) == if db.bookings[b].status == REQUESTED then WithStatus(db, b, CONFIRMED) else db
  {
    MayBeUnassigned(db, b, c, row, lead);
    BookingsUndone(db, b, c, row, lead);
  }

  lemma StatusUndone(db: Db, b: BookingId, c: CleanerId, row: RowId, lead: bool, o: BookingId)
    requires Inv(db) && Accepts(db, Assign(b, c, row, lead)) && o in db.bookings
    ensures AfterRemoval(Effect(db, Assign(b, c, row, lead)), o, {row})
         == if o == b && db.bookings[b].status == REQUESTED then CONFIRMED else db.bookings[o].status
  {
    var db' := Effect(db, Assign(b, c, row, lead));
    if o == b {
      BackToWaiting(db, db', b, row);
    } else {
      assert RowsOf(db', o) * {row} == {};
    }
  }

  lemma BackToWaiting(db: Db, db': Db, b: BookingId, row: RowId)
    requires b in db.bookings && b in db'.bookings && StatusFits(db, b) && !Terminal(db.bookings[b].status)
    requires row in db'.rows && db'.rows[row].booking == b && row !in db.rows && db'.rows - {row} == db.rows
    requires db'.bookings[b].status == StatusAfterAssign(db.bookings[b].status)
    ensures AfterRemoval(db', b, {row}) == if db.bookings[b].status == REQUESTED then CONFIRMED else db.bookings[b].status
  {
    assert row in RowsOf(db', b) * {row};
    forall r | r in RowsOf(db', b) - {row} ensures r in RowsOf(db, b) { assert r in db'.rows - {row}; }
    forall r | r in RowsOf(db, b) ensures r in RowsOf(db', b) - {row} { assert r in db'.rows - {row}; }
    assert RowsOf(db', b) - {row} == RowsOf(db, b);
    if RowsOf(db, b) == {} {
      assert !HasRow(db, b) by { assert forall r :: RowOf(db, r, b) ==> r in RowsOf(db, b); }
    } else {
      var r :| r in RowsOf(db, b);
      assert RowOf(db, r, b);
    }
  }

  /** Unstarted work of `c` on a booking that is not under way and starts at `now` or later. */
  predicate StillAhead(db: Db, r: RowId, c: CleanerId, now: int)
    requires r in db.rows && db.rows[r].booking in db.bookings
  {
    var row, b := db.rows[r], db.bookings[db.rows[r].booking];
    && row.cleaner == c && !row.checkedIn && now <= b.window.start
    && b.status != IN_PROGRESS && b.status != COMPLETED && b.status != CANCELLED
  }

  /** From `db` to `db'` cleaner `c` leaves: nothing unstarted is ahead of them any more, everything else
      - other people's work, started work, bookings under way or ended, bookings that started before -
      is still there, and they get no new work. */
  ghost predicate LeftWork(db: Db, db': Db, c: CleanerId, now: int)
    requires RowsHaveBookings(db) && RowsHaveBookings(db')
  {
    && (forall r :: r in db'.rows ==> !StillAhead(db', r, c, now))
    && (forall r :: r in db.rows && !StillAhead(db, r, c, now) ==> r in db'.rows && db'.rows[r] == db.rows[r])
    && (forall r :: r in db'.rows ==> r in db.rows)
    && (forall b, row, lead :: !Accepts(db', Assign(b, c, row, lead)))
  }

  lemma UpcomingIsAhead(db: Db, r: RowId, c: CleanerId, now: int)
    requires r in db.rows && db.rows[r].booking in db.bookings
    ensures Upcoming(db, r, c, now) <==> StillAhead(db, r, c, now)
  {
  }

  /** A cleaner taken out of service leaves the work ahead of them, and only that. */
  lemma ReleaseLeavesNothingUpcoming(db: Db, c: CleanerId, now: int, to: Employment)
    requires Inv(db) && Accepts(db, Release(c, now, to)) && db.cleaners[c] != to
    ensures RowsHaveBookings(Apply(db, Release(c, now, to))) && LeftWork(db, Apply(db, Release(c, now, to)), c, now)
    ensures Apply(db, Release(c, now, to)).cleaners == db.cleaners[c := to]
  {
    var db' := Apply(db, Release(c, now, to));
    ApplyKeeps(db, Release(c, now, to));
    forall r | r in db.rows ensures r in db'.rows <==> !StillAhead(db, r, c, now) {
      UpcomingIsAhead(db, r, c, now);
    }
    forall r | r in db'.rows ensures !StillAhead(db', r, c, now) {
      UpcomingIsAhead(db, r, c, now);
    }
  }

  /** On the 50th the cleaner of jobs on the 0th and the 100th leaves: the past job stays theirs, the
      coming one waits for someone else. */
  lemma ReleaseOfBackToBack()
    ensures var db' := Apply(BackToBack(), Release(7, 50, OFFBOARDED));
            && db'.rows == map[0 := Row(0, 7, false, false, false)]
            && db'.bookings == map[0 := Booking(ASSIGNED, Window(0, 10)), 1 := Booking(CONFIRMED, Window(100, 110))]
  {
    var db := BackToBack();
    assert UpcomingRows(db, 7, 50) == {1};
    assert RowsOf(db, 0) == {0} && RowsOf(db, 1) == {1};
    assert RowsOf(db, 1) - {1} == {};
    assert db.rows - {1} == map[0 := Row(0, 7, false, false, false)];
  }

  ghost predicate Forward(db: Db, w: Window) {
    w.start < w.end && forall b :: b in db.bookings ==> db.bookings[b].window.start < db.bookings[b].window.end
  }

  /** Row `r` puts `c` to work on another live booking at an instant of the window. */
  ghost predicate AtWorkDuring(db: Db, r: RowId, c: CleanerId, w: Window, except: BookingId)
    requires r in db.rows && db.rows[r].booking in db.bookings
  {
    var b := db.rows[r].booking;
    && db.rows[r].cleaner == c && b != except && db.bookings[b].status != CANCELLED
    && exists t: int :: During(t, db.bookings[b].window) && During(t, w)
  }

  lemma FreeMeansNotAtWork(db: Db, c: CleanerId, w: Window, except: BookingId)
    requires RowsHaveBookings(db) && Forward(db, w)
    ensures CleanerFree(db, c, w, except) <==> forall r :: r in db.rows ==> !AtWorkDuring(db, r, c, w, except)
  {
    forall r | r in db.rows ensures Blocks(db, r, c, w, except) <==> AtWorkDuring(db, r, c, w, except) {
      OverlapsIffShareAnInstant(db.bookings[db.rows[r].booking].window, w);
    }
  }

  /** An assignment is accepted exactly for an open booking and an active cleaner who is at work on no
      other live booking at any instant of it. */
  lemma AssignAcceptedIff(db: Db, b: BookingId, c: CleanerId, row: RowId, lead: bool)
    requires RowsHaveBookings(db) && row !in db.rows && b in db.bookings && Forward(db, db.bookings[b].window)
    ensures Accepts(db, Assign(b, c, row, lead)) <==>
            && db.bookings[b].status !in {COMPLETED, CANCELLED} && c in db.cleaners && db.cleaners[c] == ACTIVE
            && forall r :: r in db.rows ==> !AtWorkDuring(db, r, c, db.bookings[b].window, b)
  {
    FreeMeansNotAtWork(db, c, db.bookings[b].window, b);
  }

  /** A portal reschedule keeps the crew exactly when nobody on it is at work elsewhere at an instant of
      the new time; otherwise everyone is let go, and nobody on other bookings. */
  lemma PortalKeepsTheCrewIff(db: Db, b: BookingId, w: Window, spare: nat, read: Status)
    requires RowsHaveBookings(db) && Accepts(db, PortalReschedule(b, w, spare, read)) && Forward(db, w)
    ensures var db' := Apply(db, PortalReschedule(b, w, spare, read));
            var free := forall q, r :: q in db.rows && db.rows[q].booking == b && r in db.rows ==> !AtWorkDuring(db, r, db.rows[q].cleaner, w, b);
            && db'.bookings[b].window == w
            && (forall q :: q in db.rows ==> (q in db'.rows <==> db.rows[q].booking != b || free))
            && (forall q :: q in db'.rows ==> q in db.rows && db'.rows[q] == db.rows[q])
            && (forall o :: o in db.bookings && o != b ==> db'.bookings[o] == db.bookings[o])
  {
    forall q | q in db.rows && db.rows[q].booking == b
      ensures CleanerFree(db, db.rows[q].cleaner, w, b) <==> forall r :: r in db.rows ==> !AtWorkDuring(db, r, db.rows[q].cleaner, w, b)
    {
      FreeMeansNotAtWork(db, db.rows[q].cleaner, w, b);
    }
    assert CrewIsFree(db, b, w) <==> forall q :: q in db.rows && db.rows[q].booking == b ==> CleanerFree(db, db.rows[q].cleaner, w, b);
  }

  /** What the small calls achieve, and that they leave everything else alone. */
  lemma SmallCalls(db: Db, op: Op)
    requires Accepts(db, op)
    ensures op.ClockOut? ==> Apply(db, op) == db.(rows := Apply(db, op).rows) && OnlyCheckedOut(db.rows, Apply(db, op).rows, op.row)
    ensures op.Reschedule? ==>
              && Apply(db, op) == db.(bookings := Apply(db, op).bookings) && Apply(db, op).bookings.Keys == db.bookings.Keys
              && Apply(db, op).bookings[op.b] == Booking(db.bookings[op.b].status, op.window)
              && forall o :: o in db.bookings && o != op.b ==> Apply(db, op).bookings[o] == db.bookings[o]
    ensures op.Reactivate? || op.Onboard? ==>
              && Apply(db, op) == db.(cleaners := Apply(db, op).cleaners) && Apply(db, op).cleaners[op.c] == ACTIVE
              && forall k :: k in db.cleaners && k != op.c ==> k in Apply(db, op).cleaners && Apply(db, op).cleaners[k] == db.cleaners[k]
    ensures op.Confirm? ==>
              && Apply(db, op).rows == db.rows && Apply(db, op).bookings[op.b].status == (if db.bookings[op.b].status == REQUESTED then CONFIRMED else db.bookings[op.b].status)
              && forall o :: o in db.bookings && o != op.b ==> Apply(db, op).bookings[o] == db.bookings[o]
  {
  }

  ghost predicate OnlyCheckedOut(before: map<RowId, Row>, after: map<RowId, Row>, row: RowId) {
    && after.Keys == before.Keys && row in before && after[row].checkedOut && after[row] == before[row].(checkedOut := true)
    && forall r :: r in before && r != row ==> after[r] == before[r]
  }

  /** Cancelling keeps the rows; completing checks out everyone who checked in, and nobody else. */
  lemma HowItEnds(db: Db, b: BookingId)
    requires Inv(db)
    ensures Accepts(db, Cancel(b)) ==> var db' := Apply(db, Cancel(b)); db'.bookings[b].status == CANCELLED && db'.rows == db.rows
    ensures Accepts(db, Complete(b)) ==>
              var db' := Apply(db, Complete(b)); db'.bookings[b].status == COMPLETED && !StillOnSite(db', b)
    ensures Accepts(db, Complete(b)) && db.bookings[b].status != COMPLETED ==>
              forall r :: r in db.rows ==> r in Apply(db, Complete(b)).rows && CheckedOutIff(db.rows[r], Apply(db, Complete(b)).rows[r], b)
  {
    if Accepts(db, Complete(b)) {
      assert StatusFits(db, b);
      assert forall r :: r in RowsOf(db, b) ==> RowOf(db, r, b);
    }
  }

  /** The row is as it was, but checked out if it was a started one of the booking. */
  predicate CheckedOutIff(was: Row, now: Row, b: BookingId) {
    && now.(checkedOut := was.checkedOut) == was
    && (now.checkedOut <==> was.checkedOut || (was.booking == b && was.checkedIn))
  }

  // ---- how a status may move ----------------------------------------------------------

  /** The documented diagram, where REQUESTED may also go straight to ASSIGNED and any open booking may be completed. */
  predicate Arrow(s: Status, t: Status) {
    || s == t
    || (s == REQUESTED && (t == CONFIRMED || t == ASSIGNED))
    || (s == CONFIRMED && t == ASSIGNED)
    || (s == ASSIGNED && (t == IN_PROGRESS || t == CONFIRMED))
    || (s != COMPLETED && s != CANCELLED && (t == COMPLETED || t == CANCELLED))
  }

  /** A started job stays on record: its row is never deleted and never un-started. */
  ghost predicate KeepsCheckIns(db: Db, db': Db) {
    forall r :: r in db.rows && db.rows[r].checkedIn ==>
      r in db'.rows && db'.rows[r].checkedIn && db'.rows[r].booking == db.rows[r].booking && db'.rows[r].cleaner == db.rows[r].cleaner
  }

  ghost predicate FollowsArrows(db: Db, db': Db) {
    forall b :: b in db.bookings ==> b in db'.bookings && Arrow(db.bookings[b].status, db'.bookings[b].status)
  }

  lemma RemovalFollowsArrows(db: Db, gone: set<RowId>)
    ensures FollowsArrows(db, Without(db, gone))
  {
  }

  lemma StartFollowsArrows(db: Db, row: RowId)
    requires Inv(db) && row in db.rows && !Terminal(db.bookings[db.rows[row].booking].status)
    ensures FollowsArrows(db, ClockedIn(db, row))
  {
    assert StatusFits(db, db.rows[row].booking) && RowOf(db, row, db.rows[row].booking);
  }

  lemma CompletionFollowsArrows(db: Db, b: BookingId)
    requires b in db.bookings
    ensures FollowsArrows(db, Completed(db, b))
  {
  }

  lemma PlainStepsFollowArrows(db: Db, op: Op)
    requires Accepts(db, op)
    requires op.Create? || op.Assign? || op.Confirm? || op.ClockOut? || op.Cancel? || op.Reschedule? || op.Reactivate? || op.Onboard?
    ensures FollowsArrows(db, Effect(db, op))
  {
  }

  lemma OtherStepsFollowArrows(db: Db, op: Op)
    requires Inv(db) && !op.PortalReschedule?
    ensures FollowsArrows(db, Apply(db, op))
  {
    if Accepts(db, op) {
      match op
      case ClockIn(row) => if !db.rows[row].checkedIn { StartFollowsArrows(db, row); }
      case Start(row) => if db.rows[row].checkedIn { StartingAgainChangesNothing(db, row); } else { StartFollowsArrows(db, row); }
      case Unassign(row) => RemovalFollowsArrows(db, {row});
      case Release(c, now, _) => RemovalFollowsArrows(db, UpcomingRows(db, c, now));
      case Complete(b) => CompletionFollowsArrows(db, b);
      case CompleteByCleaner(row, _) => CompletionFollowsArrows(db, db.rows[row].booking);
      case _ => PlainStepsFollowArrows(db, op);
    }
  }

  /** What a portal reschedule finds at its write lets it write back what it read: the booking is still
      REQUESTED, or it is CONFIRMED or ASSIGNED and was so, or later, when it was read. */
  predicate ReadLeadsOn(db: Db, op: Op) {
    op.PortalReschedule? && Accepts(db, op) ==>
      || db.bookings[op.b].status == REQUESTED
      || (db.bookings[op.b].status in {CONFIRMED, ASSIGNED} && op.read != REQUESTED)
  }

  lemma PortalFollowsArrowsIff(db: Db, op: Op)
    requires op.PortalReschedule? && Accepts(db, op)
    ensures FollowsArrows(db, Effect(db, op)) <==> ReadLeadsOn(db, op)
  {
    assert op.b in db.bookings;
  }

  /** A call takes a status anywhere but along an arrow exactly when it is a portal reschedule whose
      read leads back; the only other way back is ASSIGNED to CONFIRMED. */
  lemma StepFollowsArrowsIff(db: Db, op: Op)
    requires Inv(db)
    ensures FollowsArrows(db, Apply(db, op)) <==> ReadLeadsOn(db, op)
  {
    if op.PortalReschedule? && Accepts(db, op) {
      PortalFollowsArrowsIff(db, op);
    } else if !op.PortalReschedule? {
      OtherStepsFollowArrows(db, op);
    }
  }

  ghost predicate ArrowsAllAlong(db: Db, ops: seq<Op>)
    decreases |ops|
  {
    ops != [] ==> FollowsArrows(db, Apply(db, ops[0])) && ArrowsAllAlong(Apply(db, ops[0]), ops[1..])
  }

  predicate ReadsLeadOn(db: Db, ops: seq<Op>)
    decreases |ops|
  {
    ops == [] || (ReadLeadsOn(db, ops[0]) && ReadsLeadOn(Apply(db, ops[0]), ops[1..]))
  }

  lemma {:induction false} RunFollowsArrowsIff(db: Db, ops: seq<Op>)
    requires Inv(db) && ReadsFit(db, ops)
    ensures ArrowsAllAlong(db, ops) <==> ReadsLeadOn(db, ops)
    decreases |ops|
  {
    if ops != [] {
      StepFollowsArrowsIff(db, ops[0]);
      ApplyKeeps(db, ops[0]);
      RunFollowsArrowsIff(Apply(db, ops[0]), ops[1..]);
    }
  }

  /** One whose read leads back: read, confirmed by staff, moved - and the confirmation is gone. All
      the time status and rows agree. */
  lemma LateMoveUnconfirms(w: Window, later: Window)
    ensures var ops := [Create(0, w), Confirm(0), PortalReschedule(0, later, 1, REQUESTED)];
            && Run(NoData(), ops[..2]).bookings == map[0 := Booking(CONFIRMED, w)]
            && Run(NoData(), ops).bookings == map[0 := Booking(REQUESTED, later)]
            && Inv(Run(NoData(), ops[..2])) && !ReadLeadsOn(Run(NoData(), ops[..2]), ops[2])
            && ReadsFit(NoData(), ops)
  {
    var ops := [Create(0, w), Confirm(0), PortalReschedule(0, later, 1, REQUESTED)];
    var d2 := Apply(Apply(NoData(), ops[0]), ops[1]);
    assert d2 == Db(map[0 := Booking(CONFIRMED, w)], map[], map[]);
    RunOfThree(NoData(), ops);
    assert RowsOf(d2, 0) == {};
    assert CrewIsFree(d2, 0, later);
    OtherRunsFit(NoData(), ops[..2]);
    EveryRunKeeps(NoData(), ops[..2]);
    assert ReadStillFits(d2, ops[2]);
    ThreeFit(NoData(), ops);
  }

  lemma RunOfThree(db: Db, ops: seq<Op>)
    requires |ops| == 3
    ensures Run(db, ops[..2]) == Apply(Apply(db, ops[0]), ops[1])
    ensures Run(db, ops) == Apply(Apply(Apply(db, ops[0]), ops[1]), ops[2])
  {
    var d1 := Apply(db, ops[0]);
    var d2 := Apply(d1, ops[1]);
    assert ops[..2][1..] == [ops[1]] && [ops[1]][1..] == [];
    assert Run(db, ops[..2]) == Run(d1, [ops[1]]) == Run(d2, []);
    assert ops[1..][1..] == [ops[2]] && [ops[2]][1..] == [];
    assert Run(db, ops) == Run(d1, ops[1..]) == Run(d2, [ops[2]]) == Run(Apply(d2, ops[2]), []);
  }

  lemma ThreeFit(db: Db, ops: seq<Op>)
    requires |ops| == 3 && !ops[0].PortalReschedule? && !ops[1].PortalReschedule?
    requires ReadStillFits(Apply(Apply(db, ops[0]), ops[1]), ops[2])
    ensures ReadsFit(db, ops)
  {
    var d1 := Apply(db, ops[0]);
    var d2 := Apply(d1, ops[1]);
    assert ops[1..][1..] == [ops[2]] && [ops[2]][1..] == [];
    assert ReadsFit(d2, [ops[2]]);
    assert ReadsFit(d1, ops[1..]);
  }

  lemma RemovalKeepsCheckIns(db: Db, gone: set<RowId>)
    requires forall r :: r in gone ==> r in db.rows && !db.rows[r].checkedIn
    ensures KeepsCheckIns(db, Without(db, gone))
  {
  }

  lemma StampsKeepCheckIns(db: Db, op: Op)
    requires Accepts(db, op) && (op.ClockIn? || op.Start? || op.ClockOut? || op.Complete? || op.CompleteByCleaner?)
    ensures KeepsCheckIns(db, Effect(db, op))
  {
  }

  lemma StepsKeepCheckIns(db: Db, op: Op)
    requires !op.PortalReschedule?
    ensures KeepsCheckIns(db, Apply(db, op))
  {
    if Accepts(db, op) {
      match op
      case Unassign(row) => RemovalKeepsCheckIns(db, {row});
      case Release(c, now, to) => RemovalKeepsCheckIns(db, UpcomingRows(db, c, now));
      case Create(_, _) =>
      case Assign(_, _, _, _) =>
      case Confirm(_) =>
      case Cancel(_) =>
      case Reschedule(_, _) =>
      case Reactivate(_, _) =>
      case Onboard(_, _) =>
      case _ => StampsKeepCheckIns(db, op);
    }
  }

  /** COMPLETED and CANCELLED bookings stay as they are. */
  ghost predicate KeepsEnds(db: Db, db': Db) {
    forall b :: b in db.bookings ==>
      b in db'.bookings && (db.bookings[b].status in {COMPLETED, CANCELLED} ==> db'.bookings[b].status == db.bookings[b].status)
  }

  lemma StartsKeepEnds(db: Db, op: Op)
    requires Accepts(db, op) && (op.ClockIn? || op.Start?)
    ensures KeepsEnds(db, Effect(db, op))
  {
  }

  lemma CompletionsKeepEnds(db: Db, op: Op)
    requires Accepts(db, op) && (op.Complete? || op.CompleteByCleaner?)
    ensures KeepsEnds(db, Effect(db, op))
  {
    CompletionFollowsArrows(db, if op.Complete? then op.b else db.rows[op.row].booking);
  }

  lemma StepsKeepEnds(db: Db, op: Op)
    requires !op.PortalReschedule?
    ensures KeepsEnds(db, Apply(db, op))
  {
    if Accepts(db, op) {
      match op
      case Unassign(row) => RemovalFollowsArrows(db, {row});
      case Release(c, now, _) => RemovalFollowsArrows(db, UpcomingRows(db, c, now));
      case ClockIn(_) => StartsKeepEnds(db, op);
      case Start(_) => StartsKeepEnds(db, op);
      case Complete(_) => CompletionsKeepEnds(db, op);
      case CompleteByCleaner(_, _) => CompletionsKeepEnds(db, op);
      case _ => PlainStepsFollowArrows(db, op);
    }
  }

  /** The booking a portal reschedule writes to is still open, and not started if its crew is let go. */
  predicate StillMovable(db: Db, op: Op) {
    op.PortalReschedule? && Accepts(db, op) ==>
      && db.bookings[op.b].status !in {COMPLETED, CANCELLED}
      && (CrewIsFree(db, op.b, op.window) || forall r :: r in RowsOf(db, op.b) ==> !db.rows[r].checkedIn)
  }

  /** One step keeps ends and check-ins exactly when it is not a portal reschedule of a booking that
      has ended, or started, since it was read. */
  lemma StepKeepsEndsAndCheckInsIff(db: Db, op: Op)
    ensures KeepsEnds(db, Apply(db, op)) && KeepsCheckIns(db, Apply(db, op)) <==> StillMovable(db, op)
  {
    if op.PortalReschedule? && Accepts(db, op) {
      PortalKeepsEndsIff(db, op);
      PortalKeepsCheckInsIff(db, op);
    } else if !op.PortalReschedule? {
      StepsKeepEnds(db, op);
      StepsKeepCheckIns(db, op);
    }
  }

  lemma PortalKeepsEndsIff(db: Db, op: Op)
    requires op.PortalReschedule? && Accepts(db, op)
    ensures KeepsEnds(db, Effect(db, op)) <==> db.bookings[op.b].status !in {COMPLETED, CANCELLED}
  {
    assert op.b in db.bookings;
  }

  lemma PortalKeepsCheckInsIff(db: Db, op: Op)
    requires op.PortalReschedule? && Accepts(db, op)
    ensures KeepsCheckIns(db, Effect(db, op)) <==>
            CrewIsFree(db, op.b, op.window) || forall r :: r in RowsOf(db, op.b) ==> !db.rows[r].checkedIn
  {
    if r :| r in RowsOf(db, op.b) && db.rows[r].checkedIn && !CrewIsFree(db, op.b, op.window) {
      assert r !in Effect(db, op).rows;
    }
  }

  predicate MovesInTime(db: Db, ops: seq<Op>)
    decreases |ops|
  {
    ops == [] || (StillMovable(db, ops[0]) && MovesInTime(Apply(db, ops[0]), ops[1..]))
  }

  /** COMPLETED and CANCELLED are final, and a check-in is never lost, over whole runs in which no
      portal reschedule comes too late. */
  lemma {:induction false} RunsKeepEndsAndCheckIns(db: Db, ops: seq<Op>)
    requires MovesInTime(db, ops)
    ensures KeepsEnds(db, Run(db, ops)) && KeepsCheckIns(db, Run(db, ops))
    decreases |ops|
  {
    if ops != [] {
      StepKeepsEndsAndCheckInsIff(db, ops[0]);
      RunsKeepEndsAndCheckIns(Apply(db, ops[0]), ops[1..]);
    }
  }

  /** One that does come too late: read, cancelled, moved, and the booking is open again. */
  lemma LateMoveRevives(w: Window, later: Window)
    ensures var ops := [Create(0, w), Cancel(0), PortalReschedule(0, later, 1, REQUESTED)];
            && Run(NoData(), ops[..2]).bookings == map[0 := Booking(CANCELLED, w)]
            && Run(NoData(), ops).bookings == map[0 := Booking(REQUESTED, later)]
            && Inv(Run(NoData(), ops)) && !MovesInTime(NoData(), ops)
  {
    var ops := [Create(0, w), Cancel(0), PortalReschedule(0, later, 1, REQUESTED)];
    var d1 := Apply(NoData(), ops[0]);
    var d2 := Apply(d1, ops[1]);
    assert d2 == Db(map[0 := Booking(CANCELLED, w)], map[], map[]);
    LateMove(w, later);
    RunOfThree(NoData(), ops);
    assert ops[1..] == [ops[1], ops[2]] && ops[1..][1..] == [ops[2]];
    assert MovesInTime(NoData(), ops) ==> MovesInTime(d1, ops[1..]);
    assert MovesInTime(d1, ops[1..]) ==> MovesInTime(d2, [ops[2]]);
    assert !MovesInTime(d2, [ops[2]]);
  }

  lemma LateMove(w: Window, later: Window)
    ensures var d2, move := Db(map[0 := Booking(CANCELLED, w)], map[], map[]), PortalReschedule(0, later, 1, REQUESTED);
            && Apply(d2, move) == Db(map[0 := Booking(REQUESTED, later)], map[], map[])
            && Inv(Apply(d2, move)) && !StillMovable(d2, move)
  {
    var d2, move := Db(map[0 := Booking(CANCELLED, w)], map[], map[]), PortalReschedule(0, later, 1, REQUESTED);
    assert RowsOf(d2, 0) == {};
    assert CrewIsFree(d2, 0, later);
  }

  // ---- where the code disagrees with its comment -----------------------------------------

  /** One cleaner on [0, 10) and, on another day, on [100, 110). */
  function BackToBack(): Db {
    Db(map[0 := Booking(ASSIGNED, Window(0, 10)), 1 := Booking(ASSIGNED, Window(100, 110))],
       map[0 := Row(0, 7, false, false, false), 1 := Row(1, 7, false, false, false)],
       map[7 := ACTIVE])
  }

  function BackToBackOps(): seq<Op> {
    [Onboard(7, true), Create(0, Window(0, 10)), Create(1, Window(100, 110)), Assign(0, 7, 0, false), Assign(1, 7, 1, false)]
  }

  lemma BothAssigned(d: Db)
    requires d == Db(map[0 := Booking(REQUESTED, Window(0, 10)), 1 := Booking(REQUESTED, Window(100, 110))], map[], map[7 := ACTIVE])
    ensures Apply(Apply(d, Assign(0, 7, 0, false)), Assign(1, 7, 1, false)) == BackToBack()
  {
    var d1 := Apply(d, Assign(0, 7, 0, false));
    assert d1 == Db(map[0 := Booking(ASSIGNED, Window(0, 10)), 1 := Booking(REQUESTED, Window(100, 110))],
                    map[0 := Row(0, 7, false, false, false)], map[7 := ACTIVE]);
    assert CleanerFree(d1, 7, Window(100, 110), 1);
  }

  lemma BackToBackIsReachable()
    ensures Run(NoData(), BackToBackOps()) == BackToBack() && Inv(BackToBack())
  {
    var ops := BackToBackOps();
    var d1 := Apply(NoData(), ops[0]);
    var d3 := Apply(Apply(d1, ops[1]), ops[2]);
    assert d3 == Db(map[0 := Booking(REQUESTED, Window(0, 10)), 1 := Booking(REQUESTED, Window(100, 110))], map[], map[7 := ACTIVE]);
    BothAssigned(d3);
    RunOfFive(NoData(), ops);
    OtherRunsFit(NoData(), ops);
    EveryRunKeeps(NoData(), ops);
  }

  lemma RunOfFive(db: Db, ops: seq<Op>)
    requires |ops| == 5
    ensures Run(db, ops) == Apply(Apply(Apply(Apply(Apply(db, ops[0]), ops[1]), ops[2]), ops[3]), ops[4])
  {
    assert ops[1..][1..] == ops[2..] && ops[2..][1..] == ops[3..] && ops[3..][1..] == ops[4..] && ops[4..][1..] == [];
    var d2 := Apply(Apply(db, ops[0]), ops[1]);
    assert Run(db, ops) == Run(d2, ops[2..]);
    var d4 := Apply(Apply(d2, ops[2]), ops[3]);
    assert Run(d2, ops[2..]) == Run(d4, ops[4..]);
    assert Run(d4, ops[4..]) == Run(Apply(d4, ops[4]), []);
  }

  lemma TouchingBlocksStaff(db: Db, w: Window)
    requires db == BackToBack() && w == Window(10, 20)
    ensures !Accepts(db, Reschedule(1, w))
  {
    assert BlocksOrTouches(db, 0, 7, w, 1);
    assert 1 in RowsOf(db, 1) && !CleanerClear(db, db.rows[1].cleaner, w, 1);
  }

  lemma TouchingSuitsThePortal(db: Db, w: Window)
    requires db == BackToBack() && w == Window(10, 20)
    ensures CleanerFree(db, 7, w, 1)
    ensures Effect(db, PortalReschedule(1, w, 1, ASSIGNED)) == db.(bookings := db.bookings[1 := Booking(ASSIGNED, w)])
  {
    assert forall r :: r in RowsOf(db, 1) ==> r == 1;
  }

  /** Touching jobs are meant to be fine on every path; the staff reschedule refuses what the
      portal reschedule and a fresh assignment of the same cleaner accept. */
  lemma StaffRescheduleRefusesTouchingJobs()
    ensures var db, w := BackToBack(), Window(10, 20);
            && Run(NoData(), BackToBackOps()) == db
            && !Accepts(db, Reschedule(1, w))
            && CleanerFree(db, 7, w, 1)
            && Effect(db, PortalReschedule(1, w, 1, ASSIGNED)) == db.(bookings := db.bookings[1 := Booking(ASSIGNED, w)])
  {
    BackToBackIsReachable();
    TouchingBlocksStaff(BackToBack(), Window(10, 20));
    TouchingSuitsThePortal(BackToBack(), Window(10, 20));
  }

  ghost predicate Touches(db: Db, r: RowId, c: CleanerId, w: Window, except: BookingId)
    requires r in db.rows && RowsHaveBookings(db)
  {
    var row := db.rows[r];
    && row.cleaner == c && row.booking != except && db.bookings[row.booking].status != CANCELLED
    && (db.bookings[row.booking].window.start == w.end || db.bookings[row.booking].window.end == w.start)
  }

  /** Exactly how much stricter it is: a free cleaner is refused only for work that touches the new window. */
  lemma StaffRescheduleIsStricterByTouching(db: Db, c: CleanerId, w: Window, b: BookingId)
    requires forall o :: o in db.bookings ==> db.bookings[o].window.start < db.bookings[o].window.end
    requires w.start < w.end && RowsHaveBookings(db)
    ensures CleanerClear(db, c, w, b) <==>
            (CleanerFree(db, c, w, b) && forall r :: r in db.rows ==> !Touches(db, r, c, w, b))
  {
    forall r | r in db.rows
      ensures BlocksOrTouches(db, r, c, w, b) <==> (Blocks(db, r, c, w, b) || Touches(db, r, c, w, b))
    {
    }
  }
}
