/** Slot admission under the per-business lock (src/lib/capacity.js, src/lib/bookingLock.js,
    src/modules/widget/widget.service.js, src/modules/customerPortal/customerPortal.service.js).

    Public submits and portal reschedules quote or read outside the lock, then take it, list the
    free cleaners, count the competing bookings and write, one database access at a time;
    confirmations, cancellations and deposit expiries happen between any two of those accesses.
    The counting rule turns out to guarantee a full conflict-free roster, except to those waiting
    near a booking that is moved together with its crew. */
module Capacity {
  import opened Bookings
  import Calendar
  import OpeningHours

  type RequestId = nat

  /** A booking with the cleaners assigned to it. */
  datatype Booking = Booking(status: Status, window: Window, crew: set<CleanerId>)

  datatype Cleaner = Cleaner(active: bool, availability: seq<OpeningHours.Shift>)

  datatype Db = Db(zone: Calendar.Zone, cleaners: map<CleanerId, Cleaner>, bookings: map<BookingId, Booking>)

  /** The travel buffer, 30 minutes. */
  const TRAVEL_BUFFER := 1_800_000

  /** The assignment query of `findAvailableCleaners`: work within the buffer of `w`. */
  predicate Busy(b: Booking, c: CleanerId, w: Window) {
    && c in b.crew && b.status != CANCELLED
    && b.window.start <= w.end + TRAVEL_BUFFER && b.window.end >= w.start - TRAVEL_BUFFER
  }

  predicate HasShift(zone: Calendar.Zone, c: Cleaner, w: Window) {
    exists i :: 0 <= i < |c.availability| && OpeningHours.ShiftCovers(c.availability[i], w.start, w.end, zone)
  }

  predicate Available(db: Db, c: CleanerId, w: Window) {
    && c in db.cleaners && db.cleaners[c].active && HasShift(db.zone, db.cleaners[c], w)
    && forall id :: id in db.bookings ==> !Busy(db.bookings[id], c, w)
  }

  function AvailableCleaners(db: Db, w: Window): set<CleanerId> {
    set c | c in db.cleaners && Available(db, c, w)
  }

  predicate Unassigned(b: Booking) {
    (b.status == REQUESTED || b.status == CONFIRMED) && b.crew == {}
  }

  /** The bookings `spareCapacity` counts against a window; a booking being moved ignores itself. */
  function Competing(db: Db, w: Window, exclude: set<BookingId>): set<BookingId> {
    set id | id in db.bookings && id !in exclude && Unassigned(db.bookings[id]) && Overlaps(db.bookings[id].window, w)
  }

  function SpareCapacity(candidates: set<CleanerId>, competing: set<BookingId>): nat {
    if |candidates| > |competing| then |candidates| - |competing| else 0
  }

  // ---- what is promised: a roster ------------------------------------------------

  /** The cleaners listed as candidates when each booking was admitted. */
  type Lists = map<BookingId, set<CleanerId>>

  /** `c` was a candidate for the booking and is still available for it. */
  ghost predicate Serves(db: Db, listed: Lists, id: BookingId, c: CleanerId)
    requires id in db.bookings
  {
    id in listed && c in listed[id] && Available(db, c, db.bookings[id].window)
  }

  ghost predicate Clash(db: Db, i: BookingId, j: BookingId)
    requires i in db.bookings && j in db.bookings
  {
    && i != j && Unassigned(db.bookings[i]) && Unassigned(db.bookings[j])
    && Overlaps(db.bookings[i].window, db.bookings[j].window)
  }

  /** Every unassigned booking gets one of its own candidates, and overlapping bookings different ones. */
  ghost predicate IsRoster(db: Db, listed: Lists, r: map<BookingId, CleanerId>) {
    && (forall id :: id in db.bookings && Unassigned(db.bookings[id]) ==> id in r && Serves(db, listed, id, r[id]))
    && (forall i, j :: i in db.bookings && j in db.bookings && Clash(db, i, j) ==> r[i] != r[j])
  }

  ghost predicate Rostered(db: Db, listed: Lists) {
    exists r :: IsRoster(db, listed, r)
  }

  // ---- the protocol ----------------------------------------------------------------

  /** A new booking, or a move of booking `id` read with status `read` before the lock was taken. */
  datatype Request = Submit(window: Window) | Move(window: Window, id: BookingId, read: Status)

  function Excluded(q: Request): set<BookingId> {
    if q.Move? then {q.id} else {}
  }

  datatype Phase =
    | Waiting(q: Request)                                 // quoted or read, not yet locked
    | Locked(q: Request)                                  // holds the advisory lock
    | Listed(q: Request, candidates: set<CleanerId>)      // has listed the free cleaners
    | Cleared(q: Request, candidates: set<CleanerId>)     // has counted at least one to spare

  /** The tables, the requests in flight and the lock; `listed` is history the code does not keep. */
  datatype State = State(db: Db, phases: map<RequestId, Phase>, lock: set<RequestId>, listed: Lists)

  /** `near` stands for the distance filter, which may shrink the list of candidates in any way. */
  datatype Step =
    | QuoteSubmit(r: RequestId, window: Window, near: set<CleanerId>)
    | ReadForMove(r: RequestId, id: BookingId, window: Window)
    | TakeLock(r: RequestId)
    | List(r: RequestId, near: set<CleanerId>)
    | Count(r: RequestId)
    | Write(r: RequestId, newId: BookingId)
    | Abort(r: RequestId)
    | Confirm(id: BookingId)
    | Cancel(id: BookingId)                               // by staff, customer, deposit webhook or sweeper

  ghost predicate Enabled(s: State, step: Step) {
    match step
    case QuoteSubmit(r, w, near) =>
      r !in s.phases && SpareCapacity(AvailableCleaners(s.db, w) * near, Competing(s.db, w, {})) >= 1
    case ReadForMove(r, id, w) => r !in s.phases && id in s.db.bookings && Movable(s.db.bookings[id].status)
    case TakeLock(r) => r in s.phases && s.phases[r].Waiting? && s.lock == {}
    case List(r, _) => r in s.phases && s.phases[r].Locked?
    case Count(r) => r in s.phases && s.phases[r].Listed?
    case Write(r, newId) => r in s.phases && s.phases[r].Cleared? && newId !in s.db.bookings
    case Abort(r) => r in s.phases
    case Confirm(id) => id in s.db.bookings && s.db.bookings[id].status == REQUESTED
    case Cancel(id) => id in s.db.bookings && s.db.bookings[id].status !in {COMPLETED, CANCELLED}
  }

  predicate Movable(status: Status) {
    status in {REQUESTED, CONFIRMED, ASSIGNED}
  }

  /** Everyone assigned to `id` is free of other work at the new time. */
  predicate CrewIsFree(db: Db, id: BookingId, w: Window)
    requires id in db.bookings
  {
    forall i :: i in db.bookings && i != id && db.bookings[i].status != CANCELLED && Overlaps(db.bookings[i].window, w) ==>
      db.bookings[i].crew !! db.bookings[id].crew
  }

  /** The row the write is about. */
  function Target(q: Request, newId: BookingId): BookingId {
    if q.Move? then q.id else newId
  }

  /** The write at the end of the locked section. A move lets a crew go that is not free, and writes
      back the status it read before the lock, or CONFIRMED for ASSIGNED if it let the crew go. */
  ghost function Written(db: Db, q: Request, newId: BookingId): Db {
    match q
    case Submit(w) => db.(bookings := db.bookings[newId := Booking(REQUESTED, w, {})])
    case Move(w, id, read) =>
      if id !in db.bookings then db else
      var released := !CrewIsFree(db, id, w);
      db.(bookings := db.bookings[id := Booking(if released && read == ASSIGNED then CONFIRMED else read, w,
                                                if released then {} else db.bookings[id].crew)])
  }

  ghost function WithStatus(db: Db, id: BookingId, status: Status): Db
    requires id in db.bookings
  {
    db.(bookings := db.bookings[id := db.bookings[id].(status := status)])
  }

  ghost function Leave(s: State, r: RequestId): State {
    s.(phases := s.phases - {r}, lock := s.lock - {r})
  }

  ghost function Apply(s: State, step: Step): State {
    if !Enabled(s, step) then s else
    match step
    case QuoteSubmit(r, w, _) => s.(phases := s.phases[r := Waiting(Submit(w))])
    case ReadForMove(r, id, w) => s.(phases := s.phases[r := Waiting(Move(w, id, s.db.bookings[id].status))])
    case TakeLock(r) => s.(phases := s.phases[r := Locked(s.phases[r].q)], lock := {r})
    case List(r, near) =>
      var q := s.phases[r].q;
      s.(phases := s.phases[r := Listed(q, AvailableCleaners(s.db, q.window) * near)])
    case Count(r) =>
      var q := s.phases[r].q;
      if SpareCapacity(s.phases[r].candidates, Competing(s.db, q.window, Excluded(q))) >= 1
      then s.(phases := s.phases[r := Cleared(q, s.phases[r].candidates)])
      else Leave(s, r)
    case Write(r, newId) =>
      var q := s.phases[r].q;
      Leave(s.(db := Written(s.db, q, newId), listed := s.listed[Target(q, newId) := s.phases[r].candidates]), r)
    case Abort(r) => Leave(s, r)
    case Confirm(id) => s.(db := WithStatus(s.db, id, CONFIRMED))
    case Cancel(id) => s.(db := WithStatus(s.db, id, CANCELLED))
  }

  ghost function Run(s: State, steps: seq<Step>): State
    decreases |steps|
  {
    if steps == [] then s else Run(Apply(s, steps[0]), steps[1..])
  }

  // ---- the invariant -----------------------------------------------------------------

  /** More of the candidates are still free than bookings compete: what a cleared request relies on. */
  ghost predicate RoomFor(db: Db, q: Request, candidates: set<CleanerId>) {
    candidates <= AvailableCleaners(db, q.window) && |candidates| > |Competing(db, q.window, Excluded(q))|
  }

  ghost predicate RequestMakesSense(db: Db, q: Request) {
    q.Move? ==> q.id in db.bookings && Movable(q.read)
  }

  ghost predicate PhaseHolds(db: Db, p: Phase) {
    && RequestMakesSense(db, p.q)
    && (p.Listed? ==> p.candidates <= AvailableCleaners(db, p.q.window))
    && (p.Cleared? ==> RoomFor(db, p.q, p.candidates))
  }

  ghost predicate Inv(s: State) {
    && Rostered(s.db, s.listed)
    && |s.lock| <= 1
    && (forall r :: r in s.phases && !s.phases[r].Waiting? ==> r in s.lock)
    && (forall r :: r in s.phases ==> PhaseHolds(s.db, s.phases[r]))
  }

  // ---- proof: greedy choice by pigeonhole ----------------------------------------------

  lemma {:induction false} UsedCleanersAreFew(r: map<BookingId, CleanerId>, ids: set<BookingId>) returns (used: set<CleanerId>)
    requires ids <= r.Keys
    ensures forall id :: id in ids ==> r[id] in used
    ensures |used| <= |ids|
    decreases |ids|
  {
    if ids == {} {
      used := {};
    } else {
      var id :| id in ids;
      used := UsedCleanersAreFew(r, ids - {id});
      used := used + {r[id]};
    }
  }

  lemma SomeoneIsLeft(candidates: set<CleanerId>, used: set<CleanerId>) returns (c: CleanerId)
    requires |candidates| > |used|
    ensures c in candidates && c !in used
  {
    if candidates <= used {
      SubsetIsSmaller(candidates, used);
    }
    c :| c in candidates && c !in used;
  }

  lemma {:induction false} SubsetIsSmaller<T>(a: set<T>, b: set<T>)
    requires a <= b
    ensures |a| <= |b|
    decreases |a|
  {
    if a != {} {
      var x :| x in a;
      SubsetIsSmaller(a - {x}, b - {x});
    }
  }

  /** Each admission leaves a cleaner free: whatever roster the competing bookings are served
      by, some candidate of the cleared request is not needed for any of them. */
  lemma AdmissionLeavesAFreeCleaner(db: Db, listed: Lists, q: Request, candidates: set<CleanerId>, r: map<BookingId, CleanerId>)
    returns (c: CleanerId)
    requires IsRoster(db, listed, r) && RoomFor(db, q, candidates)
    ensures c in candidates && Available(db, c, q.window)
    ensures forall id :: id in Competing(db, q.window, Excluded(q)) ==> r[id] != c
  {
    var used := UsedCleanersAreFew(r, Competing(db, q.window, Excluded(q)));
    c := SomeoneIsLeft(candidates, used);
  }

  /** A booking without a crew blocks nobody, whatever it was before. */
  lemma CrewlessBookingsBlockNobody(db: Db, id: BookingId, b: Booking, c: CleanerId, w: Window)
    requires b.crew == {} && Available(db, c, w)
    ensures Available(db.(bookings := db.bookings[id := b]), c, w)
  {
    var db' := db.(bookings := db.bookings[id := b]);
    forall i | i in db'.bookings ensures !Busy(db'.bookings[i], c, w) {
      assert i == id || db'.bookings[i] == db.bookings[i];
    }
  }

  /** Putting a crewless booking into its window keeps a roster, given a candidate no competitor needs. */
  lemma PlacementKeepsRoster(db: Db, listed: Lists, r: map<BookingId, CleanerId>, id: BookingId, b: Booking, candidates: set<CleanerId>, c: CleanerId)
    requires IsRoster(db, listed, r)
    requires Unassigned(b) && c in candidates && Available(db, c, b.window)
    requires forall i :: i in Competing(db, b.window, {id}) ==> r[i] != c
    ensures IsRoster(db.(bookings := db.bookings[id := b]), listed[id := candidates], r[id := c])
  {
    var db' := db.(bookings := db.bookings[id := b]);
    forall i | i in db'.bookings && Unassigned(db'.bookings[i])
      ensures Serves(db', listed[id := candidates], i, r[id := c][i])
    {
      CrewlessBookingsBlockNobody(db, id, b, r[id := c][i], db'.bookings[i].window);
      assert i != id ==> Serves(db, listed, i, r[i]);
    }
    forall i, j | i in db'.bookings && j in db'.bookings && Clash(db', i, j) ensures r[id := c][i] != r[id := c][j] {
      if i == id {
        assert j in Competing(db, b.window, {id});
      } else if j == id {
        assert i in Competing(db, b.window, {id});
      } else {
        assert Clash(db, i, j);
      }
    }
  }

  // ---- proof: occupying cleaners ------------------------------------------------------------------

  /** Booking `b` gets a new row. */
  function Replaced(db: Db, b: BookingId, row: Booking): Db {
    db.(bookings := db.bookings[b := row])
  }

  /** A waiting booking other than `b` so close to window `w` that whoever works then is not available for it. */
  predicate CloseTo(db: Db, b: BookingId, w: Window, i: BookingId) {
    && i in db.bookings && i != b && Unassigned(db.bookings[i])
    && w.start <= db.bookings[i].window.end + TRAVEL_BUFFER && w.end >= db.bookings[i].window.start - TRAVEL_BUFFER
  }

  /** The listed cleaners who could still serve `i` without `crew`. */
  function OthersFor(db: Db, listed: Lists, i: BookingId, crew: set<CleanerId>): set<CleanerId>
    requires i in db.bookings && i in listed
  {
    set x | x in listed[i] && x !in crew && Available(db, x, db.bookings[i].window)
  }

  /** Without `crew`, and with `b` not waiting, `i` still has more cleaners than competitors. */
  ghost predicate Spares(db: Db, listed: Lists, b: BookingId, crew: set<CleanerId>, i: BookingId)
    requires i in db.bookings
  {
    i in listed && |OthersFor(db, listed, i, crew)| > |Competing(db, db.bookings[i].window, {i, b})|
  }

  /** Taking a booking out of the waiting ones, without a crew, keeps any roster. */
  lemma LeavingKeepsRoster(db: Db, listed: Lists, r: map<BookingId, CleanerId>, b: BookingId, row: Booking)
    requires IsRoster(db, listed, r) && row.crew == {} && !Unassigned(row)
    ensures IsRoster(Replaced(db, b, row), listed, r)
  {
    var db' := Replaced(db, b, row);
    forall i | i in db'.bookings && Unassigned(db'.bookings[i]) ensures Serves(db', listed, i, r[i]) {
      assert Serves(db, listed, i, r[i]);
      CrewlessBookingsBlockNobody(db, b, row, r[i], db.bookings[i].window);
    }
    forall i, j | i in db'.bookings && j in db'.bookings && Clash(db', i, j) ensures r[i] != r[j] {
      assert Clash(db, i, j);
    }
  }

  lemma ReplacementKeepsRoster(db: Db, listed: Lists, r: map<BookingId, CleanerId>, i: BookingId, x: CleanerId)
    requires IsRoster(db, listed, r) && i in db.bookings && Serves(db, listed, i, x)
    requires forall j :: j in Competing(db, db.bookings[i].window, {i}) ==> r[j] != x
    ensures IsRoster(db, listed, r[i := x])
  {
    forall j, k | j in db.bookings && k in db.bookings && Clash(db, j, k) ensures r[i := x][j] != r[i := x][k] {
      if j == i {
        assert k in Competing(db, db.bookings[i].window, {i});
      } else if k == i {
        assert j in Competing(db, db.bookings[i].window, {i});
      }
    }
  }

  ghost predicate CanDoWithout(db: Db, listed: Lists, crew: set<CleanerId>, i: BookingId) {
    && i in db.bookings && Unassigned(db.bookings[i]) && i in listed
    && |OthersFor(db, listed, i, crew)| > |Competing(db, db.bookings[i].window, {i})|
  }

  lemma FreeOne(db: Db, listed: Lists, r: map<BookingId, CleanerId>, crew: set<CleanerId>, i: BookingId) returns (x: CleanerId)
    requires IsRoster(db, listed, r) && CanDoWithout(db, listed, crew, i)
    ensures x !in crew && IsRoster(db, listed, r[i := x])
  {
    var used := UsedCleanersAreFew(r, Competing(db, db.bookings[i].window, {i}));
    x := SomeoneIsLeft(OthersFor(db, listed, i, crew), used);
    ReplacementKeepsRoster(db, listed, r, i, x);
  }

  /** Greedily, booking by booking, the crew is replaced on all of `close`. */
  lemma {:induction false} FreeTheCrew(db: Db, listed: Lists, r: map<BookingId, CleanerId>, crew: set<CleanerId>, close: set<BookingId>)
    returns (r': map<BookingId, CleanerId>)
    requires IsRoster(db, listed, r)
    requires forall i :: i in close ==> CanDoWithout(db, listed, crew, i)
    ensures IsRoster(db, listed, r') && forall i :: i in close ==> i in r' && r'[i] !in crew
    decreases close
  {
    r' := r;
    if close != {} {
      var i :| i in close;
      r' := FreeTheCrew(db, listed, r, crew, close - {i});
      var x := FreeOne(db, listed, r', crew, i);
      r' := r'[i := x];
    }
  }

  lemma SparesWithoutTheRow(db: Db, listed: Lists, b: BookingId, row: Booking, crew: set<CleanerId>, i: BookingId)
    requires i in db.bookings && i != b && Unassigned(db.bookings[i]) && Spares(db, listed, b, crew, i)
    requires row.crew == {} && !Unassigned(row)
    ensures CanDoWithout(Replaced(db, b, row), listed, crew, i)
  {
    var db', w := Replaced(db, b, row), db.bookings[i].window;
    forall x | x in OthersFor(db, listed, i, crew) ensures x in OthersFor(db', listed, i, crew) {
      CrewlessBookingsBlockNobody(db, b, row, x, w);
    }
    SubsetIsSmaller(OthersFor(db, listed, i, crew), OthersFor(db', listed, i, crew));
    assert Competing(db', w, {i}) <= Competing(db, w, {i, b});
    SubsetIsSmaller(Competing(db', w, {i}), Competing(db, w, {i, b}));
  }

  /** With a crew in the row, only that crew, and only near its window, is less available than without. */
  lemma CrewBlocksOnlyNearby(db: Db, b: BookingId, row: Booking, x: CleanerId, i: BookingId)
    requires i in db.bookings && i != b && Unassigned(db.bookings[i])
    requires Available(Replaced(db, b, row.(crew := {})), x, db.bookings[i].window)
    requires CloseTo(db, b, row.window, i) ==> x !in row.crew
    ensures Available(Replaced(db, b, row), x, db.bookings[i].window)
  {
    var bare, db', w := Replaced(db, b, row.(crew := {})), Replaced(db, b, row), db.bookings[i].window;
    forall k | k in db'.bookings ensures !Busy(db'.bookings[k], x, w) {
      assert k != b ==> db'.bookings[k] == bare.bookings[k] && !Busy(bare.bookings[k], x, w);
    }
  }

  lemma CrewOfAFreedRoster(db: Db, listed: Lists, r: map<BookingId, CleanerId>, b: BookingId, row: Booking)
    requires IsRoster(Replaced(db, b, Booking(ASSIGNED, row.window, {})), listed, r) && !Unassigned(row)
    requires forall i :: CloseTo(db, b, row.window, i) ==> i in r && r[i] !in row.crew
    ensures IsRoster(Replaced(db, b, row), listed, r)
  {
    var bare, db' := Replaced(db, b, Booking(ASSIGNED, row.window, {})), Replaced(db, b, row);
    forall i | i in db'.bookings && Unassigned(db'.bookings[i]) ensures i in r && Serves(db', listed, i, r[i]) {
      assert Serves(bare, listed, i, r[i]);
      CrewlessBookingsBlockNobody(bare, b, row.(crew := {}), r[i], db.bookings[i].window);
      assert Replaced(bare, b, row.(crew := {})) == Replaced(db, b, row.(crew := {}));
      CrewBlocksOnlyNearby(db, b, row, r[i], i);
    }
    forall i, j | i in db'.bookings && j in db'.bookings && Clash(db', i, j) ensures r[i] != r[j] {
      assert Clash(bare, i, j);
    }
  }

  lemma CloseOnesCanDoWithout(db: Db, listed: Lists, b: BookingId, row: Booking, bare: Booking)
    requires forall i :: CloseTo(db, b, row.window, i) ==> Spares(db, listed, b, row.crew, i)
    requires bare.crew == {} && !Unassigned(bare)
    ensures forall i :: CloseTo(db, b, row.window, i) ==> CanDoWithout(Replaced(db, b, bare), listed, row.crew, i)
  {
    forall i | CloseTo(db, b, row.window, i) ensures CanDoWithout(Replaced(db, b, bare), listed, row.crew, i) {
      SparesWithoutTheRow(db, listed, b, bare, row.crew, i);
    }
  }

  /** Occupying a crew is safe for everyone waiting if each waiting booking close to it has, without
      that crew, more listed cleaners available than bookings competing with it. */
  lemma OccupyingKeepsRoster(db: Db, listed: Lists, b: BookingId, row: Booking)
    requires Rostered(db, listed) && !Unassigned(row)
    requires forall i :: CloseTo(db, b, row.window, i) ==> Spares(db, listed, b, row.crew, i)
    ensures Rostered(Replaced(db, b, row), listed)
  {
    var r0 :| IsRoster(db, listed, r0);
    var bare := Booking(ASSIGNED, row.window, {});
    LeavingKeepsRoster(db, listed, r0, b, bare);
    CloseOnesCanDoWithout(db, listed, b, row, bare);
    var r := FreeTheCrew(Replaced(db, b, bare), listed, r0, row.crew, set i | i in db.bookings && CloseTo(db, b, row.window, i));
    CrewOfAFreedRoster(db, listed, r, b, row);
  }

  /** And it strands someone if one of these has nobody else at all. */
  lemma OccupyingNeedsAnother(db: Db, listed: Lists, b: BookingId, row: Booking, i: BookingId)
    requires b in db.bookings && db.bookings[b].crew <= row.crew && row.status != CANCELLED
    requires CloseTo(db, b, row.window, i) && Rostered(Replaced(db, b, row), listed)
    ensures i in listed && OthersFor(db, listed, i, row.crew) != {}
  {
    var db', w := Replaced(db, b, row), db.bookings[i].window;
    var r :| IsRoster(db', listed, r);
    assert Serves(db', listed, i, r[i]);
    assert !Busy(db'.bookings[b], r[i], w) && r[i] !in row.crew;
    forall k | k in db.bookings ensures !Busy(db.bookings[k], r[i], w) {
      assert !Busy(db'.bookings[k], r[i], w);
    }
    assert r[i] in OthersFor(db, listed, i, row.crew);
  }

  /** Where the waiting bookings close to it have no competitors, that is the exact condition: each
      must have another listed cleaner available. */
  lemma OccupyingKeepsRosterIff(db: Db, listed: Lists, b: BookingId, row: Booking)
    requires Rostered(db, listed) && b in db.bookings && db.bookings[b].crew <= row.crew && row.status != CANCELLED && !Unassigned(row)
    requires forall i :: CloseTo(db, b, row.window, i) ==> Competing(db, db.bookings[i].window, {i, b}) == {}
    ensures Rostered(Replaced(db, b, row), listed) <==>
            forall i :: CloseTo(db, b, row.window, i) ==> i in listed && OthersFor(db, listed, i, row.crew) != {}
  {
    if Rostered(Replaced(db, b, row), listed) {
      forall i | CloseTo(db, b, row.window, i) ensures i in listed && OthersFor(db, listed, i, row.crew) != {} {
        OccupyingNeedsAnother(db, listed, b, row, i);
      }
    }
    if forall i :: CloseTo(db, b, row.window, i) ==> i in listed && OthersFor(db, listed, i, row.crew) != {} {
      forall i | CloseTo(db, b, row.window, i) ensures Spares(db, listed, b, row.crew, i) {
        assert i in listed && OthersFor(db, listed, i, row.crew) != {};
      }
      OccupyingKeepsRoster(db, listed, b, row);
    }
  }

  // ---- the write -----------------------------------------------------------------------------------

  /** Does the move keep a crew, at its new time? */
  predicate KeepsItsCrew(db: Db, q: Request) {
    q.Move? && q.id in db.bookings && db.bookings[q.id].crew != {} && CrewIsFree(db, q.id, q.window)
  }

  /** A move that keeps its crew takes them from whoever waits close to the new time; all other
      writes are safe as they are. */
  ghost predicate SafeWrite(db: Db, listed: Lists, q: Request) {
    KeepsItsCrew(db, q) ==>
      forall i :: CloseTo(db, q.id, q.window, i) ==> Spares(db, listed, q.id, db.bookings[q.id].crew, i)
  }

  lemma ListingMore(db: Db, listed: Lists, id: BookingId, candidates: set<CleanerId>)
    requires Rostered(db, listed) && (id in db.bookings ==> !Unassigned(db.bookings[id]))
    ensures Rostered(db, listed[id := candidates])
  {
    var r :| IsRoster(db, listed, r);
    forall i | i in db.bookings && Unassigned(db.bookings[i]) ensures Serves(db, listed[id := candidates], i, r[i]) {
      assert Serves(db, listed, i, r[i]);
    }
    assert IsRoster(db, listed[id := candidates], r);
  }

  lemma WaitingWriteKeepsRoster(db: Db, listed: Lists, q: Request, candidates: set<CleanerId>, newId: BookingId)
    requires Rostered(db, listed) && RoomFor(db, q, candidates) && RequestMakesSense(db, q) && newId !in db.bookings
    requires Unassigned(Written(db, q, newId).bookings[Target(q, newId)])
    ensures Rostered(Written(db, q, newId), listed[Target(q, newId) := candidates])
  {
    var r :| IsRoster(db, listed, r);
    var id := Target(q, newId);
    var b := Written(db, q, newId).bookings[id];
    var c := AdmissionLeavesAFreeCleaner(db, listed, q, candidates, r);
    assert Competing(db, b.window, {id}) == Competing(db, q.window, Excluded(q));
    PlacementKeepsRoster(db, listed, r, id, b, candidates, c);
  }

  lemma WriteKeepsRoster(db: Db, listed: Lists, q: Request, candidates: set<CleanerId>, newId: BookingId)
    requires Rostered(db, listed) && RoomFor(db, q, candidates) && RequestMakesSense(db, q) && newId !in db.bookings
    requires SafeWrite(db, listed, q)
    ensures Rostered(Written(db, q, newId), listed[Target(q, newId) := candidates])
  {
    var id := Target(q, newId);
    var row := Written(db, q, newId).bookings[id];
    assert Written(db, q, newId) == Replaced(db, id, row);
    if Unassigned(row) {
      WaitingWriteKeepsRoster(db, listed, q, candidates, newId);
    } else {
      if row.crew == {} {
        var r :| IsRoster(db, listed, r);
        LeavingKeepsRoster(db, listed, r, id, row);
      } else {
        OccupyingKeepsRoster(db, listed, id, row);
      }
      ListingMore(Written(db, q, newId), listed, id, candidates);
    }
  }

  /** Confirming or cancelling a booking frees cleaners and competes less, never the reverse. */
  lemma StatusChangeHelps(db: Db, id: BookingId, status: Status, w: Window, exclude: set<BookingId>)
    requires id in db.bookings
    requires status == CANCELLED || (status == CONFIRMED && db.bookings[id].status == REQUESTED)
    ensures AvailableCleaners(db, w) <= AvailableCleaners(WithStatus(db, id, status), w)
    ensures Competing(WithStatus(db, id, status), w, exclude) <= Competing(db, w, exclude)
  {
    var db' := WithStatus(db, id, status);
    forall c | c in db.cleaners && Available(db, c, w) ensures Available(db', c, w) {
      forall i | i in db'.bookings ensures !Busy(db'.bookings[i], c, w) {
        assert !Busy(db.bookings[i], c, w);
      }
    }
  }

  lemma StatusChangeKeepsRoster(db: Db, listed: Lists, id: BookingId, status: Status)
    requires Rostered(db, listed) && id in db.bookings
    requires status == CANCELLED || (status == CONFIRMED && db.bookings[id].status == REQUESTED)
    ensures Rostered(WithStatus(db, id, status), listed)
  {
    var r :| IsRoster(db, listed, r);
    var db' := WithStatus(db, id, status);
    forall i | i in db'.bookings && Unassigned(db'.bookings[i]) ensures Serves(db', listed, i, r[i]) {
      assert Unassigned(db.bookings[i]) && Serves(db, listed, i, r[i]);
      StatusChangeHelps(db, id, status, db.bookings[i].window, {});
      assert r[i] in AvailableCleaners(db, db.bookings[i].window);
    }
    forall i, j | i in db'.bookings && j in db'.bookings && Clash(db', i, j) ensures r[i] != r[j] {
      assert Clash(db, i, j);
    }
    assert IsRoster(db', listed, r);
  }

  lemma StatusChangeKeepsRoom(db: Db, id: BookingId, status: Status, q: Request, candidates: set<CleanerId>)
    requires RoomFor(db, q, candidates) && id in db.bookings
    requires status == CANCELLED || (status == CONFIRMED && db.bookings[id].status == REQUESTED)
    ensures RoomFor(WithStatus(db, id, status), q, candidates)
  {
    StatusChangeHelps(db, id, status, q.window, Excluded(q));
    SubsetIsSmaller(Competing(WithStatus(db, id, status), q.window, Excluded(q)), Competing(db, q.window, Excluded(q)));
  }

  lemma StatusChangeKeepsInv(s: State, id: BookingId, status: Status)
    requires Inv(s) && id in s.db.bookings
    requires status == CANCELLED || (status == CONFIRMED && s.db.bookings[id].status == REQUESTED)
    ensures Inv(s.(db := WithStatus(s.db, id, status)))
  {
    StatusChangeKeepsRoster(s.db, s.listed, id, status);
    forall r | r in s.phases ensures PhaseHolds(WithStatus(s.db, id, status), s.phases[r]) {
      var p := s.phases[r];
      StatusChangeHelps(s.db, id, status, p.q.window, {});
      if p.Cleared? { StatusChangeKeepsRoom(s.db, id, status, p.q, p.candidates); }
    }
  }

  lemma OnlyOneHolder(s: State, r: RequestId, other: RequestId)
    requires |s.lock| <= 1 && r in s.lock && other in s.lock
    ensures r == other
  {
    SubsetIsSmaller({r, other}, s.lock);
  }

  /** Only the lock holder is past waiting, so its write disturbs no other request's check. */
  lemma WriteKeepsInv(s: State, r: RequestId, newId: BookingId)
    requires Inv(s) && Enabled(s, Write(r, newId)) && SafeWrite(s.db, s.listed, s.phases[r].q)
    ensures Inv(Apply(s, Write(r, newId)))
  {
    var s' := Apply(s, Write(r, newId));
    assert PhaseHolds(s.db, s.phases[r]);
    WriteKeepsRoster(s.db, s.listed, s.phases[r].q, s.phases[r].candidates, newId);
    forall o | o in s'.phases ensures s'.phases[o].Waiting? && PhaseHolds(s'.db, s'.phases[o]) {
      if !s.phases[o].Waiting? { OnlyOneHolder(s, r, o); }
      assert PhaseHolds(s.db, s.phases[o]);
    }
    SubsetIsSmaller(s'.lock, s.lock);
  }

  /** A write of a move that keeps its crew leaves enough cleaners to those waiting near its new time. */
  ghost predicate Safe(s: State, step: Step) {
    step.Write? && Enabled(s, step) ==> SafeWrite(s.db, s.listed, s.phases[step.r].q)
  }

  ghost predicate SafeRun(s: State, steps: seq<Step>)
    decreases |steps|
  {
    steps == [] || (Safe(s, steps[0]) && SafeRun(Apply(s, steps[0]), steps[1..]))
  }

  lemma StepKeepsInv(s: State, step: Step)
    requires Inv(s) && Safe(s, step)
    ensures Inv(Apply(s, step))
  {
    if Enabled(s, step) {
      match step
      case QuoteSubmit(r, w, near) =>
      case ReadForMove(r, id, w) =>
      case TakeLock(r) => assert PhaseHolds(s.db, s.phases[r]);
      case List(r, near) => assert PhaseHolds(s.db, s.phases[r]);
      case Count(r) => CountKeepsInv(s, r);
      case Write(r, newId) => WriteKeepsInv(s, r, newId);
      case Abort(r) => SubsetIsSmaller(s.lock - {r}, s.lock);
      case Confirm(id) => StatusChangeKeepsInv(s, id, CONFIRMED);
      case Cancel(id) => StatusChangeKeepsInv(s, id, CANCELLED);
    }
  }

  lemma CountKeepsInv(s: State, r: RequestId)
    requires Inv(s) && Enabled(s, Count(r))
    ensures Inv(Apply(s, Count(r)))
  {
    assert PhaseHolds(s.db, s.phases[r]);
    SubsetIsSmaller(s.lock - {r}, s.lock);
  }

  lemma {:induction false} RunKeepsInv(s: State, steps: seq<Step>)
    requires Inv(s) && SafeRun(s, steps)
    ensures Inv(Run(s, steps))
    decreases |steps|
  {
    if steps != [] {
      StepKeepsInv(s, steps[0]);
      RunKeepsInv(Apply(s, steps[0]), steps[1..]);
    }
  }

  /** No oversell: from any state with a roster and no request in flight, however submits,
      moves, confirmations and cancellations interleave, every unassigned booking can still be
      given an available cleaner of its own, one who was a candidate when it was admitted - as long
      as moves that keep their crew are safe. */
  lemma NoOversell(s: State, steps: seq<Step>)
    requires Rostered(s.db, s.listed) && s.phases == map[] && s.lock == {} && SafeRun(s, steps)
    ensures var s' := Run(s, steps); Rostered(s'.db, s'.listed)
  {
    RunKeepsInv(s, steps);
  }

  /** No write of the run keeps a crew. */
  ghost predicate KeepsNoCrew(s: State, steps: seq<Step>)
    decreases |steps|
  {
    steps == [] ||
    ((steps[0].Write? && Enabled(s, steps[0]) ==> !KeepsItsCrew(s.db, s.phases[steps[0].r].q)) && KeepsNoCrew(Apply(s, steps[0]), steps[1..]))
  }

  /** Submits, moves of unassigned bookings and moves that let their crew go are always safe. */
  lemma {:induction false} OtherWritesAreSafe(s: State, steps: seq<Step>)
    requires KeepsNoCrew(s, steps)
    ensures SafeRun(s, steps)
    decreases |steps|
  {
    if steps != [] { OtherWritesAreSafe(Apply(s, steps[0]), steps[1..]); }
  }

  ghost predicate NobodyAssigned(db: Db) {
    forall id :: id in db.bookings ==> db.bookings[id].crew == {}
  }

  /** Without assigned bookings there is nothing to take care of: no run at all oversells. */
  lemma {:induction false} UnassignedRunsAreSafe(s: State, steps: seq<Step>)
    requires NobodyAssigned(s.db)
    ensures SafeRun(s, steps)
    decreases |steps|
  {
    if steps != [] {
      assert NobodyAssigned(Apply(s, steps[0]).db);
      UnassignedRunsAreSafe(Apply(s, steps[0]), steps[1..]);
    }
  }

  lemma NobodyWaitingIsRostered(db: Db, listed: Lists)
    requires forall id :: id in db.bookings ==> !Unassigned(db.bookings[id])
    ensures Rostered(db, listed)
  {
    assert IsRoster(db, listed, map[]);
  }

  // ---- what the steps do, in terms of rows -------------------------------------------------------

  /** The waiting bookings that share an instant with a window, without those left out. */
  ghost function WaitingThen(db: Db, w: Window, exclude: set<BookingId>): set<BookingId> {
    set id | id in db.bookings && id !in exclude && db.bookings[id].crew == {}
             && (db.bookings[id].status == REQUESTED || db.bookings[id].status == CONFIRMED)
             && exists t: int :: During(t, db.bookings[id].window) && During(t, w)
  }

  ghost predicate Forward(db: Db, w: Window) {
    w.start < w.end && forall id :: id in db.bookings ==> db.bookings[id].window.start < db.bookings[id].window.end
  }

  lemma CompetingAreWaitingThen(db: Db, w: Window, exclude: set<BookingId>)
    requires Forward(db, w)
    ensures Competing(db, w, exclude) == WaitingThen(db, w, exclude)
  {
    forall id | id in db.bookings
      ensures Overlaps(db.bookings[id].window, w) <==> exists t: int :: During(t, db.bookings[id].window) && During(t, w)
    {
      OverlapsIffShareAnInstant(db.bookings[id].window, w);
    }
  }

  /** Spare capacity is what is left of the candidates, and never negative. */
  lemma SpareIsWhatIsLeft(candidates: set<CleanerId>, competing: set<BookingId>)
    ensures SpareCapacity(candidates, competing) + |competing| == if |candidates| < |competing| then |competing| else |candidates|
  {
  }

  /** A request passes the count exactly when it has listed more cleaners than bookings wait at an
      instant of its window, a moved booking itself apart; otherwise it gives the lock back. */
  lemma CountPassesIff(s: State, r: RequestId)
    requires Enabled(s, Count(r)) && Forward(s.db, s.phases[r].q.window)
    ensures var q, s' := s.phases[r].q, Apply(s, Count(r));
            && s'.db == s.db
            && (r in s'.phases && s'.phases[r].Cleared? <==>
                |s.phases[r].candidates| > |WaitingThen(s.db, q.window, if q.Move? then {q.id} else {})|)
            && (r !in s'.phases ==> r !in s'.lock)
  {
    CompetingAreWaitingThen(s.db, s.phases[r].q.window, Excluded(s.phases[r].q));
  }

  /** A quote is given exactly with such room outside the lock. */
  lemma QuoteGivenIff(s: State, r: RequestId, w: Window, near: set<CleanerId>)
    requires Forward(s.db, w) && r !in s.phases
    ensures Enabled(s, QuoteSubmit(r, w, near)) <==> |AvailableCleaners(s.db, w) * near| > |WaitingThen(s.db, w, {})|
  {
    CompetingAreWaitingThen(s.db, w, {});
  }

  /** A submit adds one REQUESTED booking without a crew and touches no other; a move touches only its
      own; and whoever writes, is refused or gives up leaves the lock to the next. */
  lemma WritesTouchOneRow(s: State, r: RequestId, newId: BookingId)
    requires Inv(s) && Enabled(s, Write(r, newId))
    ensures var q, s' := s.phases[r].q, Apply(s, Write(r, newId));
            var id := if q.Move? then q.id else newId;
            && s'.db.bookings.Keys == s.db.bookings.Keys + {id} && s'.db.cleaners == s.db.cleaners
            && (forall i :: i in s.db.bookings && i != id ==> s'.db.bookings[i] == s.db.bookings[i])
            && (q.Submit? ==> s'.db.bookings[id] == Booking(REQUESTED, q.window, {}))
            && s'.lock == {} && r !in s'.phases
  {
    assert PhaseHolds(s.db, s.phases[r]);
    forall o | o in s.lock ensures o == r {
      OnlyOneHolder(s, r, o);
    }
  }

  /** Staff confirm or cancel one booking and touch nothing else of it, no other booking, and no request. */
  lemma StaffTouchOneStatus(s: State, id: BookingId)
    requires id in s.db.bookings
    ensures s.db.bookings[id].status == REQUESTED ==> Apply(s, Confirm(id)) == s.(db := s.db.(bookings := s.db.bookings[id := s.db.bookings[id].(status := CONFIRMED)]))
    ensures s.db.bookings[id].status != COMPLETED ==> Apply(s, Cancel(id)) == s.(db := s.db.(bookings := s.db.bookings[id := s.db.bookings[id].(status := CANCELLED)]))
    ensures s.db.bookings[id].status != REQUESTED ==> Apply(s, Confirm(id)) == s
    ensures s.db.bookings[id].status == COMPLETED ==> Apply(s, Cancel(id)) == s
  {
    assert s.db.bookings[id := s.db.bookings[id]] == s.db.bookings;
  }

  /** A crew is kept exactly when none of it has a live booking elsewhere at an instant of the new time. */
  lemma CrewIsFreeMeans(db: Db, id: BookingId, w: Window)
    requires id in db.bookings && Forward(db, w)
    ensures CrewIsFree(db, id, w) <==>
            forall i, c :: i in db.bookings && i != id && db.bookings[i].status != CANCELLED && c in db.bookings[i].crew && c in db.bookings[id].crew ==>
              !(exists t: int :: During(t, db.bookings[i].window) && During(t, w))
  {
    forall i | i in db.bookings
      ensures Overlaps(db.bookings[i].window, w) <==> exists t: int :: During(t, db.bookings[i].window) && During(t, w)
    {
      OverlapsIffShareAnInstant(db.bookings[i].window, w);
    }
  }

  // ---- what a stale read can do ---------------------------------------------------------------

  /** The status a move writes is the one read before the lock. A booking that was cancelled in
      between is open again (in a slot that was checked for it); one whose crew another move let go
      in between is ASSIGNED to nobody, and that happens exactly when the read says ASSIGNED and no
      crew is left. */
  lemma MoveWritesWhatItRead(s: State, r: RequestId, newId: BookingId)
    requires Inv(s) && Enabled(s, Write(r, newId)) && s.phases[r].q.Move?
    ensures var q := s.phases[r].q;
            var was, now := s.db.bookings[q.id], Apply(s, Write(r, newId)).db.bookings[q.id];
            && Movable(now.status) && now.window == q.window
            && now.crew == (if KeepsItsCrew(s.db, q) then was.crew else {})
            && (now.status == ASSIGNED && now.crew == {} <==> q.read == ASSIGNED && was.crew == {})
            && (now.status == q.read || (q.read == ASSIGNED && now.status == CONFIRMED && was.crew != {} && now.crew == {}))
  {
    assert PhaseHolds(s.db, s.phases[r]);
  }

  ghost predicate Idle(s: State) {
    Inv(s) && s.phases == map[] && s.lock == {}
  }

  lemma AfterRead(s: State, r: RequestId, id: BookingId, w: Window)
    requires Enabled(s, ReadForMove(r, id, w))
    ensures Run(s, [ReadForMove(r, id, w)]) == s.(phases := s.phases[r := Waiting(Move(w, id, s.db.bookings[id].status))])
  {
    assert [ReadForMove(r, id, w)][1..] == [];
  }

  lemma AfterListing(s: State, r: RequestId)
    requires r in s.phases && s.phases[r].Waiting? && s.lock == {}
    ensures var q := s.phases[r].q;
            Apply(Apply(s, TakeLock(r)), List(r, s.db.cleaners.Keys))
            == s.(phases := s.phases[r := Listed(q, AvailableCleaners(s.db, q.window))], lock := {r})
  {
    var q := s.phases[r].q;
    assert AvailableCleaners(s.db, q.window) * s.db.cleaners.Keys == AvailableCleaners(s.db, q.window);
  }

  lemma RunOfThree(s: State, steps: seq<Step>)
    requires |steps| == 3
    ensures Run(s, steps) == Apply(Apply(Apply(s, steps[0]), steps[1]), steps[2])
  {
    var s1 := Apply(s, steps[0]);
    var s2 := Apply(s1, steps[1]);
    assert steps[1..][1..] == [steps[2]] && [steps[2]][1..] == [];
    assert Run(s, steps) == Run(s1, steps[1..]) == Run(s2, [steps[2]]) == Run(Apply(s2, steps[2]), []);
  }

  /** The locked section up to the write, for a request with room. */
  lemma AfterCheck(s: State, r: RequestId)
    requires r in s.phases && s.phases[r].Waiting? && s.lock == {}
    requires RoomFor(s.db, s.phases[r].q, AvailableCleaners(s.db, s.phases[r].q.window))
    ensures var q := s.phases[r].q;
            Run(s, CheckSteps(r, s.db.cleaners.Keys))
            == s.(phases := s.phases[r := Cleared(q, AvailableCleaners(s.db, q.window))], lock := {r})
  {
    var q := s.phases[r].q;
    RunOfThree(s, CheckSteps(r, s.db.cleaners.Keys));
    AfterListing(s, r);
    CountPasses(s.(phases := s.phases[r := Listed(q, AvailableCleaners(s.db, q.window))], lock := {r}), r);
  }

  lemma CountPasses(s: State, r: RequestId)
    requires r in s.phases && s.phases[r].Listed?
    requires |s.phases[r].candidates| > |Competing(s.db, s.phases[r].q.window, Excluded(s.phases[r].q))|
    ensures Apply(s, Count(r)) == s.(phases := s.phases[r := Cleared(s.phases[r].q, s.phases[r].candidates)])
  {
  }

  lemma AfterCancel(s: State, id: BookingId)
    requires Enabled(s, Cancel(id))
    ensures Run(s, [Cancel(id)]) == s.(db := WithStatus(s.db, id, CANCELLED))
  {
    assert [Cancel(id)][1..] == [];
  }

  lemma AfterWrite(s: State, r: RequestId, newId: BookingId)
    requires Enabled(s, Write(r, newId))
    ensures var q, t := s.phases[r].q, Run(s, [Write(r, newId)]);
            t.db == Written(s.db, q, newId) && t.phases == s.phases - {r} && t.lock == s.lock - {r}
  {
    assert [Write(r, newId)][1..] == [];
  }

  lemma {:induction false} RunConcat(s: State, a: seq<Step>, b: seq<Step>)
    ensures Run(s, a + b) == Run(Run(s, a), b)
    decreases |a|
  {
    if a == [] {
      assert a + b == b;
    } else {
      assert (a + b)[1..] == a[1..] + b;
      RunConcat(Apply(s, a[0]), a[1..], b);
    }
  }

  ghost predicate Holds(db: Db, id: BookingId, b: Booking) {
    id in db.bookings && db.bookings[id] == b
  }

  function CheckSteps(r: RequestId, near: set<CleanerId>): seq<Step> {
    [TakeLock(r), List(r, near), Count(r)]
  }

  /** From any idle state: read a waiting booking for a move to a window with room, pass the check,
      have the booking cancelled, write - and the cancelled booking waits again. */
  lemma MoveRevivesACancelledBooking(s: State, id: BookingId, w: Window, newId: BookingId)
    requires Idle(s) && id in s.db.bookings && Unassigned(s.db.bookings[id]) && newId !in s.db.bookings
    requires RoomFor(s.db, Move(w, id, s.db.bookings[id].status), AvailableCleaners(s.db, w))
    ensures var steps := [ReadForMove(0, id, w)] + CheckSteps(0, s.db.cleaners.Keys) + [Cancel(id)];
            && Holds(Run(s, steps).db, id, s.db.bookings[id].(status := CANCELLED))
            && Holds(Run(s, steps + [Write(0, newId)]).db, id, Booking(s.db.bookings[id].status, w, {}))
  {
    var q := Move(w, id, s.db.bookings[id].status);
    var read, check := [ReadForMove(0, id, w)], CheckSteps(0, s.db.cleaners.Keys);
    AfterRead(s, 0, id, w);
    var s1 := s.(phases := s.phases[0 := Waiting(q)]);
    AfterCheck(s1, 0);
    RunConcat(s, read, check);
    var s4 := s1.(phases := s1.phases[0 := Cleared(q, AvailableCleaners(s.db, w))], lock := {0});
    AfterCancel(s4, id);
    RunConcat(s, read + check, [Cancel(id)]);
    var s5 := s4.(db := WithStatus(s.db, id, CANCELLED));
    AfterWrite(s5, 0, newId);
    RunConcat(s, read + check + [Cancel(id)], [Write(0, newId)]);
  }

  /** From any idle state: two moves of one ASSIGNED booking, both read before either writes, to a
      time its crew is not free. The first lets the crew go, the second writes ASSIGNED back. */
  lemma TwoMovesLeaveNobodyAssigned(s: State, id: BookingId, w: Window, newId: BookingId)
    requires Idle(s) && id in s.db.bookings && s.db.bookings[id].status == ASSIGNED && newId !in s.db.bookings
    requires !CrewIsFree(s.db, id, w) && RoomFor(s.db, Move(w, id, ASSIGNED), AvailableCleaners(s.db, w))
    ensures var readBoth := [ReadForMove(0, id, w)] + [ReadForMove(1, id, w)];
            var steps := readBoth + CheckSteps(0, s.db.cleaners.Keys) + [Write(0, newId)];
            && Holds(Run(s, steps).db, id, Booking(CONFIRMED, w, {}))
            && Holds(Run(s, steps + CheckSteps(1, s.db.cleaners.Keys) + [Write(1, newId)]).db, id, Booking(ASSIGNED, w, {}))
  {
    var q := Move(w, id, ASSIGNED);
    var readBoth := [ReadForMove(0, id, w)] + [ReadForMove(1, id, w)];
    var check0, check1 := CheckSteps(0, s.db.cleaners.Keys), CheckSteps(1, s.db.cleaners.Keys);
    BothRead(s, id, w);
    var s2 := s.(phases := map[0 := Waiting(q), 1 := Waiting(q)]);
    AfterCheck(s2, 0);
    RunConcat(s, readBoth, check0);
    var s5 := s2.(phases := s2.phases[0 := Cleared(q, AvailableCleaners(s.db, w))], lock := {0});
    AfterWrite(s5, 0, newId);
    RunConcat(s, readBoth + check0, [Write(0, newId)]);
    var s6 := Run(s, readBoth + check0 + [Write(0, newId)]);
    assert s6.db == s.db.(bookings := s.db.bookings[id := Booking(CONFIRMED, w, {})]);
    SecondMove(s6, id, w, newId, s.db);
    RunConcat(s, readBoth + check0 + [Write(0, newId)], check1);
    RunConcat(s, readBoth + check0 + [Write(0, newId)] + check1, [Write(1, newId)]);
    RunConcat(s6, check1, [Write(1, newId)]);
  }

  lemma BothRead(s: State, id: BookingId, w: Window)
    requires Idle(s) && id in s.db.bookings && s.db.bookings[id].status == ASSIGNED
    ensures var q := Move(w, id, ASSIGNED);
            Run(s, [ReadForMove(0, id, w)] + [ReadForMove(1, id, w)]) == s.(phases := map[0 := Waiting(q), 1 := Waiting(q)])
  {
    var q := Move(w, id, ASSIGNED);
    AfterRead(s, 0, id, w);
    AfterRead(s.(phases := s.phases[0 := Waiting(q)]), 1, id, w);
    RunConcat(s, [ReadForMove(0, id, w)], [ReadForMove(1, id, w)]);
  }

  lemma SecondMove(s6: State, id: BookingId, w: Window, newId: BookingId, before: Db)
    requires id in before.bookings && newId !in before.bookings
    requires RoomFor(before, Move(w, id, ASSIGNED), AvailableCleaners(before, w))
    requires s6.db == before.(bookings := before.bookings[id := Booking(CONFIRMED, w, {})])
    requires 1 in s6.phases && s6.phases[1] == Waiting(Move(w, id, ASSIGNED)) && s6.lock == {}
    ensures Holds(Run(s6, CheckSteps(1, before.cleaners.Keys) + [Write(1, newId)]).db, id, Booking(ASSIGNED, w, {}))
  {
    var q := Move(w, id, ASSIGNED);
    RoomAfterLettingGo(before, id, w);
    AfterCheck(s6, 1);
    RunConcat(s6, CheckSteps(1, before.cleaners.Keys), [Write(1, newId)]);
    var s9 := s6.(phases := s6.phases[1 := Cleared(q, AvailableCleaners(s6.db, w))], lock := {1});
    AfterWrite(s9, 1, newId);
  }

  lemma RoomAfterLettingGo(db: Db, id: BookingId, w: Window)
    requires id in db.bookings && RoomFor(db, Move(w, id, ASSIGNED), AvailableCleaners(db, w))
    ensures var db' := db.(bookings := db.bookings[id := Booking(CONFIRMED, w, {})]);
            RoomFor(db', Move(w, id, ASSIGNED), AvailableCleaners(db', w))
  {
    var db' := db.(bookings := db.bookings[id := Booking(CONFIRMED, w, {})]);
    forall c | c in AvailableCleaners(db, w) ensures c in AvailableCleaners(db', w) {
      CrewlessBookingsBlockNobody(db, id, Booking(CONFIRMED, w, {}), c, w);
    }
    SubsetIsSmaller(AvailableCleaners(db, w), AvailableCleaners(db', w));
    assert Competing(db', w, {id}) == Competing(db, w, {id});
  }

  // ---- what a dispatch can do -------------------------------------------------------------------

  function DispatchedRow(before: Booking, c: CleanerId): Booking {
    Booking(if Unassigned(before) then ASSIGNED else before.status, before.window, before.crew + {c})
  }

  /** A dispatcher adds cleaner `c` to booking `b`. */
  function Dispatched(db: Db, b: BookingId, c: CleanerId): Db
    requires b in db.bookings
  {
    Replaced(db, b, DispatchedRow(db.bookings[b], c))
  }

  /** A dispatch is safe for everyone waiting if each waiting booking close to it has, without the
      crew, more listed cleaners available than bookings competing with it. */
  lemma DispatchKeepsRoster(db: Db, listed: Lists, b: BookingId, c: CleanerId)
    requires Rostered(db, listed) && b in db.bookings
    requires forall i :: CloseTo(db, b, db.bookings[b].window, i) ==> Spares(db, listed, b, db.bookings[b].crew + {c}, i)
    ensures Rostered(Dispatched(db, b, c), listed)
  {
    OccupyingKeepsRoster(db, listed, b, DispatchedRow(db.bookings[b], c));
  }

  /** Where these have no competitors, it is so exactly if each has another listed cleaner available. */
  lemma DispatchKeepsRosterIff(db: Db, listed: Lists, b: BookingId, c: CleanerId)
    requires Rostered(db, listed) && b in db.bookings && db.bookings[b].status != CANCELLED
    requires forall i :: CloseTo(db, b, db.bookings[b].window, i) ==> Competing(db, db.bookings[i].window, {i, b}) == {}
    ensures Rostered(Dispatched(db, b, c), listed) <==>
            forall i :: CloseTo(db, b, db.bookings[b].window, i) ==> i in listed && OthersFor(db, listed, i, db.bookings[b].crew + {c}) != {}
  {
    OccupyingKeepsRosterIff(db, listed, b, DispatchedRow(db.bookings[b], c));
  }

  // ---- what a move that keeps its crew can do -------------------------------------------------------

  /** The same for a move that keeps its crew: the check before the write counts cleaners for one more
      waiting booking, but the write occupies the crew it keeps. */
  lemma KeptCrewKeepsRosterIff(db: Db, listed: Lists, q: Request, newId: BookingId)
    requires Rostered(db, listed) && KeepsItsCrew(db, q) && Movable(q.read)
    requires forall i :: CloseTo(db, q.id, q.window, i) ==> Competing(db, db.bookings[i].window, {i, q.id}) == {}
    ensures Rostered(Written(db, q, newId), listed) <==>
            forall i :: CloseTo(db, q.id, q.window, i) ==> i in listed && OthersFor(db, listed, i, db.bookings[q.id].crew) != {}
  {
    var row := Booking(q.read, q.window, db.bookings[q.id].crew);
    assert Written(db, q, newId) == Replaced(db, q.id, row);
    OccupyingKeepsRosterIff(db, listed, q.id, row);
  }

  /** From any idle state with room, the run of a move ends in the write. */
  lemma MoveRunWrites(s: State, id: BookingId, w: Window, newId: BookingId)
    requires Idle(s) && id in s.db.bookings && Movable(s.db.bookings[id].status) && newId !in s.db.bookings
    requires RoomFor(s.db, Move(w, id, s.db.bookings[id].status), AvailableCleaners(s.db, w))
    ensures Run(s, [ReadForMove(0, id, w)] + CheckSteps(0, s.db.cleaners.Keys) + [Write(0, newId)]).db
         == Written(s.db, Move(w, id, s.db.bookings[id].status), newId)
  {
    var q := Move(w, id, s.db.bookings[id].status);
    var read, check := [ReadForMove(0, id, w)], CheckSteps(0, s.db.cleaners.Keys);
    AfterRead(s, 0, id, w);
    var s1 := s.(phases := s.phases[0 := Waiting(q)]);
    AfterCheck(s1, 0);
    RunConcat(s, read, check);
    var s4 := s1.(phases := s1.phases[0 := Cleared(q, AvailableCleaners(s.db, w))], lock := {0});
    AfterWrite(s4, 0, newId);
    RunConcat(s, read + check, [Write(0, newId)]);
  }

  // ---- why dispatch is not a step of this machine: two bookings, two cleaners ----------------

  const SHIFT_DAY := 4 // 1970-01-01 was a Thursday

  function Utc(): Calendar.Zone {
    t => 0
  }

  function At(hour: int): int {
    Calendar.Hours(hour)
  }

  /** Two overlapping bookings on 1 January 1970, UTC: cleaner 1 works all day, cleaner 2 until noon. */
  function TwoBookings(crewOfFirst: set<CleanerId>): Db {
    Db(Utc(),
       map[1 := Cleaner(true, [OpeningHours.Shift(SHIFT_DAY, OpeningHours.WallTime(8, 0), OpeningHours.WallTime(18, 0))]),
           2 := Cleaner(true, [OpeningHours.Shift(SHIFT_DAY, OpeningHours.WallTime(8, 0), OpeningHours.WallTime(12, 0))])],
       map[1 := Booking(if crewOfFirst == {} then REQUESTED else ASSIGNED, Window(At(10), At(12)), crewOfFirst),
           2 := Booking(REQUESTED, Window(At(11), At(13)), {})])
  }

  lemma OnlyThatDay(until: nat, d: int, from: int, to: int)
    requires 8 < until <= 24 && At(8) <= from <= to < At(24) && OpeningHours.Weekday(d) == SHIFT_DAY
    requires OpeningHours.InsideWindow(d, OpeningHours.WallTime(8, 0), OpeningHours.WallTime(until, 0), from, to)
    ensures to <= At(until)
  {
    OpeningHours.OnlyTwoDaysMatter(d, OpeningHours.WallTime(8, 0), OpeningHours.WallTime(until, 0), from, to);
    assert OpeningHours.Weekday(-1) == 3;
  }

  lemma CoveredUntil(until: nat, from: int, to: int)
    requires 8 < until <= 24 && At(8) <= from <= to < At(24)
    requires OpeningHours.SomeDayCovers(SHIFT_DAY, OpeningHours.WallTime(8, 0), OpeningHours.WallTime(until, 0), from, to)
    ensures to <= At(until)
  {
    var d: int :| OpeningHours.Weekday(d) == SHIFT_DAY
                  && OpeningHours.InsideWindow(d, OpeningHours.WallTime(8, 0), OpeningHours.WallTime(until, 0), from, to);
    OnlyThatDay(until, d, from, to);
  }

  lemma ShiftOnThatDay(until: nat, from: int, to: int)
    requires 8 < until <= 24 && At(8) <= from <= to < At(24)
    ensures OpeningHours.ShiftCovers(OpeningHours.Shift(SHIFT_DAY, OpeningHours.WallTime(8, 0), OpeningHours.WallTime(until, 0)), from, to, Utc())
            <==> to <= At(until)
  {
    var s := OpeningHours.Shift(SHIFT_DAY, OpeningHours.WallTime(8, 0), OpeningHours.WallTime(until, 0));
    OpeningHours.SlotCoversIsComplete(s, from, to, Utc(), 0);
    if to <= At(until) {
      assert OpeningHours.Weekday(0) == 4 && OpeningHours.InsideWindow(0, s.start, s.end, from, to);
    }
    if OpeningHours.SomeDayCovers(4, s.start, s.end, from, to) { CoveredUntil(until, from, to); }
  }

  lemma WhoWorksWhen()
    ensures forall crew :: var db := TwoBookings(crew);
              && HasShift(db.zone, db.cleaners[2], db.bookings[1].window)
              && HasShift(db.zone, db.cleaners[1], db.bookings[2].window)
              && !HasShift(db.zone, db.cleaners[2], db.bookings[2].window)
  {
    forall crew: set<CleanerId>
      ensures var db := TwoBookings(crew);
              && HasShift(db.zone, db.cleaners[2], db.bookings[1].window)
              && HasShift(db.zone, db.cleaners[1], db.bookings[2].window)
              && !HasShift(db.zone, db.cleaners[2], db.bookings[2].window)
    {
      ShiftOnThatDay(12, At(10), At(12));
      ShiftOnThatDay(18, At(11), At(13));
      ShiftOnThatDay(12, At(11), At(13));
      var db := TwoBookings(crew);
      assert OpeningHours.ShiftCovers(db.cleaners[2].availability[0], At(10), At(12), db.zone);
      assert OpeningHours.ShiftCovers(db.cleaners[1].availability[0], At(11), At(13), db.zone);
    }
  }

  lemma BothAreAvailable()
    ensures var db := TwoBookings({}); Available(db, 2, db.bookings[1].window) && Available(db, 1, db.bookings[2].window)
  {
    WhoWorksWhen();
  }

  lemma RosterOfTwo(db: Db, listed: Lists, r: map<BookingId, CleanerId>)
    requires db.bookings.Keys == {1, 2} && listed == map[1 := {1, 2}, 2 := {1}] && r == map[1 := 2, 2 := 1]
    requires Available(db, 2, db.bookings[1].window) && Available(db, 1, db.bookings[2].window)
    ensures IsRoster(db, listed, r)
  {
    forall id | id in db.bookings && Unassigned(db.bookings[id]) ensures id in r && Serves(db, listed, id, r[id]) {
      assert id == 1 || id == 2;
    }
    forall i, j | i in db.bookings && j in db.bookings && Clash(db, i, j) ensures r[i] != r[j] {
      assert (i == 1 && j == 2) || (i == 2 && j == 1);
    }
  }

  lemma BothCanBeServed()
    ensures Rostered(TwoBookings({}), map[1 := {1, 2}, 2 := {1}])
  {
    BothAreAvailable();
    RosterOfTwo(TwoBookings({}), map[1 := {1, 2}, 2 := {1}], map[1 := 2, 2 := 1]);
  }

  lemma DispatchedFirst()
    ensures Dispatched(TwoBookings({}), 1, 1) == TwoBookings({1})
  {
    var crew: set<CleanerId> := {1};
    assert 1 in crew && {} + crew == crew;
    assert TwoBookings(crew).bookings[1] == Booking(ASSIGNED, Window(At(10), At(12)), crew);
    assert Dispatched(TwoBookings({}), 1, 1).bookings == TwoBookings(crew).bookings;
  }

  /** Counting protects the promise against other customers, not against a dispatcher: giving
      the first booking to cleaner 1, who is free, strands the second. */
  lemma DispatchCanStrandABooking()
    ensures Rostered(TwoBookings({}), map[1 := {1, 2}, 2 := {1}])
    ensures Dispatched(TwoBookings({}), 1, 1) == TwoBookings({1})
    ensures forall listed :: !Rostered(TwoBookings({1}), listed)
  {
    DispatchedFirst();
    BothCanBeServed();
    WhoWorksWhen();
    var db := TwoBookings({1});
    assert Busy(db.bookings[1], 1, db.bookings[2].window);
    assert forall c :: !Available(db, c, db.bookings[2].window);
    assert 2 in db.bookings && Unassigned(db.bookings[2]);
  }

  /** Both bookings waiting, nobody at work on a request. */
  function QuietMorning(): State {
    State(TwoBookings({}), map[], {}, map[1 := {1, 2}, 2 := {1}])
  }

  lemma AfternoonHasRoom()
    ensures RoomFor(QuietMorning().db, Move(Window(At(14), At(16)), 1, REQUESTED), AvailableCleaners(QuietMorning().db, Window(At(14), At(16))))
  {
    var db, w := QuietMorning().db, Window(At(14), At(16));
    ShiftOnThatDay(18, At(14), At(16));
    assert OpeningHours.ShiftCovers(db.cleaners[1].availability[0], At(14), At(16), db.zone);
    assert 1 in AvailableCleaners(db, w);
    assert Competing(db, w, {1}) == {};
  }

  lemma QuietMorningIsIdle()
    ensures Idle(QuietMorning())
  {
    BothCanBeServed();
  }

  lemma QuietMorningFacts(s: State)
    requires s == QuietMorning()
    ensures s.db.cleaners.Keys == {1, 2} && 3 !in s.db.bookings
    ensures 1 in s.db.bookings && s.db.bookings[1] == Booking(REQUESTED, Window(At(10), At(12)), {})
  {
  }

  lemma RevivalFrom(s: State, w: Window)
    requires s == QuietMorning() && w == Window(At(14), At(16))
    ensures var steps := [ReadForMove(0, 1, w)] + CheckSteps(0, {1, 2}) + [Cancel(1)];
            && Holds(Run(s, steps).db, 1, Booking(CANCELLED, Window(At(10), At(12)), {}))
            && Holds(Run(s, steps + [Write(0, 3)]).db, 1, Booking(REQUESTED, w, {}))
  {
    QuietMorningIsIdle();
    QuietMorningFacts(s);
    AfternoonHasRoom();
    MoveRevivesACancelledBooking(s, 1, w, 3);
  }

  /** A cancelled booking comes back to life, from an idle state. */
  lemma RevivalIsReachable()
    ensures var steps := [ReadForMove(0, 1, Window(At(14), At(16)))] + CheckSteps(0, {1, 2}) + [Cancel(1)];
            && Holds(Run(QuietMorning(), steps).db, 1, Booking(CANCELLED, Window(At(10), At(12)), {}))
            && Holds(Run(QuietMorning(), steps + [Write(0, 3)]).db, 1, Booking(REQUESTED, Window(At(14), At(16)), {}))
  {
    RevivalFrom(QuietMorning(), Window(At(14), At(16)));
  }

  /** Both bookings served by cleaner 1, the second in the morning, the first in the afternoon. */
  function BusyDay(): State {
    State(TwoBookings({}).(bookings := map[1 := Booking(ASSIGNED, Window(At(14), At(16)), {1}),
                                           2 := Booking(ASSIGNED, Window(At(10), At(12)), {1})]), map[], {}, map[])
  }

  lemma MorningHasRoom()
    ensures RoomFor(BusyDay().db, Move(Window(At(10), At(12)), 1, ASSIGNED), AvailableCleaners(BusyDay().db, Window(At(10), At(12))))
  {
    var db, w := BusyDay().db, Window(At(10), At(12));
    ShiftOnThatDay(12, At(10), At(12));
    assert OpeningHours.ShiftCovers(db.cleaners[2].availability[0], At(10), At(12), db.zone);
    assert 2 in AvailableCleaners(db, w);
    assert Competing(db, w, {1}) == {};
  }

  /** A booking ends up ASSIGNED to nobody. */
  lemma NobodyAssignedIsReachable()
    ensures Idle(BusyDay())
    ensures var steps := [ReadForMove(0, 1, Window(At(10), At(12)))] + [ReadForMove(1, 1, Window(At(10), At(12)))]
                         + CheckSteps(0, {1, 2}) + [Write(0, 3)] + CheckSteps(1, {1, 2}) + [Write(1, 3)];
            Holds(Run(BusyDay(), steps).db, 1, Booking(ASSIGNED, Window(At(10), At(12)), {}))
  {
    NobodyWaitingIsRostered(BusyDay().db, map[]);
    MorningHasRoom();
    assert BusyDay().db.cleaners.Keys == {1, 2};
    assert !CrewIsFree(BusyDay().db, 1, Window(At(10), At(12))) by {
      assert 2 in BusyDay().db.bookings && 1 in BusyDay().db.bookings[2].crew;
    }
    TwoMovesLeaveNobodyAssigned(BusyDay(), 1, Window(At(10), At(12)), 3);
  }

  /** Booking 1 served by cleaner 1 in the afternoon, booking 2 waiting for the same cleaner at noon. */
  function Noon(): State {
    State(TwoBookings({}).(bookings := map[1 := Booking(ASSIGNED, Window(At(14), At(16)), {1}),
                                           2 := Booking(REQUESTED, Window(At(11), At(13)), {})]), map[], {}, map[2 := {1}])
  }

  lemma NoonRows(s: State)
    requires s == Noon()
    ensures s.db.bookings.Keys == {1, 2} && s.db.cleaners.Keys == {1, 2} && s.listed == map[2 := {1}] && s.phases == map[] && s.lock == {}
    ensures s.db.bookings[1] == Booking(ASSIGNED, Window(At(14), At(16)), {1})
    ensures s.db.bookings[2] == Booking(REQUESTED, Window(At(11), At(13)), {})
  {
  }

  lemma NoonShifts(s: State)
    requires s == Noon()
    ensures s.db.cleaners.Keys == {1, 2} && s.db.cleaners[1].active && s.db.cleaners[2].active
    ensures HasShift(s.db.zone, s.db.cleaners[1], Window(At(11), At(13)))
    ensures HasShift(s.db.zone, s.db.cleaners[1], Window(At(10), At(12))) && HasShift(s.db.zone, s.db.cleaners[2], Window(At(10), At(12)))
  {
    ShiftOnThatDay(18, At(11), At(13));
    ShiftOnThatDay(18, At(10), At(12));
    ShiftOnThatDay(12, At(10), At(12));
    assert OpeningHours.ShiftCovers(s.db.cleaners[1].availability[0], At(11), At(13), s.db.zone);
    assert OpeningHours.ShiftCovers(s.db.cleaners[1].availability[0], At(10), At(12), s.db.zone);
    assert OpeningHours.ShiftCovers(s.db.cleaners[2].availability[0], At(10), At(12), s.db.zone);
  }

  lemma NoonIsIdle(s: State)
    requires s == Noon()
    ensures Idle(s)
  {
    NoonRows(s);
    NoonShifts(s);
    assert Available(s.db, 1, Window(At(11), At(13)));
    RosterOfOne(s.db, s.listed, map[2 := 1]);
  }

  lemma RosterOfOne(db: Db, listed: Lists, r: map<BookingId, CleanerId>)
    requires db.bookings.Keys == {1, 2} && !Unassigned(db.bookings[1]) && listed == map[2 := {1}] && r == map[2 := 1]
    requires Available(db, 1, db.bookings[2].window)
    ensures IsRoster(db, listed, r)
  {
    forall id | id in db.bookings && Unassigned(db.bookings[id]) ensures id in r && Serves(db, listed, id, r[id]) {
      assert id == 2;
    }
  }

  lemma BothFreeAtTen(s: State, w: Window)
    requires s == Noon() && w == Window(At(10), At(12))
    ensures Available(s.db, 1, w) && Available(s.db, 2, w)
  {
    NoonRows(s);
    NoonShifts(s);
  }

  lemma RoomForTwo(db: Db, q: Request)
    requires 1 in db.cleaners && 2 in db.cleaners && Available(db, 1, q.window) && Available(db, 2, q.window)
    requires q.Move? && q.id == 1 && db.bookings.Keys == {1, 2}
    ensures RoomFor(db, q, AvailableCleaners(db, q.window))
  {
    SubsetIsSmaller({1, 2}, AvailableCleaners(db, q.window));
    SubsetIsSmaller(Competing(db, q.window, Excluded(q)), {2});
  }

  lemma NoonHasRoom(s: State, w: Window)
    requires s == Noon() && w == Window(At(10), At(12))
    ensures RoomFor(s.db, Move(w, 1, ASSIGNED), AvailableCleaners(s.db, w)) && CrewIsFree(s.db, 1, w)
  {
    NoonRows(s);
    BothFreeAtTen(s, w);
    RoomForTwo(s.db, Move(w, 1, ASSIGNED));
  }

  /** Moving booking 1 to 10-12 passes the check, keeps cleaner 1, and strands booking 2. */
  lemma KeptCrewCanStrandABooking()
    ensures Idle(Noon())
    ensures var w := Window(At(10), At(12));
            var db' := Run(Noon(), [ReadForMove(0, 1, w)] + CheckSteps(0, {1, 2}) + [Write(0, 3)]).db;
            Holds(db', 1, Booking(ASSIGNED, w, {1})) && forall listed :: !Rostered(db', listed)
  {
    var s, w := Noon(), Window(At(10), At(12));
    NoonRows(s);
    NoonIsIdle(s);
    NoonHasRoom(s, w);
    MoveRunWrites(s, 1, w, 3);
    NoonIsStranded(s, w);
  }

  lemma NoonIsStranded(s: State, w: Window)
    requires s == Noon() && w == Window(At(10), At(12))
    ensures var db' := Written(s.db, Move(w, 1, ASSIGNED), 3);
            Holds(db', 1, Booking(ASSIGNED, w, {1})) && forall listed :: !Rostered(db', listed)
  {
    NoonRows(s);
    NoonHasRoom(s, w);
    var db' := Written(s.db, Move(w, 1, ASSIGNED), 3);
    assert Busy(db'.bookings[1], 1, Window(At(11), At(13)));
    OnlyTheFirstCould(s, db');
    assert forall c :: !Available(db', c, db'.bookings[2].window);
    assert 2 in db'.bookings && Unassigned(db'.bookings[2]);
  }

  lemma OnlyTheFirstCould(s: State, db': Db)
    requires s == Noon() && db'.zone == s.db.zone && db'.cleaners == s.db.cleaners
    ensures forall c :: Available(db', c, Window(At(11), At(13))) ==> c == 1
  {
    ShiftOnThatDay(12, At(11), At(13));
  }

  // ---- scheduler.js: the list of candidates -------------------------------------------------

  ghost function Among(order: seq<CleanerId>, good: set<CleanerId>, i: nat): set<CleanerId>
    requires i <= |order|
  {
    set c | c in order[..i] && c in good
  }

  /** Half an hour of travel on both sides. */
  lemma BusyMeans(b: Booking, c: CleanerId, w: Window)
    ensures !Busy(b, c, w) <==>
            (c in b.crew && b.status != CANCELLED ==> b.window.end < w.start - 30 * 60_000 || w.end + 30 * 60_000 < b.window.start)
  {
  }

  lemma AvailableMeans(db: Db, w: Window, c: CleanerId)
    ensures Available(db, c, w) <==>
              && c in db.cleaners && db.cleaners[c].active
              && (exists i :: 0 <= i < |db.cleaners[c].availability| && OpeningHours.ShiftCovers(db.cleaners[c].availability[i], w.start, w.end, db.zone))
              && (forall id :: id in db.bookings && c in db.bookings[id].crew && db.bookings[id].status != CANCELLED ==>
                    db.bookings[id].window.end < w.start - 30 * 60_000 || w.end + 30 * 60_000 < db.bookings[id].window.start)
  {
    forall id | id in db.bookings
      ensures !Busy(db.bookings[id], c, w) <==>
              (c in db.bookings[id].crew && db.bookings[id].status != CANCELLED ==>
                 db.bookings[id].window.end < w.start - 30 * 60_000 || w.end + 30 * 60_000 < db.bookings[id].window.start)
    {
      BusyMeans(db.bookings[id], c, w);
    }
  }

  method IsCandidate(db: Db, c: CleanerId, w: Window, near: set<CleanerId>) returns (ok: bool)
    requires c in db.cleaners
    ensures ok <==> c in AvailableCleaners(db, w) * near
  {
    ok := Available(db, c, w) && c in near;
  }

  lemma AllLookedAt(db: Db, order: seq<CleanerId>, good: set<CleanerId>)
    requires good <= db.cleaners.Keys && forall c :: c in order <==> c in db.cleaners
    ensures Among(order, good, |order|) == good
  {
    assert order[..|order|] == order;
  }

  lemma OneMoreLookedAt(order: seq<CleanerId>, good: set<CleanerId>, i: nat)
    requires i < |order| && forall j, k :: 0 <= j < k < |order| ==> order[j] != order[k]
    ensures forall c :: c in Among(order, good, i + 1) <==> c in Among(order, good, i) || (c == order[i] && c in good)
    ensures |Among(order, good, i + 1)| == |Among(order, good, i)| + if order[i] in good then 1 else 0
  {
    assert order[..i + 1] == order[..i] + [order[i]];
    assert order[i] !in Among(order, good, i);
    assert Among(order, good, i + 1) == Among(order, good, i) + if order[i] in good then {order[i]} else {};
  }

  /** The sequence lists the set, each member once. */
  ghost predicate ListsExactly(candidates: seq<CleanerId>, found: set<CleanerId>) {
    |candidates| == |found| && forall c :: c in candidates <==> c in found
  }

  lemma ListsOneMore(candidates: seq<CleanerId>, order: seq<CleanerId>, good: set<CleanerId>, i: nat)
    requires i < |order| && forall j, k :: 0 <= j < k < |order| ==> order[j] != order[k]
    requires ListsExactly(candidates, Among(order, good, i))
    ensures ListsExactly(if order[i] in good then candidates + [order[i]] else candidates, Among(order, good, i + 1))
  {
    OneMoreLookedAt(order, good, i);
  }

  /** The loop of `findAvailableCleaners`: it lists every available cleaner the distance filter
      keeps exactly once, so its length is what `spareCapacity` counts. */
  method FindAvailableCleaners(db: Db, order: seq<CleanerId>, w: Window, near: set<CleanerId>) returns (candidates: seq<CleanerId>)
    requires forall i, j :: 0 <= i < j < |order| ==> order[i] != order[j]
    requires forall c :: c in order <==> c in db.cleaners
    ensures ListsExactly(candidates, AvailableCleaners(db, w) * near)
    // active, at work then, near enough, and no live booking of theirs within half an hour
    ensures forall c :: c in candidates <==>
              && c in near && c in db.cleaners && db.cleaners[c].active
              && (exists i :: 0 <= i < |db.cleaners[c].availability| && OpeningHours.ShiftCovers(db.cleaners[c].availability[i], w.start, w.end, db.zone))
              && (forall id :: id in db.bookings && c in db.bookings[id].crew && db.bookings[id].status != CANCELLED ==>
                    db.bookings[id].window.end < w.start - 30 * 60_000 || w.end + 30 * 60_000 < db.bookings[id].window.start)
  {
    candidates := [];
    ghost var good := AvailableCleaners(db, w) * near;
    for i := 0 to |order|
      invariant ListsExactly(candidates, Among(order, good, i))
    {
      ListsOneMore(candidates, order, good, i);
      var ok := IsCandidate(db, order[i], w, near);
      if !ok { continue; }
      candidates := candidates + [order[i]];
    }
    AllLookedAt(db, order, good);
    forall c ensures c in candidates <==>
              && c in near && c in db.cleaners && db.cleaners[c].active
              && (exists i :: 0 <= i < |db.cleaners[c].availability| && OpeningHours.ShiftCovers(db.cleaners[c].availability[i], w.start, w.end, db.zone))
              && (forall id :: id in db.bookings && c in db.bookings[id].crew && db.bookings[id].status != CANCELLED ==>
                    db.bookings[id].window.end < w.start - 30 * 60_000 || w.end + 30 * 60_000 < db.bookings[id].window.start)
    {
      AvailableMeans(db, w, c);
    }
  }
}
