/** Recurring visits (src/workers/recurringWorker.js): any number of replicas walk the same
    schedule, one database access at a time, and may crash anywhere, while bookings are made,
    cancelled and moved around them. */
module Recurring {
  import opened Bookings
  import opened Calendar

  type ScheduleId = nat
  type CustomerId = nat
  type WorkerId = nat

  /** A booking row; `schedule` holds at most one schedule id. */
  datatype Visit = Visit(schedule: set<ScheduleId>, customer: CustomerId, window: Window, cancelled: bool)

  /** The schedule under study: how its run date advances, and how long one of its visits lasts. */
  datatype Schedule = Schedule(id: ScheduleId, customer: CustomerId, advance: int -> int, length: int, firstRun: int)

  const MAX_OCCURRENCES := 8

  /** Why a worker moved past an occurrence. A reason that rests on a row names it, and the version
      of the table it was seen in. */
  datatype Disposition =
    | Booked(visit: BookingId, version: nat)          // the worker inserted it
    | AlreadyBooked(visit: BookingId, version: nat)   // the unique key was taken: another replica got here first
    | Conflicting(visit: BookingId, version: nat)     // the customer already had an overlapping booking
    | Past
    | NoAddress

  /** Where a replica stands: it looks at `cursor`, or has decided to skip it, or found no conflict. */
  datatype Stage = Looking | Skipping(why: Disposition) | Clear

  /** What a tick of the daemon starts from: its clock, how far it looks ahead, whether the schedule
      had a usable address, and the version of the table at that moment. */
  datatype Tick = Tick(now: int, horizon: int, hasAddress: bool, version: nat)

  datatype Worker = Worker(cursor: int, tick: nat, done: nat, stage: Stage)

  /** An occurrence passed, by which tick and why; a visit made, for which occurrence. */
  datatype Passed = Passed(tick: nat, why: Disposition)
  datatype Made = Made(visit: BookingId, at: int)

  type Visits = map<BookingId, Visit>

  /** From `ticks` on it is history: every tick, every version of the table, what became of each
      occurrence, every visit made, and which bookings were ever rescheduled. */
  datatype State = State(
    visits: Visits, nextRunDate: int, workers: map<WorkerId, Worker>,
    ticks: seq<Tick>, tables: seq<Visits>, passed: map<int, Passed>, made: seq<Made>, moved: set<BookingId>)

  datatype Step =
    | Begin(w: WorkerId, now: int, horizon: int, hasAddress: bool)   // a tick reads the schedule row
    | LookAtClock(w: WorkerId)                                       // past or address-less occurrences
    | FindConflict(w: WorkerId, hit: set<BookingId>)                 // the conflict query: one hit or none
    | WriteSkip(w: WorkerId)                                         // nextRunDate moves on
    | Insert(w: WorkerId, newId: BookingId)                          // the transaction, or its P2002
    | Crash(w: WorkerId)
    | Book(newId: BookingId, visit: Visit)                           // any other booking, of any schedule
    | CancelVisit(id: BookingId)
    | Move(id: BookingId, window: Window)

  /** The query for the customer's other bookings in the way of an occurrence. */
  predicate InTheWay(c: Schedule, v: Visit, at: int) {
    v.customer == c.customer && !v.cancelled && Overlaps(v.window, Window(at, at + c.length))
  }

  /** A row that holds the unique key (schedule, start). */
  predicate HasKey(c: Schedule, v: Visit, at: int) {
    c.id in v.schedule && v.window.start == at
  }

  ghost predicate Holds(s: State, id: BookingId, c: Schedule, at: int) {
    id in s.visits && HasKey(c, s.visits[id], at)
  }

  ghost predicate KeyTaken(s: State, c: Schedule, at: int) {
    exists id :: Holds(s, id, c, at)
  }

  ghost function KeyHolder(s: State, c: Schedule, at: int): (id: BookingId)
    requires KeyTaken(s, c, at)
    ensures Holds(s, id, c, at)
  {
    var id :| Holds(s, id, c, at); id
  }

  /** Would the row violate the unique key of its schedule? */
  ghost predicate KeyFree(s: State, self: BookingId, schedule: set<ScheduleId>, start: int) {
    forall id :: id in s.visits && id != self && s.visits[id].window.start == start ==> s.visits[id].schedule !! schedule
  }

  ghost predicate Present(s: State, w: WorkerId) {
    w in s.workers && s.workers[w].tick < |s.ticks|
  }

  ghost function TickOf(s: State, w: WorkerId): Tick
    requires Present(s, w)
  {
    s.ticks[s.workers[w].tick]
  }

  ghost predicate Working(s: State, w: WorkerId) {
    Present(s, w) && s.workers[w].stage == Looking && s.workers[w].cursor <= TickOf(s, w).horizon && s.workers[w].done < MAX_OCCURRENCES
  }

  ghost predicate Enabled(c: Schedule, s: State, step: Step) {
    match step
    case Begin(w, _, _, _) => w !in s.workers && s.tables != []
    case LookAtClock(w) => Working(s, w)
    case FindConflict(w, hit) =>
      && Working(s, w) && s.workers[w].cursor >= TickOf(s, w).now && TickOf(s, w).hasAddress && s.tables != []
      && |hit| <= 1
      && (forall id :: id in hit ==> id in s.visits && InTheWay(c, s.visits[id], s.workers[w].cursor))
      && (hit == {} ==> forall id :: id in s.visits ==> !InTheWay(c, s.visits[id], s.workers[w].cursor))
    case WriteSkip(w) => w in s.workers && s.workers[w].stage.Skipping?
    case Insert(w, newId) => w in s.workers && s.workers[w].stage == Clear && newId !in s.visits && s.tables != []
    case Crash(w) => w in s.workers
    case Book(newId, v) => newId !in s.visits && |v.schedule| <= 1 && KeyFree(s, newId, v.schedule, v.window.start)
    case CancelVisit(id) => id in s.visits
    case Move(id, window) => id in s.visits && KeyFree(s, id, s.visits[id].schedule, window.start)
  }

  ghost function At(s: State, w: WorkerId, stage: Stage): State
    requires w in s.workers
  {
    s.(workers := s.workers[w := s.workers[w].(stage := stage)])
  }

  /** `nextRunDate` is written and the replica turns to the next occurrence. The write does not
      look at what is stored, so a slow replica can set it back. */
  ghost function PassOn(c: Schedule, s: State, w: WorkerId, why: Disposition): State
    requires w in s.workers
  {
    var k := s.workers[w];
    var next := c.advance(k.cursor);
    s.(nextRunDate := next,
       passed := s.passed[k.cursor := Passed(k.tick, why)],
       workers := s.workers[w := k.(cursor := next, done := k.done + 1, stage := Looking)])
  }

  /** The version of the table in force. */
  ghost function Current(s: State): nat
    requires s.tables != []
  {
    |s.tables| - 1
  }

  ghost function WithVisits(s: State, visits: Visits): State {
    s.(visits := visits, tables := s.tables + [visits])
  }

  ghost function WithVisit(c: Schedule, s: State, newId: BookingId, at: int): State {
    WithVisits(s, s.visits[newId := Visit({c.id}, c.customer, Window(at, at + c.length), false)]).(made := s.made + [Made(newId, at)])
  }

  ghost function Apply(c: Schedule, s: State, step: Step): State {
    if !Enabled(c, s, step) then s else
    match step
    case Begin(w, now, horizon, hasAddress) =>
      s.(ticks := s.ticks + [Tick(now, horizon, hasAddress, Current(s))],
         workers := s.workers[w := Worker(s.nextRunDate, |s.ticks|, 0, Looking)])
    case LookAtClock(w) =>
      if s.workers[w].cursor < TickOf(s, w).now then At(s, w, Skipping(Past))
      else if !TickOf(s, w).hasAddress then At(s, w, Skipping(NoAddress))
      else s
    case FindConflict(w, hit) => if hit == {} then At(s, w, Clear) else var id :| id in hit; At(s, w, Skipping(Conflicting(id, Current(s))))
    case WriteSkip(w) => PassOn(c, s, w, s.workers[w].stage.why)
    case Insert(w, newId) =>
      var at := s.workers[w].cursor;
      if KeyTaken(s, c, at) then At(s, w, Skipping(AlreadyBooked(KeyHolder(s, c, at), Current(s))))
      else PassOn(c, WithVisit(c, s, newId, at), w, Booked(newId, |s.tables|))
    case Crash(w) => s.(workers := s.workers - {w})
    case Book(newId, v) => WithVisits(s, s.visits[newId := v])
    case CancelVisit(id) => WithVisits(s, s.visits[id := s.visits[id].(cancelled := true)])
    case Move(id, window) => WithVisits(s, s.visits[id := s.visits[id].(window := window)]).(moved := s.moved + {id})
  }

  ghost function Run(c: Schedule, s: State, steps: seq<Step>): State
    decreases |steps|
  {
    if steps == [] then s else Run(c, Apply(c, s, steps[0]), steps[1..])
  }

  // ---- the invariant ------------------------------------------------------------------

  ghost function Occurrence(c: Schedule, n: nat): int {
    Iterate(c.advance, c.firstRun, n)
  }

  ghost predicate AllPassedBefore(c: Schedule, s: State, n: nat) {
    forall k: nat :: k < n ==> Occurrence(c, k) in s.passed
  }

  /** `at` is an occurrence and all earlier ones have been dealt with. */
  ghost predicate Reached(c: Schedule, s: State, at: int) {
    exists n: nat :: at == Occurrence(c, n) && AllPassedBefore(c, s, n)
  }

  /** The row was in the table when the tick could see it. */
  ghost predicate SeenBy(s: State, t: Tick, id: BookingId, version: nat) {
    t.version <= version < |s.tables| && id in s.tables[version]
  }

  /** The booking is still there, of the same schedule, and at its time unless it was moved. */
  ghost predicate StillThere(c: Schedule, s: State, id: BookingId, at: int) {
    id in s.visits && c.id in s.visits[id].schedule && (id !in s.moved ==> s.visits[id].window.start == at)
  }

  /** The occurrence lay between the tick's clock and its horizon, and there was an address to send someone to. */
  predicate Due(t: Tick, at: int) {
    t.now <= at <= t.horizon && t.hasAddress
  }

  /** The recorded reason is true of the tick that passed the occurrence and of the table as that
      tick saw it: a past occurrence lay before its clock; for one without an address it had none;
      and otherwise the named row held the key, or was a live booking of the customer in the way. */
  ghost predicate Truthful(c: Schedule, s: State, at: int, p: Passed) {
    && p.tick < |s.ticks|
    && var t := s.ticks[p.tick];
       match p.why
       case Booked(id, v) =>
         && Due(t, at) && SeenBy(s, t, id, v) && Made(id, at) in s.made && StillThere(c, s, id, at)
         && s.tables[v][id] == Visit({c.id}, c.customer, Window(at, at + c.length), false)
       case AlreadyBooked(id, v) => Due(t, at) && SeenBy(s, t, id, v) && c.id in s.tables[v][id].schedule && s.tables[v][id].window.start == at
       case Conflicting(id, v) => Due(t, at) && SeenBy(s, t, id, v) && Blocking(c, s.tables[v][id], at)
       case Past => at < t.now && at <= t.horizon
       case NoAddress => t.now <= at <= t.horizon && !t.hasAddress
  }

  ghost predicate OnePerSlot(c: Schedule, s: State) {
    forall i, j :: i in s.visits && j in s.visits && i != j && c.id in s.visits[i].schedule && c.id in s.visits[j].schedule
                   ==> s.visits[i].window.start != s.visits[j].window.start
  }

  /** A visit made for an occurrence stays at it until it is moved, and only then can another be made. */
  ghost predicate MadeOnce(c: Schedule, s: State) {
    && (forall p :: 0 <= p < |s.made| ==> StillThere(c, s, s.made[p].visit, s.made[p].at))
    && (forall p, q :: 0 <= p < q < |s.made| && s.made[p].at == s.made[q].at ==> s.made[p].visit in s.moved)
  }

  ghost predicate WorkerFits(c: Schedule, s: State, k: Worker) {
    && Reached(c, s, k.cursor) && k.tick < |s.ticks| && s.ticks[k.tick].version < |s.tables|
    && k.done <= 8 && (k.stage != Looking ==> k.done < 8)
    && (k.stage == Clear ==> Due(s.ticks[k.tick], k.cursor))
    && (k.stage.Skipping? ==> Truthful(c, s, k.cursor, Passed(k.tick, k.stage.why)))
  }

  ghost predicate Tables(s: State) {
    s.tables != [] && s.tables[|s.tables| - 1] == s.visits && s.moved <= s.visits.Keys
  }

  ghost predicate WorkersFit(c: Schedule, s: State) {
    forall w :: w in s.workers ==> WorkerFits(c, s, s.workers[w])
  }

  ghost predicate AllTruthful(c: Schedule, s: State) {
    forall at :: at in s.passed ==> Truthful(c, s, at, s.passed[at])
  }

  ghost predicate Inv(c: Schedule, s: State) {
    && Reached(c, s, s.nextRunDate) && WorkersFit(c, s) && AllTruthful(c, s)
    && OnePerSlot(c, s) && MadeOnce(c, s) && Tables(s)
  }

  lemma ReachedStays(c: Schedule, s: State, s': State, at: int)
    requires Reached(c, s, at) && s.passed.Keys <= s'.passed.Keys
    ensures Reached(c, s', at)
  {
    var n: nat :| at == Occurrence(c, n) && AllPassedBefore(c, s, n);
    assert AllPassedBefore(c, s', n);
  }

  lemma ReachedNext(c: Schedule, s: State, at: int)
    requires Reached(c, s, at) && at in s.passed
    ensures Reached(c, s, c.advance(at))
  {
    var n: nat :| at == Occurrence(c, n) && AllPassedBefore(c, s, n);
    assert AllPassedBefore(c, s, n + 1);
  }

  /** What others do to the table between the replicas' accesses: a booking is cancelled and is no longer
      in the way, but keeps its schedule and start, and with them the unique key; ... */
  lemma CancelledVisitsKeepTheirKey(c: Schedule, s: State, id: BookingId, at: int)
    requires id in s.visits
    ensures var s' := Apply(c, s, CancelVisit(id));
            && s'.visits == s.visits[id := s.visits[id].(cancelled := true)] && s'.moved == s.moved && s'.made == s.made
            && !InTheWay(c, s'.visits[id], at)
            && (Holds(s, id, c, at) ==> KeyTaken(s', c, at))
  {
    var s' := Apply(c, s, CancelVisit(id));
    assert Holds(s, id, c, at) ==> Holds(s', id, c, at);
  }

  /** ... or it is moved, on record, to a start at which no other booking of its schedule holds the key. */
  lemma MovesAreOnRecord(c: Schedule, s: State, id: BookingId, w: Window)
    requires id in s.visits
    ensures var s', v := Apply(c, s, Move(id, w)), s.visits[id];
            if forall o :: o in s.visits && o != id && s.visits[o].window.start == w.start ==> s.visits[o].schedule !! v.schedule
            then s'.visits == s.visits[id := Visit(v.schedule, v.customer, w, v.cancelled)] && s'.moved == s.moved + {id} && s'.made == s.made
            else s' == s
  {
    assert KeyFree(s, id, s.visits[id].schedule, w.start) <==> Enabled(c, s, Move(id, w));
  }

  /** History only grows, and rows are added, cancelled, or moved on record. */
  ghost predicate Grows(s: State, s': State) {
    && s.ticks <= s'.ticks && s.tables <= s'.tables && s.made <= s'.made
    && s.moved <= s'.moved && s.passed.Keys <= s'.passed.Keys && RowsStay(s, s')
  }

  ghost predicate RowsStay(s: State, s': State) {
    forall id :: id in s.visits ==>
      && id in s'.visits && s'.visits[id].schedule == s.visits[id].schedule
      && (id !in s'.moved ==> s'.visits[id].window == s.visits[id].window)
  }

  lemma TruthStays(c: Schedule, s: State, s': State, at: int, p: Passed)
    requires Truthful(c, s, at, p) && Grows(s, s')
    ensures Truthful(c, s', at, p)
  {
  }

  lemma WorkerStays(c: Schedule, s: State, s': State, k: Worker)
    requires WorkerFits(c, s, k) && Grows(s, s')
    ensures WorkerFits(c, s', k)
  {
    ReachedStays(c, s, s', k.cursor);
    if k.stage.Skipping? { TruthStays(c, s, s', k.cursor, Passed(k.tick, k.stage.why)); }
  }

  lemma MadeStays(c: Schedule, s: State, s': State)
    requires MadeOnce(c, s) && Grows(s, s') && s'.made == s.made
    ensures MadeOnce(c, s')
  {
    forall p | 0 <= p < |s'.made| ensures StillThere(c, s', s'.made[p].visit, s'.made[p].at) {
      assert StillThere(c, s, s.made[p].visit, s.made[p].at);
    }
  }

  /** Steps that pass nothing: rows, a tick, or one worker's stage. */
  lemma QuietStepKeeps(c: Schedule, s: State, s': State)
    requires Inv(c, s) && Grows(s, s') && OnePerSlot(c, s') && MadeOnce(c, s') && Tables(s')
    requires s'.nextRunDate == s.nextRunDate && s'.passed == s.passed
    requires forall w :: w in s'.workers ==> (w in s.workers && s'.workers[w] == s.workers[w]) || WorkerFits(c, s', s'.workers[w])
    ensures Inv(c, s')
  {
    ReachedStays(c, s, s', s.nextRunDate);
    forall w | w in s'.workers ensures WorkerFits(c, s', s'.workers[w]) {
      if w in s.workers && s'.workers[w] == s.workers[w] { WorkerStays(c, s, s', s.workers[w]); }
    }
    forall at | at in s'.passed ensures Truthful(c, s', at, s'.passed[at]) {
      TruthStays(c, s, s', at, s.passed[at]);
    }
  }

  lemma StageKeeps(c: Schedule, s: State, w: WorkerId, stage: Stage)
    requires Inv(c, s) && w in s.workers
    requires s.workers[w].tick < |s.ticks| && (stage != Looking ==> s.workers[w].done < 8)
    requires stage.Skipping? ==> Truthful(c, s, s.workers[w].cursor, Passed(s.workers[w].tick, stage.why))
    requires stage == Clear ==> Due(TickOf(s, w), s.workers[w].cursor)
    ensures Inv(c, At(s, w, stage))
  {
    var s', k := At(s, w, stage), s.workers[w];
    assert WorkerFits(c, s, k);
    assert Grows(s, s');
    ReachedStays(c, s, s', k.cursor);
    if stage.Skipping? { TruthStays(c, s, s', k.cursor, Passed(k.tick, stage.why)); }
    assert WorkerFits(c, s', s'.workers[w]);
    MadeStays(c, s, s');
    QuietStepKeeps(c, s, s');
  }

  /** Passing an occurrence on with a true reason. */
  lemma PassOnKeeps(c: Schedule, s: State, w: WorkerId, why: Disposition)
    requires Inv(c, s) && w in s.workers && Truthful(c, s, s.workers[w].cursor, Passed(s.workers[w].tick, why))
    requires s.workers[w].done < 8
    ensures Inv(c, PassOn(c, s, w, why))
  {
    var s', at := PassOn(c, s, w, why), s.workers[w].cursor;
    assert WorkerFits(c, s, s.workers[w]);
    assert Grows(s, s');
    ReachedStays(c, s, s', at);
    ReachedNext(c, s', at);
    MadeStays(c, s, s');
    forall o | o in s'.workers ensures WorkerFits(c, s', s'.workers[o]) {
      if o != w { WorkerStays(c, s, s', s.workers[o]); }
    }
    forall t | t in s'.passed ensures Truthful(c, s', t, s'.passed[t]) {
      if t == at { TruthStays(c, s, s', at, s'.passed[at]); } else { TruthStays(c, s, s', t, s.passed[t]); }
    }
  }

  /** With the key free, an earlier visit for the occurrence has been moved away. */
  lemma AnotherIsMade(c: Schedule, s: State, newId: BookingId, at: int)
    requires MadeOnce(c, s) && newId !in s.visits && !KeyTaken(s, c, at) && s.moved <= s.visits.Keys
    ensures MadeOnce(c, WithVisit(c, s, newId, at))
  {
    var s' := WithVisit(c, s, newId, at);
    forall p | 0 <= p < |s'.made| ensures StillThere(c, s', s'.made[p].visit, s'.made[p].at) {
      if p < |s.made| { assert StillThere(c, s, s.made[p].visit, s.made[p].at); }
    }
    forall p | 0 <= p < |s.made| && s.made[p].at == at ensures s.made[p].visit in s.moved {
      assert StillThere(c, s, s.made[p].visit, at);
      assert !Holds(s, s.made[p].visit, c, at);
    }
  }

  lemma InsertedRowKeeps(c: Schedule, s: State, newId: BookingId, at: int)
    requires Inv(c, s) && newId !in s.visits && !KeyTaken(s, c, at)
    ensures Inv(c, WithVisit(c, s, newId, at))
  {
    forall id | id in s.visits && c.id in s.visits[id].schedule ensures s.visits[id].window.start != at {
      assert !Holds(s, id, c, at);
    }
    AnotherIsMade(c, s, newId, at);
    QuietStepKeeps(c, s, WithVisit(c, s, newId, at));
  }

  lemma InsertKeeps(c: Schedule, s: State, w: WorkerId, newId: BookingId)
    requires Inv(c, s) && Enabled(c, s, Insert(w, newId))
    ensures Inv(c, Apply(c, s, Insert(w, newId)))
  {
    var at := s.workers[w].cursor;
    assert WorkerFits(c, s, s.workers[w]);
    if KeyTaken(s, c, at) {
      StageKeeps(c, s, w, Skipping(AlreadyBooked(KeyHolder(s, c, at), Current(s))));
    } else {
      InsertedRowKeeps(c, s, newId, at);
      var s1 := WithVisit(c, s, newId, at);
      assert s1.made[|s.made|] == Made(newId, at);
      PassOnKeeps(c, s1, w, Booked(newId, |s.tables|));
    }
  }

  lemma FindConflictKeeps(c: Schedule, s: State, w: WorkerId, hit: set<BookingId>)
    requires Inv(c, s) && Enabled(c, s, FindConflict(w, hit))
    ensures Inv(c, Apply(c, s, FindConflict(w, hit)))
  {
    assert WorkerFits(c, s, s.workers[w]);
    if hit == {} {
      StageKeeps(c, s, w, Clear);
    } else {
      var id :| id in hit && Apply(c, s, FindConflict(w, hit)) == At(s, w, Skipping(Conflicting(id, Current(s))));
      StageKeeps(c, s, w, Skipping(Conflicting(id, Current(s))));
    }
  }

  lemma LookAtClockKeeps(c: Schedule, s: State, w: WorkerId)
    requires Inv(c, s) && Enabled(c, s, LookAtClock(w))
    ensures Inv(c, Apply(c, s, LookAtClock(w)))
  {
    assert WorkerFits(c, s, s.workers[w]);
    if s.workers[w].cursor < TickOf(s, w).now {
      StageKeeps(c, s, w, Skipping(Past));
    } else if !TickOf(s, w).hasAddress {
      StageKeeps(c, s, w, Skipping(NoAddress));
    }
  }

  lemma BeginKeeps(c: Schedule, s: State, step: Step)
    requires Inv(c, s) && Enabled(c, s, step) && step.Begin?
    ensures Inv(c, Apply(c, s, step))
  {
    var s' := Apply(c, s, step);
    assert Grows(s, s');
    ReachedStays(c, s, s', s.nextRunDate);
    MadeStays(c, s, s');
    QuietStepKeeps(c, s, s');
  }

  lemma CrashKeeps(c: Schedule, s: State, w: WorkerId)
    requires Inv(c, s) && Enabled(c, s, Crash(w))
    ensures Inv(c, Apply(c, s, Crash(w)))
  {
    var s' := Apply(c, s, Crash(w));
    MadeStays(c, s, s');
    QuietStepKeeps(c, s, s');
  }

  /** Other people's bookings, cancellations and moves. */
  lemma RowChangeKeeps(c: Schedule, s: State, step: Step)
    requires Inv(c, s) && Enabled(c, s, step) && (step.Book? || step.CancelVisit? || step.Move?)
    ensures Inv(c, Apply(c, s, step))
  {
    var s' := Apply(c, s, step);
    RowChangeGrows(c, s, step);
    MadeStays(c, s, s');
    QuietStepKeeps(c, s, s');
  }

  lemma RowChangeGrows(c: Schedule, s: State, step: Step)
    requires OnePerSlot(c, s) && Tables(s) && Enabled(c, s, step) && (step.Book? || step.CancelVisit? || step.Move?)
    ensures Grows(s, Apply(c, s, step)) && OnePerSlot(c, Apply(c, s, step)) && Tables(Apply(c, s, step))
  {
    match step
    case Book(newId, v) => BookGrows(c, s, newId, v);
    case CancelVisit(id) =>
    case Move(id, window) => MoveGrows(c, s, id, window);
  }

  lemma BookGrows(c: Schedule, s: State, newId: BookingId, v: Visit)
    requires OnePerSlot(c, s) && Tables(s) && Enabled(c, s, Book(newId, v))
    ensures var s' := Apply(c, s, Book(newId, v)); Grows(s, s') && OnePerSlot(c, s') && Tables(s')
  {
  }

  lemma MoveGrows(c: Schedule, s: State, id: BookingId, window: Window)
    requires OnePerSlot(c, s) && Tables(s) && Enabled(c, s, Move(id, window))
    ensures var s' := Apply(c, s, Move(id, window)); Grows(s, s') && OnePerSlot(c, s') && Tables(s')
  {
  }

  lemma StepKeeps(c: Schedule, s: State, step: Step)
    requires Inv(c, s)
    ensures Inv(c, Apply(c, s, step))
  {
    if Enabled(c, s, step) {
      match step
      case Begin(_, _, _, _) => BeginKeeps(c, s, step);
      case LookAtClock(w) => LookAtClockKeeps(c, s, w);
      case FindConflict(w, hit) => FindConflictKeeps(c, s, w, hit);
      case WriteSkip(w) =>
        assert WorkerFits(c, s, s.workers[w]);
        PassOnKeeps(c, s, w, s.workers[w].stage.why);
      case Insert(w, newId) => InsertKeeps(c, s, w, newId);
      case Crash(w) => CrashKeeps(c, s, w);
      case _ => RowChangeKeeps(c, s, step);
    }
  }

  lemma {:induction false} RunKeeps(c: Schedule, s: State, steps: seq<Step>)
    requires Inv(c, s)
    ensures Inv(c, Run(c, s, steps))
    decreases |steps|
  {
    if steps != [] {
      StepKeeps(c, s, steps[0]);
      RunKeeps(c, Apply(c, s, steps[0]), steps[1..]);
    }
  }

  /** A schedule as it is created: nothing passed or made, no replica at work. */
  ghost predicate Fresh(c: Schedule, s: State) {
    && s.nextRunDate == c.firstRun && s.workers == map[] && s.ticks == [] && s.tables == [s.visits]
    && s.passed == map[] && s.made == [] && s.moved == {} && OnePerSlot(c, s)
  }

  lemma FreshFits(c: Schedule, s: State)
    requires Fresh(c, s)
    ensures Inv(c, s)
  {
    assert c.firstRun == Occurrence(c, 0) && AllPassedBefore(c, s, 0);
  }

  /** No lost visit: however replicas interleave, crash and overwrite each other's progress, every
      occurrence before the stored `nextRunDate` was passed by some tick, for a reason that was true
      of that tick and of the table as it saw it. */
  lemma NoLostVisit(c: Schedule, plan: Plan, s: State, steps: seq<Step>, n: nat)
    requires Fresh(c, s) && c.advance == Advancing(plan) && Bounded(plan.zone)
    requires Occurrence(c, n) < Run(c, s, steps).nextRunDate
    ensures var s' := Run(c, s, steps); Occurrence(c, n) in s'.passed && Truthful(c, s', Occurrence(c, n), s'.passed[Occurrence(c, n)])
  {
    FreshFits(c, s);
    RunKeeps(c, s, steps);
    var s' := Run(c, s, steps);
    var m: nat :| s'.nextRunDate == Occurrence(c, m) && AllPassedBefore(c, s', m);
    if m < n {
      OrbitIncreases(plan, c.firstRun, m, n);
      assert false;
    }
  }

  /** No tick of the daemon passes more than eight occurrences of a schedule. */
  lemma AtMostEightAtATime(c: Schedule, s: State, steps: seq<Step>, w: WorkerId)
    requires Fresh(c, s) && w in Run(c, s, steps).workers
    ensures Run(c, s, steps).workers[w].done <= 8
  {
    FreshFits(c, s);
    RunKeeps(c, s, steps);
    assert WorkerFits(c, Run(c, s, steps), Run(c, s, steps).workers[w]);
  }

  /** Each (schedule, start) has at most one booking, cancelled ones included. */
  lemma NoDoubleVisit(c: Schedule, s: State, steps: seq<Step>)
    requires Fresh(c, s)
    ensures OnePerSlot(c, Run(c, s, steps))
  {
    FreshFits(c, s);
    RunKeeps(c, s, steps);
  }

  /** And the replicas make at most one visit per occurrence unless the earlier one was moved away. */
  lemma NoSecondVisitUnlessMoved(c: Schedule, s: State, steps: seq<Step>, p: nat, q: nat)
    requires Fresh(c, s) && p < q < |Run(c, s, steps).made|
    requires Run(c, s, steps).made[p].at == Run(c, s, steps).made[q].at
    ensures Run(c, s, steps).made[p].visit in Run(c, s, steps).moved
  {
    FreshFits(c, s);
    RunKeeps(c, s, steps);
  }

  // ---- the stored date is not monotone -----------------------------------------------------------

  /** A step sets the stored date back exactly when it passes an occurrence, with or without booking
      it, whose successor lies before what is stored. */
  lemma NextRunDateGoesBackIff(c: Schedule, s: State, step: Step)
    ensures Apply(c, s, step).nextRunDate < s.nextRunDate <==>
            Enabled(c, s, step) && (step.WriteSkip? || (step.Insert? && !KeyTaken(s, c, s.workers[step.w].cursor)))
            && c.advance(s.workers[step.w].cursor) < s.nextRunDate
  {
  }

  function SkipSteps(w: WorkerId): seq<Step> {
    [LookAtClock(w), WriteSkip(w)]
  }

  lemma {:induction false} RunConcat(c: Schedule, s: State, a: seq<Step>, b: seq<Step>)
    ensures Run(c, s, a + b) == Run(c, Run(c, s, a), b)
    decreases |a|
  {
    if a == [] {
      assert a + b == b;
    } else {
      assert (a + b)[1..] == a[1..] + b;
      RunConcat(c, Apply(c, s, a[0]), a[1..], b);
    }
  }

  lemma TwoSteps(c: Schedule, s: State, steps: seq<Step>)
    requires |steps| == 2
    ensures Run(c, s, steps) == Apply(c, Apply(c, s, steps[0]), steps[1])
  {
    var s1 := Apply(c, s, steps[0]);
    assert Run(c, s, steps) == Run(c, s1, steps[1..]);
    assert Run(c, s1, steps[1..]) == Run(c, Apply(c, s1, steps[1]), steps[1..][1..]);
    assert steps[1..][1..] == [];
  }

  lemma SkipsOne(c: Schedule, s: State, w: WorkerId)
    requires Working(s, w) && !TickOf(s, w).hasAddress
    ensures var k, t := s.workers[w], Run(c, s, SkipSteps(w));
            && t.nextRunDate == c.advance(k.cursor) && t.ticks == s.ticks
            && t.workers == s.workers[w := Worker(c.advance(k.cursor), k.tick, k.done + 1, Looking)]
  {
    var s1 := Apply(c, s, LookAtClock(w));
    assert s1.workers[w].stage.Skipping?;
    TwoSteps(c, s, SkipSteps(w));
  }

  /** From every fresh schedule: two replicas read it, one goes two occurrences ahead, and the other,
      passing the first, sets the date back. */
  lemma NextRunDateCanGoBack(c: Schedule, s: State, now: int, horizon: int)
    requires Fresh(c, s) && (forall t :: c.advance(t) > t) && c.advance(c.firstRun) <= horizon
    ensures var ahead := [Begin(0, now, horizon, false), Begin(1, now, horizon, false)] + SkipSteps(0) + SkipSteps(0);
            && Run(c, s, ahead).nextRunDate == c.advance(c.advance(c.firstRun))
            && Run(c, s, ahead + SkipSteps(1)).nextRunDate == c.advance(c.firstRun) < Run(c, s, ahead).nextRunDate
  {
    var both := [Begin(0, now, horizon, false), Begin(1, now, horizon, false)];
    var first := c.firstRun;
    assert c.advance(first) > first && c.advance(c.advance(first)) > c.advance(first);
    BothBegin(c, s, now, horizon);
    var s2 := Run(c, s, both);
    SkipsOne(c, s2, 0);
    RunConcat(c, s, both, SkipSteps(0));
    var s3 := Run(c, s, both + SkipSteps(0));
    SkipsOne(c, s3, 0);
    RunConcat(c, s, both + SkipSteps(0), SkipSteps(0));
    var s4 := Run(c, s, both + SkipSteps(0) + SkipSteps(0));
    SkipsOne(c, s4, 1);
    RunConcat(c, s, both + SkipSteps(0) + SkipSteps(0), SkipSteps(1));
  }

  lemma BothBegin(c: Schedule, s: State, now: int, horizon: int)
    requires Fresh(c, s)
    ensures var s2 := Run(c, s, [Begin(0, now, horizon, false), Begin(1, now, horizon, false)]);
            && s2.ticks == [Tick(now, horizon, false, 0), Tick(now, horizon, false, 0)]
            && s2.workers == map[0 := Worker(c.firstRun, 0, 0, Looking), 1 := Worker(c.firstRun, 1, 0, Looking)]
  {
    TwoSteps(c, s, [Begin(0, now, horizon, false), Begin(1, now, horizon, false)]);
  }

  // ---- exactly when an occurrence gets a second visit --------------------------------------------

  ghost predicate MadeFor(s: State, at: int) {
    exists p :: 0 <= p < |s.made| && s.made[p].at == at
  }

  ghost predicate NothingMadeTwice(s: State) {
    forall p, q :: 0 <= p < q < |s.made| ==> s.made[p].at != s.made[q].at
  }

  /** The insert of a replica for an occurrence that got its visit before, with the key free again. */
  ghost predicate Repeats(c: Schedule, s: State, step: Step) {
    step.Insert? && Enabled(c, s, step) && MadeFor(s, s.workers[step.w].cursor) && !KeyTaken(s, c, s.workers[step.w].cursor)
  }

  lemma StepMakesTwiceIff(c: Schedule, s: State, step: Step)
    requires NothingMadeTwice(s)
    ensures NothingMadeTwice(Apply(c, s, step)) <==> !Repeats(c, s, step)
  {
    if step.Insert? && Enabled(c, s, step) && !KeyTaken(s, c, s.workers[step.w].cursor) {
      var at, n := s.workers[step.w].cursor, |s.made|;
      var made := Apply(c, s, step).made;
      assert made == s.made + [Made(step.newId, at)];
      if p :| 0 <= p < n && s.made[p].at == at {
        assert made[p].at == made[n].at;
      }
    }
  }

  ghost predicate NoneRepeats(c: Schedule, s: State, steps: seq<Step>)
    decreases |steps|
  {
    steps == [] || (!Repeats(c, s, steps[0]) && NoneRepeats(c, Apply(c, s, steps[0]), steps[1..]))
  }

  lemma {:induction false} OnceTwiceAlwaysTwice(c: Schedule, s: State, steps: seq<Step>)
    requires !NothingMadeTwice(s)
    ensures !NothingMadeTwice(Run(c, s, steps))
    decreases |steps|
  {
    if steps != [] {
      var p, q :| 0 <= p < q < |s.made| && s.made[p].at == s.made[q].at;
      var next := Apply(c, s, steps[0]);
      assert s.made <= next.made;
      assert next.made[p].at == next.made[q].at;
      OnceTwiceAlwaysTwice(c, next, steps[1..]);
    }
  }

  /** Over whole runs: every occurrence gets at most one visit exactly when no replica inserts for an
      occurrence that had its visit and whose key has become free; which takes that visit to have
      been moved. */
  lemma {:induction false} NothingMadeTwiceIff(c: Schedule, s: State, steps: seq<Step>)
    requires NothingMadeTwice(s)
    ensures NothingMadeTwice(Run(c, s, steps)) <==> NoneRepeats(c, s, steps)
    decreases |steps|
  {
    if steps != [] {
      StepMakesTwiceIff(c, s, steps[0]);
      if Repeats(c, s, steps[0]) {
        OnceTwiceAlwaysTwice(c, Apply(c, s, steps[0]), steps[1..]);
      } else {
        NothingMadeTwiceIff(c, Apply(c, s, steps[0]), steps[1..]);
      }
    }
  }

  // ---- a moved visit can be made again ---------------------------------------------------------------

  /** Two replicas, both past the conflict query for the first occurrence of an empty schedule. */
  ghost predicate BothClear(c: Schedule, s: State) {
    && s.visits == map[] && s.made == [] && s.tables != []
    && s.workers.Keys == {0, 1} && s.workers[0].cursor == s.workers[1].cursor == c.firstRun
    && s.workers[0].stage == s.workers[1].stage == Clear
  }

  lemma BothGetClear(c: Schedule, s: State, now: int, horizon: int)
    requires Fresh(c, s) && s.visits == map[] && now <= c.firstRun <= horizon
    ensures BothClear(c, Run(c, s, [Begin(0, now, horizon, true), Begin(1, now, horizon, true)] + [FindConflict(0, {}), FindConflict(1, {})]))
  {
    var begins := [Begin(0, now, horizon, true), Begin(1, now, horizon, true)];
    var finds := [FindConflict(0, {}), FindConflict(1, {})];
    TwoSteps(c, s, begins);
    var s2 := Run(c, s, begins);
    assert s2.workers == map[0 := Worker(c.firstRun, 0, 0, Looking), 1 := Worker(c.firstRun, 1, 0, Looking)];
    TwoSteps(c, s2, finds);
    RunConcat(c, s, begins, finds);
  }

  lemma BothInsert(c: Schedule, s: State, window: Window)
    requires BothClear(c, s) && window.start != c.firstRun
    ensures Run(c, s, [Insert(0, 0), Move(0, window)] + [Insert(1, 1)]).made == [Made(0, c.firstRun), Made(1, c.firstRun)]
  {
    TwoSteps(c, s, [Insert(0, 0), Move(0, window)]);
    var s1 := Apply(c, s, Insert(0, 0));
    assert !KeyTaken(s, c, c.firstRun);
    assert s1.visits.Keys == {0} && s1.made == [Made(0, c.firstRun)];
    var s2 := Apply(c, s1, Move(0, window));
    assert s2.visits[0].window == window;
    assert forall id :: !Holds(s2, id, c, c.firstRun);
    RunConcat(c, s, [Insert(0, 0), Move(0, window)], [Insert(1, 1)]);
    assert [Insert(1, 1)][1..] == [];
    assert Run(c, s2, [Insert(1, 1)]) == Apply(c, s2, Insert(1, 1));
  }

  /** From every fresh schedule without bookings: one replica books the first occurrence, the
      customer moves the visit, and a slow replica books the occurrence again. */
  lemma MovedVisitCanBeMadeAgain(c: Schedule, s: State, now: int, horizon: int, window: Window)
    requires Fresh(c, s) && s.visits == map[] && now <= c.firstRun <= horizon && window.start != c.firstRun
    ensures var steps := [Begin(0, now, horizon, true), Begin(1, now, horizon, true)] + [FindConflict(0, {}), FindConflict(1, {})]
                         + ([Insert(0, 0), Move(0, window)] + [Insert(1, 1)]);
            Run(c, s, steps).made == [Made(0, c.firstRun), Made(1, c.firstRun)]
  {
    var look := [Begin(0, now, horizon, true), Begin(1, now, horizon, true)] + [FindConflict(0, {}), FindConflict(1, {})];
    BothGetClear(c, s, now, horizon);
    BothInsert(c, Run(c, s, look), window);
    RunConcat(c, s, look, [Insert(0, 0), Move(0, window)] + [Insert(1, 1)]);
  }

  // ---- the loop of one undisturbed replica -------------------------------------------------

  class Table {
    var visits: map<BookingId, Visit>
    var nextRunDate: int

    constructor (visits: map<BookingId, Visit>, nextRunDate: int)
      ensures this.visits == visits && this.nextRunDate == nextRunDate
    {
      this.visits, this.nextRunDate := visits, nextRunDate;
    }

    /** One occurrence: skipped when it is past, has no address, is in conflict or is booked
        already, and booked otherwise. Afterwards it is accounted for either way. */
    method Handle(c: Schedule, start: int, now: int, hasAddress: bool) returns (made: bool)
      modifies this`visits
      ensures Extends(old(visits), visits) && Accounted(c, visits, start, now, hasAddress)
      ensures !made ==> visits == old(visits)
      ensures made ==> |visits| == |old(visits)| + 1
      // exactly when it is due, the customer has no live booking then, and no row, cancelled or not, has the key
      ensures made <==>
                && start >= now && hasAddress
                && (forall id :: id in old(visits) ==> !Blocking(c, old(visits)[id], start))
                && (forall id :: id in old(visits) ==> !(c.id in old(visits)[id].schedule && old(visits)[id].window.start == start))
      ensures KeysAreUnique(old(visits)) ==> KeysAreUnique(visits)
      ensures forall id :: id in visits && id !in old(visits) ==> visits[id] == Visit({c.id}, c.customer, Window(start, start + c.length), false)
    {
      forall id | id in visits ensures InTheWay(c, visits[id], start) <==> Blocking(c, visits[id], start) {
        InTheWayMeans(c, visits[id], start);
      }
      if start < now || !hasAddress { return false; }
      if exists id :: id in visits && InTheWay(c, visits[id], start) { return false; }
      if exists id :: id in visits && c.id in visits[id].schedule && visits[id].window.start == start {
        return false; // P2002
      }
      var newId := NewId(visits.Keys);
      visits := visits[newId := Visit({c.id}, c.customer, Window(start, start + c.length), false)];
      assert c.id in visits[newId].schedule && visits[newId].window.start == start;
      return true;
    }

    /** `processSchedule`, with the address and access checks already made: ends on the orbit,
        either past the look-ahead window or after eight occurrences, and adds only visits of
        this schedule that start on the orbit within [now, horizon]; every occurrence it went
        through is accounted for. */
    method ProcessSchedule(c: Schedule, now: int, horizon: int, hasAddress: bool) returns (created: nat, skipped: nat)
      modifies this
      ensures nextRunDate == Iterate(c.advance, old(nextRunDate), created + skipped)
      ensures created + skipped == 8 || nextRunDate > horizon
      ensures created + skipped <= 8
      ensures KeysAreUnique(old(visits)) ==> KeysAreUnique(visits)
      ensures Extends(old(visits), visits) && |visits| == |old(visits)| + created
      ensures forall id :: id in visits && id !in old(visits) ==>
                NewVisit(c, old(nextRunDate), created + skipped, visits[id]) && now <= visits[id].window.start <= horizon
      ensures forall k: nat :: k < created + skipped ==> Accounted(c, visits, Iterate(c.advance, old(nextRunDate), k), now, hasAddress)
      ensures !hasAddress ==> created == 0
    {
      created, skipped := 0, 0;
      ghost var first := nextRunDate;
      var cursor := nextRunDate;
      var i := 0;
      while i < MAX_OCCURRENCES && cursor <= horizon
        invariant i == created + skipped <= MAX_OCCURRENCES
        invariant cursor == nextRunDate == Iterate(c.advance, first, i)
        invariant Extends(old(visits), visits) && |visits| == |old(visits)| + created
        invariant OnlyNewVisits(c, old(visits), visits, first, i, now, horizon)
        invariant AllAccounted(c, visits, first, i, now, hasAddress)
        invariant KeysAreUnique(old(visits)) ==> KeysAreUnique(visits)
        invariant !hasAddress ==> created == 0
      {
        ghost var before := visits;
        var made := Handle(c, cursor, now, hasAddress);
        OneMoreAccounted(c, before, visits, first, i, now, hasAddress);
        OneMoreVisit(c, old(visits), before, visits, first, i, now, horizon);
        if made { created := created + 1; } else { skipped := skipped + 1; }
        nextRunDate := c.advance(cursor);
        cursor := nextRunDate;
        i := i + 1;
      }
    }
  }

  /** A live booking of the customer at some moment between `at` and `at + length`. */
  predicate Blocking(c: Schedule, v: Visit, at: int) {
    v.customer == c.customer && !v.cancelled && v.window.start < at + c.length && at < v.window.end
  }

  lemma InTheWayMeans(c: Schedule, v: Visit, at: int)
    ensures InTheWay(c, v, at) <==> Blocking(c, v, at)
  {
  }

  /** The unique key: at most one row per schedule and start, cancelled rows included. */
  ghost predicate KeysAreUnique(visits: map<BookingId, Visit>) {
    forall i, j :: i in visits && j in visits && i != j && visits[i].window.start == visits[j].window.start ==>
      visits[i].schedule !! visits[j].schedule
  }

  ghost predicate Extends(before: map<BookingId, Visit>, after: map<BookingId, Visit>) {
    forall id :: id in before ==> id in after && after[id] == before[id]
  }

  /** The occurrence at `at` is past, has no address, or there is a booking for it or in its way. */
  ghost predicate Accounted(c: Schedule, visits: map<BookingId, Visit>, at: int, now: int, hasAddress: bool) {
    at < now || !hasAddress ||
    exists id :: id in visits && (Blocking(c, visits[id], at) || (c.id in visits[id].schedule && visits[id].window.start == at))
  }

  ghost predicate AllAccounted(c: Schedule, visits: map<BookingId, Visit>, first: int, n: nat, now: int, hasAddress: bool) {
    forall k: nat :: k < n ==> Accounted(c, visits, Iterate(c.advance, first, k), now, hasAddress)
  }

  ghost predicate OnlyNewVisits(c: Schedule, before: map<BookingId, Visit>, after: map<BookingId, Visit>, first: int, n: nat, now: int, horizon: int) {
    forall id :: id in after && id !in before ==> NewVisit(c, first, n, after[id]) && now <= after[id].window.start <= horizon
  }

  lemma OneMoreAccounted(c: Schedule, before: map<BookingId, Visit>, after: map<BookingId, Visit>, first: int, n: nat, now: int, hasAddress: bool)
    requires AllAccounted(c, before, first, n, now, hasAddress) && Extends(before, after)
    requires Accounted(c, after, Iterate(c.advance, first, n), now, hasAddress)
    ensures AllAccounted(c, after, first, n + 1, now, hasAddress)
  {
    forall k: nat | k < n + 1 ensures Accounted(c, after, Iterate(c.advance, first, k), now, hasAddress) {
      if k < n { StaysAccounted(c, before, after, Iterate(c.advance, first, k), now, hasAddress); }
    }
  }

  lemma OneMoreVisit(c: Schedule, start: map<BookingId, Visit>, before: map<BookingId, Visit>, after: map<BookingId, Visit>, first: int, n: nat, now: int, horizon: int)
    requires OnlyNewVisits(c, start, before, first, n, now, horizon) && Extends(before, after)
    requires var at := Iterate(c.advance, first, n);
             forall id :: id in after && id !in before ==> after[id] == Visit({c.id}, c.customer, Window(at, at + c.length), false)
    requires (exists id :: id in after && id !in before) ==> now <= Iterate(c.advance, first, n) <= horizon
    ensures OnlyNewVisits(c, start, after, first, n + 1, now, horizon)
  {
  }

  lemma StaysAccounted(c: Schedule, before: map<BookingId, Visit>, after: map<BookingId, Visit>, at: int, now: int, hasAddress: bool)
    requires Accounted(c, before, at, now, hasAddress) && Extends(before, after)
    ensures Accounted(c, after, at, now, hasAddress)
  {
  }

  /** A visit the worker made: at one of the first `n` occurrences from `first`. */
  ghost predicate NewVisit(c: Schedule, first: int, n: nat, v: Visit) {
    exists k: nat :: k < n && var at := Iterate(c.advance, first, k); v == Visit({c.id}, c.customer, Window(at, at + c.length), false)
  }

  method NewId(taken: set<BookingId>) returns (id: BookingId)
    ensures id !in taken
  {
    id := 0;
    var rest := taken;
    while rest != {}
      invariant forall k :: k in taken && k !in rest ==> k < id
      decreases rest
    {
      var k :| k in rest;
      rest := rest - {k};
      if k >= id { id := k + 1; }
    }
  }
}
