/** The payout ledger: earnings batched into payouts, paid, disputed
    (src/modules/payroll/payroll.service.js, src/modules/webhooks/stripe.controller.js). Every call
    is one atomic step. */
module Payouts {
  import opened Options
  import opened Sums

  type BookingId = nat
  type CleanerId = nat
  type EarningId = nat
  type PayoutId = nat

  datatype EarningStatus = PENDING | IN_PAYOUT | PAID | VOIDED
  datatype PayoutStatus = AWAITING | SETTLED

  datatype Earning = Earning(booking: BookingId, cleaner: CleanerId, cents: int, status: EarningStatus, payout: Option<PayoutId>)
  datatype Payout = Payout(cleaner: CleanerId, totalCents: int, status: PayoutStatus)

  datatype Db = Db(earnings: map<EarningId, Earning>, payouts: map<PayoutId, Payout>)

  datatype Op =
    | Earn(id: EarningId, booking: BookingId, cleaner: CleanerId, cents: int)
    | CreatePayout(payout: PayoutId, cleaner: CleanerId)
    | MarkPaid(payout: PayoutId)
    | DisputeOpened(booking: BookingId)
    | DisputeWon(booking: BookingId)

  ghost predicate HasEarned(earnings: map<EarningId, Earning>, booking: BookingId, cleaner: CleanerId) {
    exists e :: e in earnings && earnings[e].booking == booking && earnings[e].cleaner == cleaner
  }

  /** The amounts of a cleaner's PENDING earnings. */
  function Pending(earnings: map<EarningId, Earning>, cleaner: CleanerId): map<EarningId, int> {
    map e | e in earnings && earnings[e].cleaner == cleaner && earnings[e].status == PENDING :: earnings[e].cents
  }

  ghost predicate Accepts(db: Db, op: Op) {
    match op
    case Earn(id, booking, cleaner, cents) => id !in db.earnings && cents > 0 && !HasEarned(db.earnings, booking, cleaner)
    case CreatePayout(id, cleaner) => id !in db.payouts && Pending(db.earnings, cleaner) != map[]
    case MarkPaid(id) => id in db.payouts && db.payouts[id].status == AWAITING
    case DisputeOpened(_) => true
    case DisputeWon(_) => true
  }

  // ---- the guarded updateMany calls, row by row --------------------------------------------

  function Batched(e: Earning, cleaner: CleanerId, payout: PayoutId): Earning {
    if e.cleaner == cleaner && e.status == PENDING then e.(status := IN_PAYOUT, payout := Some(payout)) else e
  }

  function Settled(e: Earning, payout: PayoutId): Earning {
    if e.payout == Some(payout) then e.(status := PAID) else e
  }

  function Turned(e: Earning, booking: BookingId, from: EarningStatus, to: EarningStatus): Earning {
    if e.booking == booking && e.status == from then e.(status := to) else e
  }

  function BatchAll(earnings: map<EarningId, Earning>, cleaner: CleanerId, payout: PayoutId): map<EarningId, Earning> {
    map e | e in earnings :: Batched(earnings[e], cleaner, payout)
  }

  function SettleAll(earnings: map<EarningId, Earning>, payout: PayoutId): map<EarningId, Earning> {
    map e | e in earnings :: Settled(earnings[e], payout)
  }

  function TurnAll(earnings: map<EarningId, Earning>, booking: BookingId, from: EarningStatus, to: EarningStatus): map<EarningId, Earning> {
    map e | e in earnings :: Turned(earnings[e], booking, from, to)
  }

  ghost function Apply(db: Db, op: Op): Db {
    if !Accepts(db, op) then db else
    match op
    case Earn(id, booking, cleaner, cents) => db.(earnings := db.earnings[id := Earning(booking, cleaner, cents, PENDING, None)])
    case CreatePayout(id, cleaner) =>
      Db(BatchAll(db.earnings, cleaner, id),
         db.payouts[id := Payout(cleaner, Sum(Pending(db.earnings, cleaner)), AWAITING)])
    case MarkPaid(id) =>
      Db(SettleAll(db.earnings, id), db.payouts[id := db.payouts[id].(status := SETTLED)])
    case DisputeOpened(booking) => db.(earnings := TurnAll(db.earnings, booking, PENDING, VOIDED))
    case DisputeWon(booking) => db.(earnings := TurnAll(db.earnings, booking, VOIDED, PENDING))
  }

  ghost function Run(db: Db, ops: seq<Op>): Db
    decreases |ops|
  {
    if ops == [] then db else Run(Apply(db, ops[0]), ops[1..])
  }

  // ---- the ledger is consistent --------------------------------------------------------------

  /** The amounts of the earnings in one payout. */
  ghost function Parts(earnings: map<EarningId, Earning>, p: PayoutId): map<EarningId, int> {
    map e | e in earnings && earnings[e].payout == Some(p) :: earnings[e].cents
  }

  ghost predicate PayoutFits(e: Earning, p: Payout) {
    p.cleaner == e.cleaner && (e.status == PAID <==> p.status == SETTLED)
  }

  ghost predicate RowFits(db: Db, e: Earning) {
    && (e.payout.Some? <==> e.status == IN_PAYOUT || e.status == PAID)
    && (e.payout.Some? ==> e.payout.value in db.payouts && PayoutFits(e, db.payouts[e.payout.value]))
  }

  ghost predicate RowsFit(db: Db) {
    forall e :: e in db.earnings ==> RowFits(db, db.earnings[e])
  }

  ghost predicate TotalFits(db: Db, p: PayoutId)
    requires p in db.payouts
  {
    Parts(db.earnings, p) != map[] && db.payouts[p].totalCents == Sum(Parts(db.earnings, p))
  }

  ghost predicate TotalsFit(db: Db) {
    forall p :: p in db.payouts ==> TotalFits(db, p)
  }

  ghost predicate EarnedOnce(db: Db) {
    forall d, e :: d in db.earnings && e in db.earnings && d != e ==>
      db.earnings[d].booking != db.earnings[e].booking || db.earnings[d].cleaner != db.earnings[e].cleaner
  }

  ghost predicate Inv(db: Db) {
    RowsFit(db) && TotalsFit(db) && EarnedOnce(db)
  }

  lemma StepKeepsEarnedOnce(db: Db, op: Op)
    requires EarnedOnce(db)
    ensures EarnedOnce(Apply(db, op))
  {
  }

  lemma StepKeepsRows(db: Db, op: Op)
    requires RowsFit(db)
    ensures RowsFit(Apply(db, op))
  {
  }

  lemma BatchParts(db: Db, cleaner: CleanerId, id: PayoutId, p: PayoutId)
    requires RowsFit(db) && id !in db.payouts
    ensures Parts(BatchAll(db.earnings, cleaner, id), p) == if p == id then Pending(db.earnings, cleaner) else Parts(db.earnings, p)
  {
    forall e | e in db.earnings ensures RowFits(db, db.earnings[e]) {
    }
  }

  lemma SettleParts(earnings: map<EarningId, Earning>, id: PayoutId, p: PayoutId)
    ensures Parts(SettleAll(earnings, id), p) == Parts(earnings, p)
  {
  }

  lemma TurnParts(earnings: map<EarningId, Earning>, booking: BookingId, from: EarningStatus, to: EarningStatus, p: PayoutId)
    ensures Parts(TurnAll(earnings, booking, from, to), p) == Parts(earnings, p)
  {
  }

  lemma EarnParts(earnings: map<EarningId, Earning>, id: EarningId, e: Earning, p: PayoutId)
    requires id !in earnings && e.payout == None
    ensures Parts(earnings[id := e], p) == Parts(earnings, p)
  {
  }

  lemma StepKeepsTotal(db: Db, op: Op, p: PayoutId)
    requires RowsFit(db) && Accepts(db, op) && p in Apply(db, op).payouts && (p in db.payouts ==> TotalFits(db, p))
    ensures TotalFits(Apply(db, op), p)
  {
    match op
    case Earn(id, booking, cleaner, cents) => EarnParts(db.earnings, id, Earning(booking, cleaner, cents, PENDING, None), p);
    case CreatePayout(id, cleaner) => BatchParts(db, cleaner, id, p);
    case MarkPaid(id) => SettleParts(db.earnings, id, p);
    case DisputeOpened(booking) => TurnParts(db.earnings, booking, PENDING, VOIDED, p);
    case DisputeWon(booking) => TurnParts(db.earnings, booking, VOIDED, PENDING, p);
  }

  lemma StepKeepsTotals(db: Db, op: Op)
    requires RowsFit(db) && TotalsFit(db)
    ensures TotalsFit(Apply(db, op))
  {
    if Accepts(db, op) {
      forall p | p in Apply(db, op).payouts ensures TotalFits(Apply(db, op), p) {
        StepKeepsTotal(db, op, p);
      }
    }
  }

  lemma {:induction false} RunKeeps(db: Db, ops: seq<Op>)
    requires Inv(db)
    ensures Inv(Run(db, ops))
    decreases |ops|
  {
    if ops != [] {
      StepKeepsEarnedOnce(db, ops[0]);
      StepKeepsRows(db, ops[0]);
      StepKeepsTotals(db, ops[0]);
      RunKeeps(Apply(db, ops[0]), ops[1..]);
    }
  }

  /** A payout is settled exactly when all its earnings are paid, and when any of them is. */
  lemma SettledMeansAllPaid(db: Db, p: PayoutId)
    requires Inv(db) && p in db.payouts
    ensures db.payouts[p].status == SETTLED <==> forall e :: e in db.earnings && db.earnings[e].payout == Some(p) ==> db.earnings[e].status == PAID
    ensures db.payouts[p].status == SETTLED <==> exists e :: e in db.earnings && db.earnings[e].payout == Some(p) && db.earnings[e].status == PAID
  {
    var e :| e in Parts(db.earnings, p);
    assert RowFits(db, db.earnings[e]);
  }

  /** The ledger from an empty start: whatever happens, an earning is in a payout exactly when it
      is IN_PAYOUT or PAID, totals are sums of what is in them, and nobody earns twice on a booking. */
  lemma LedgerStaysConsistent(ops: seq<Op>)
    ensures Inv(Run(Db(map[], map[]), ops))
  {
    RunKeeps(Db(map[], map[]), ops);
  }

  // ---- what no step does to a row --------------------------------------------------------------

  /** From `e` to `f`: same booking, cleaner and amount; once in a payout, in that payout for good;
      once paid, paid for good; a dispute touches nothing that is in a payout. */
  predicate RowMoves(e: Earning, f: Earning) {
    && f.booking == e.booking && f.cleaner == e.cleaner && f.cents == e.cents
    && (e.payout.Some? ==> f.payout == e.payout && f.status in {IN_PAYOUT, PAID})
    && (e.status == PAID ==> f.status == PAID)
  }

  lemma StepMovesRows(db: Db, op: Op, e: EarningId)
    requires RowsFit(db) && e in db.earnings
    ensures e in Apply(db, op).earnings && RowMoves(db.earnings[e], Apply(db, op).earnings[e])
  {
    assert RowFits(db, db.earnings[e]);
  }

  /** No run loses an earning, changes its amount, pays it through two payouts or unpays it. */
  lemma {:induction false} RunMovesRows(db: Db, ops: seq<Op>, e: EarningId)
    requires Inv(db) && e in db.earnings
    ensures e in Run(db, ops).earnings && RowMoves(db.earnings[e], Run(db, ops).earnings[e])
    decreases |ops|
  {
    if ops != [] {
      var next := Apply(db, ops[0]);
      RunKeeps(db, [ops[0]]);
      assert Run(db, [ops[0]]) == next;
      StepMovesRows(db, ops[0], e);
      assert RowFits(next, next.earnings[e]);
      RunMovesRows(next, ops[1..], e);
    }
  }

  // ---- disputes ------------------------------------------------------------------------------------

  /** An opened dispute leaves nothing of the booking to pay out; winning it gives back what it
      held, if nothing was held before. */
  lemma WinningUndoesOpening(db: Db, booking: BookingId)
    requires forall e :: e in db.earnings && db.earnings[e].booking == booking ==> db.earnings[e].status != VOIDED
    ensures var held := Apply(db, DisputeOpened(booking));
            && (forall e :: e in held.earnings && held.earnings[e].booking == booking ==> held.earnings[e].status != PENDING)
            && Apply(held, DisputeWon(booking)) == db
  {
    var held := Apply(db, DisputeOpened(booking));
    assert Apply(held, DisputeWon(booking)).earnings == db.earnings;
  }

  ghost predicate HeldAllAlong(db: Db, ops: seq<Op>, e: EarningId)
    decreases |ops|
  {
    && e in db.earnings && db.earnings[e].status == VOIDED && db.earnings[e].payout == None
    && (ops != [] ==> HeldAllAlong(Apply(db, ops[0]), ops[1..], e))
  }

  lemma OneStepOfAHold(db: Db, op: Op, e: EarningId)
    requires Inv(db) && e in db.earnings && db.earnings[e].status == VOIDED
    ensures db.earnings[e].payout == None && e in Apply(db, op).earnings
    ensures Apply(db, op).earnings[e] ==
            if op == DisputeWon(db.earnings[e].booking) then db.earnings[e].(status := PENDING) else db.earnings[e]
  {
    assert RowFits(db, db.earnings[e]);
  }

  /** A held earning stays held, and out of every payout, exactly until some dispute of its booking is won. */
  lemma {:induction false} HeldAllAlongIff(db: Db, ops: seq<Op>, e: EarningId)
    requires Inv(db) && e in db.earnings && db.earnings[e].status == VOIDED
    ensures HeldAllAlong(db, ops, e) <==> forall i :: 0 <= i < |ops| ==> ops[i] != DisputeWon(db.earnings[e].booking)
    decreases |ops|
  {
    assert RowFits(db, db.earnings[e]);
    if ops != [] {
      var next := Apply(db, ops[0]);
      OneStepOfAHold(db, ops[0], e);
      StepKeeps(db, ops[0]);
      if ops[0] != DisputeWon(db.earnings[e].booking) {
        HeldAllAlongIff(next, ops[1..], e);
        assert forall i :: 1 <= i < |ops| ==> ops[i] == ops[1..][i - 1];
      }
    }
  }

  // ---- several disputes of one booking ---------------------------------------------------------------

  type IntentId = nat

  /** A dispute is about one payment of a booking: its job, deposit or tip. */
  datatype Dispute = Dispute(booking: BookingId, intent: IntentId)

  datatype Event = Ledgered(op: Op) | Opened(dispute: Dispute) | Won(dispute: Dispute) | Lost(dispute: Dispute)

  /** The ledger and, as history, the disputes that are open. */
  datatype Watched = Watched(db: Db, open: set<Dispute>)

  ghost function Watch(s: Watched, ev: Event): Watched {
    match ev
    case Ledgered(op) => if op.DisputeOpened? || op.DisputeWon? then s else s.(db := Apply(s.db, op))
    case Opened(d) => Watched(Apply(s.db, DisputeOpened(d.booking)), s.open + {d})
    case Won(d) => Watched(Apply(s.db, DisputeWon(d.booking)), s.open - {d})
    case Lost(d) => s.(open := s.open - {d})
  }

  ghost predicate Disputed(open: set<Dispute>, booking: BookingId) {
    exists d :: d in open && d.booking == booking
  }

  /** Nothing of a disputed booking can be paid out. */
  ghost predicate Withheld(s: Watched) {
    forall e :: e in s.db.earnings && s.db.earnings[e].status == PENDING ==> !Disputed(s.open, s.db.earnings[e].booking)
  }

  ghost predicate HoldsSomething(db: Db, booking: BookingId) {
    exists e :: e in db.earnings && db.earnings[e].booking == booking && db.earnings[e].status == VOIDED
  }

  /** What lets go of a disputed booking: an earning recorded while a dispute is open, and winning one
      dispute while another one of the booking holds something. */
  ghost predicate LetsGo(s: Watched, ev: Event) {
    || (ev.Ledgered? && ev.op.Earn? && Accepts(s.db, ev.op) && Disputed(s.open, ev.op.booking))
    || (ev.Won? && Disputed(s.open - {ev.dispute}, ev.dispute.booking) && HoldsSomething(s.db, ev.dispute.booking))
  }

  lemma EarningLetsGoIff(s: Watched, op: Op)
    requires Withheld(s) && op.Earn?
    ensures Withheld(Watch(s, Ledgered(op))) <==> !LetsGo(s, Ledgered(op))
  {
    if Accepts(s.db, op) { assert Apply(s.db, op).earnings[op.id].status == PENDING; }
  }

  lemma OtherOpsLetNothingGo(s: Watched, op: Op)
    requires Withheld(s) && (op.CreatePayout? || op.MarkPaid?)
    ensures Withheld(Watch(s, Ledgered(op)))
  {
  }

  lemma OpeningHolds(s: Watched, d: Dispute)
    requires Withheld(s)
    ensures Withheld(Watch(s, Opened(d)))
  {
  }

  lemma WinningLetsGoIff(s: Watched, d: Dispute)
    requires Withheld(s)
    ensures Withheld(Watch(s, Won(d))) <==> !LetsGo(s, Won(d))
  {
    var after := Watch(s, Won(d));
    if e :| e in s.db.earnings && s.db.earnings[e].booking == d.booking && s.db.earnings[e].status == VOIDED {
      assert after.db.earnings[e].status == PENDING;
    }
    forall e | e in after.db.earnings && after.db.earnings[e].status == PENDING && after.db.earnings[e].booking != d.booking
      ensures !Disputed(after.open, after.db.earnings[e].booking)
    {
      assert s.db.earnings[e] == after.db.earnings[e];
    }
  }

  /** Disputed money stays out of payouts exactly as long as nothing lets go of it. */
  lemma WithheldIff(s: Watched, ev: Event)
    requires Withheld(s)
    ensures Withheld(Watch(s, ev)) <==> !LetsGo(s, ev)
  {
    match ev
    case Ledgered(op) =>
      if op.Earn? { EarningLetsGoIff(s, op); } else if op.CreatePayout? || op.MarkPaid? { OtherOpsLetNothingGo(s, op); }
    case Opened(d) => OpeningHolds(s, d);
    case Won(d) => WinningLetsGoIff(s, d);
    case Lost(d) =>
  }

  /** Job and deposit of one booking disputed; the deposit's dispute is won, and the earning is free to
      be paid out while the job's dispute is open. */
  lemma WinningOneFreesWhatTheOtherHolds()
    ensures var s := Watched(Db(map[], map[]), {});
            var s' := Watch(Watch(Watch(Watch(s, Ledgered(Earn(0, 1, 2, 50))), Opened(Dispute(1, 10))), Opened(Dispute(1, 11))), Won(Dispute(1, 11)));
            s'.db.earnings == map[0 := Earning(1, 2, 50, PENDING, None)] && s'.open == {Dispute(1, 10)} && !Withheld(s')
  {
    var s1 := Watch(Watched(Db(map[], map[]), {}), Ledgered(Earn(0, 1, 2, 50)));
    assert s1.db.earnings == map[0 := Earning(1, 2, 50, PENDING, None)];
    var s2 := Watch(s1, Opened(Dispute(1, 10)));
    assert s2.db.earnings == map[0 := Earning(1, 2, 50, VOIDED, None)];
    var s3 := Watch(s2, Opened(Dispute(1, 11)));
    assert s3.db.earnings == map[0 := Earning(1, 2, 50, VOIDED, None)];
    var s4 := Watch(s3, Won(Dispute(1, 11)));
    assert s4.db.earnings == map[0 := Earning(1, 2, 50, PENDING, None)];
    assert s4.open == {Dispute(1, 10)};
    assert Disputed(s4.open, 1) by { assert Dispute(1, 10) in s4.open; }
  }

  // ---- the payroll page adds up ------------------------------------------------------------------

  ghost function AmountsIn(earnings: map<EarningId, Earning>, status: EarningStatus): map<EarningId, int> {
    map e | e in earnings && earnings[e].status == status :: earnings[e].cents
  }

  ghost function TotalsIn(payouts: map<PayoutId, Payout>, status: PayoutStatus): map<PayoutId, int> {
    map p | p in payouts && payouts[p].status == status :: payouts[p].totalCents
  }

  ghost function PayoutOf(earnings: map<EarningId, Earning>): map<EarningId, PayoutId> {
    map e | e in earnings && earnings[e].payout.Some? :: earnings[e].payout.value
  }

  ghost predicate Match(es: EarningStatus, ps: PayoutStatus) {
    (es == IN_PAYOUT && ps == AWAITING) || (es == PAID && ps == SETTLED)
  }

  lemma PartsAreTheGroup(db: Db, es: EarningStatus, ps: PayoutStatus, p: PayoutId)
    requires RowsFit(db) && Match(es, ps) && p in TotalsIn(db.payouts, ps)
    ensures Group(AmountsIn(db.earnings, es), PayoutOf(db.earnings), p) == Parts(db.earnings, p)
  {
    forall e | e in db.earnings ensures RowFits(db, db.earnings[e]) {
    }
  }

  lemma StatusSumsAgree(db: Db, es: EarningStatus, ps: PayoutStatus)
    requires RowsFit(db) && TotalsFit(db) && Match(es, ps)
    ensures Sum(AmountsIn(db.earnings, es)) == Sum(TotalsIn(db.payouts, ps))
  {
    var m, of, totals := AmountsIn(db.earnings, es), PayoutOf(db.earnings), TotalsIn(db.payouts, ps);
    forall p | p in totals ensures totals[p] == Sum(Group(m, of, p)) {
      assert TotalFits(db, p);
      PartsAreTheGroup(db, es, ps, p);
    }
    forall e | e in m ensures e in of && of[e] in totals { assert RowFits(db, db.earnings[e]); }
    Grouped(m, of, totals);
  }

  /** `getBusinessPayrollSummary` reads three tables' worth of totals that agree in every reachable
      state: what is batched is what the open payouts say, what was paid is what the settled ones say. */
  lemma PayrollSummaryAddsUp(ops: seq<Op>)
    ensures var db := Run(Db(map[], map[]), ops);
            && Sum(AmountsIn(db.earnings, IN_PAYOUT)) == Sum(TotalsIn(db.payouts, AWAITING))
            && Sum(AmountsIn(db.earnings, PAID)) == Sum(TotalsIn(db.payouts, SETTLED))
  {
    LedgerStaysConsistent(ops);
    var db := Run(Db(map[], map[]), ops);
    StatusSumsAgree(db, IN_PAYOUT, AWAITING);
    StatusSumsAgree(db, PAID, SETTLED);
  }

  // ---- the service -----------------------------------------------------------------------------

  method Total(amounts: map<EarningId, int>) returns (total: int)
    ensures total == Sum(amounts)
  {
    var rest := amounts;
    total := 0;
    while rest != map[]
      invariant total + Sum(rest) == Sum(amounts)
      decreases |rest|
    {
      var e :| e in rest;
      TakeOut(rest, e);
      total, rest := total + rest[e], rest - {e};
    }
  }

  predicate InPayoutAfter(was: Earning, now: Earning, cleaner: CleanerId, id: PayoutId) {
    if was.cleaner == cleaner && was.status == PENDING
    then now == Earning(was.booking, cleaner, was.cents, IN_PAYOUT, Some(id)) else now == was
  }

  ghost predicate BatchedInto(before: map<EarningId, Earning>, after: map<EarningId, Earning>, cleaner: CleanerId, id: PayoutId) {
    after.Keys == before.Keys && forall e :: e in after ==> InPayoutAfter(before[e], after[e], cleaner, id)
  }

  lemma BatchingMoves(earnings: map<EarningId, Earning>, cleaner: CleanerId, id: PayoutId)
    ensures BatchedInto(earnings, BatchAll(earnings, cleaner, id), cleaner, id)
  {
  }

  lemma EarnIsPending(earnings: map<EarningId, Earning>, id: EarningId, e: Earning)
    requires id !in earnings && e.status == PENDING
    ensures Pending(earnings[id := e], e.cleaner) == Pending(earnings, e.cleaner)[id := e.cents]
  {
  }

  lemma StepKeeps(db: Db, op: Op)
    requires Inv(db)
    ensures Inv(Apply(db, op))
  {
    StepKeepsEarnedOnce(db, op);
    StepKeepsRows(db, op);
    StepKeepsTotals(db, op);
  }

  /** From `db` to `db'` payout `id` is paid out: it is settled, exactly its earnings are PAID, and no
      other earning and no total has changed. */
  ghost predicate PaidOut(db: Db, db': Db, id: PayoutId) {
    && (id in db.payouts ==> id in db'.payouts && db'.payouts[id].status == SETTLED)
    && (forall e :: e in db'.earnings && db'.earnings[e].payout == Some(id) ==> db'.earnings[e].status == PAID)
    && (forall e :: e in db.earnings && db.earnings[e].payout != Some(id) ==> e in db'.earnings && db'.earnings[e] == db.earnings[e])
    && (forall p :: p in db.payouts ==> p in db'.payouts && db'.payouts[p].totalCents == db.payouts[p].totalCents)
  }

  lemma PaidOutAlready(db: Db, id: PayoutId)
    requires RowsFit(db) && (id in db.payouts ==> db.payouts[id].status == SETTLED)
    ensures PaidOut(db, db, id)
  {
    forall e | e in db.earnings && db.earnings[e].payout == Some(id) ensures db.earnings[e].status == PAID {
      assert RowFits(db, db.earnings[e]);
    }
  }

  lemma SettlingPaysOut(db: Db, id: PayoutId)
    requires id in db.payouts
    ensures PaidOut(db, Db(SettleAll(db.earnings, id), db.payouts[id := db.payouts[id].(status := SETTLED)]), id)
  {
  }

  lemma MarkPaidPaysOut(db: Db, id: PayoutId)
    requires RowsFit(db)
    ensures PaidOut(db, Apply(db, MarkPaid(id)), id)
  {
    if Accepts(db, MarkPaid(id)) { SettlingPaysOut(db, id); } else { PaidOutAlready(db, id); }
  }

  /** From `db` to `db'` nothing of the booking is left in status `from`; nothing in a payout, of
      another booking, or about amounts has changed. */
  ghost predicate TurnedOver(db: Db, db': Db, booking: BookingId, from: EarningStatus) {
    && db'.payouts == db.payouts && db'.earnings.Keys == db.earnings.Keys
    && (forall e :: e in db'.earnings && db'.earnings[e].booking == booking ==> db'.earnings[e].status != from)
    && (forall e :: e in db'.earnings ==> RowMoves(db.earnings[e], db'.earnings[e]))
    && (forall e :: e in db'.earnings && (db'.earnings[e].booking != booking || db'.earnings[e].payout.Some?) ==> db'.earnings[e] == db.earnings[e])
  }

  lemma TurnedRow(db: Db, e: Earning, booking: BookingId, from: EarningStatus, to: EarningStatus)
    requires RowFits(db, e) && (from == PENDING || from == VOIDED) && (to == PENDING || to == VOIDED) && from != to
    ensures var f := Turned(e, booking, from, to);
            && (f.booking == booking ==> f.status != from) && RowMoves(e, f)
            && (f.booking != booking || f.payout.Some? ==> f == e)
  {
  }

  lemma TurnAllTurnsOver(db: Db, booking: BookingId, from: EarningStatus, to: EarningStatus)
    requires RowsFit(db) && (from == PENDING || from == VOIDED) && (to == PENDING || to == VOIDED) && from != to
    ensures TurnedOver(db, db.(earnings := TurnAll(db.earnings, booking, from, to)), booking, from)
  {
    forall e | e in db.earnings
      ensures var f := Turned(db.earnings[e], booking, from, to);
              && (f.booking == booking ==> f.status != from) && RowMoves(db.earnings[e], f)
              && (f.booking != booking || f.payout.Some? ==> f == db.earnings[e])
    {
      TurnedRow(db, db.earnings[e], booking, from, to);
    }
  }

  class Ledger {
    var earnings: map<EarningId, Earning>
    var payouts: map<PayoutId, Payout>

    ghost function Tables(): Db
      reads this
    {
      Db(earnings, payouts)
    }

    ghost predicate Valid()
      reads this
    {
      Inv(Tables())
    }

    constructor ()
      ensures Valid() && Tables() == Db(map[], map[])
    {
      earnings, payouts := map[], map[];
    }

    /** One row of `computeEarningsForBooking`: nothing for an amount that is not positive, and once
        per booking and cleaner. */
    method Earn(id: EarningId, booking: BookingId, cleaner: CleanerId, cents: int) returns (ok: bool)
      requires Valid() && id !in earnings
      modifies this
      ensures Valid() && Tables() == Apply(old(Tables()), Op.Earn(id, booking, cleaner, cents))
      ensures ok <==> cents > 0 && forall e :: e in old(earnings) ==> old(earnings)[e].booking != booking || old(earnings)[e].cleaner != cleaner
      ensures ok ==> earnings == old(earnings)[id := Earning(booking, cleaner, cents, PENDING, None)]
      ensures ok ==> Pending(earnings, cleaner) == Pending(old(earnings), cleaner)[id := cents]
    {
      StepKeeps(Tables(), Op.Earn(id, booking, cleaner, cents));
      EarnIsPending(earnings, id, Earning(booking, cleaner, cents, PENDING, None));
      if exists e :: e in earnings && earnings[e].booking == booking && earnings[e].cleaner == cleaner { return false; }
      if cents <= 0 { return false; }
      earnings := earnings[id := Earning(booking, cleaner, cents, PENDING, None)];
      return true;
    }

    /** Returns the total of what was pending, or None when nothing was; afterwards nothing is. */
    method CreatePayout(id: PayoutId, cleaner: CleanerId) returns (total: Option<int>)
      requires Valid() && id !in payouts
      modifies this
      ensures Valid() && Tables() == Apply(old(Tables()), Op.CreatePayout(id, cleaner))
      ensures total.Some? <==> Pending(old(earnings), cleaner) != map[]
      ensures total.Some? ==> total.value == Sum(Pending(old(earnings), cleaner))
      ensures total.Some? ==> id in payouts && Parts(earnings, id) == Pending(old(earnings), cleaner)
      ensures Pending(earnings, cleaner) == map[]
      // the cleaner's pending earnings, and no others, move into the payout
      ensures total.Some? ==> BatchedInto(old(earnings), earnings, cleaner, id)
    {
      ghost var before := Tables();
      StepKeeps(before, Op.CreatePayout(id, cleaner));
      var pending := Pending(earnings, cleaner);
      if pending == map[] { return None; }
      BatchingMoves(earnings, cleaner, id);
      BatchParts(before, cleaner, id, id);
      var totalCents := Total(pending);
      payouts := payouts[id := Payout(cleaner, totalCents, AWAITING)];
      earnings := BatchAll(earnings, cleaner, id);
      return Some(totalCents);
    }

    /** Afterwards the payout is settled and paid out, at whatever call it became so. */
    method MarkPayoutPaid(id: PayoutId) returns (found: bool)
      requires Valid()
      modifies this
      ensures Valid() && Tables() == Apply(old(Tables()), MarkPaid(id)) && (found <==> id in old(payouts))
      ensures PaidOut(old(Tables()), Tables(), id)
    {
      StepKeeps(Tables(), MarkPaid(id));
      MarkPaidPaysOut(Tables(), id);
      ghost var after := Apply(Tables(), MarkPaid(id));
      if id !in payouts { return false; }
      if payouts[id].status == SETTLED { return true; }
      payouts := payouts[id := payouts[id].(status := SETTLED)];
      earnings := SettleAll(earnings, id);
      assert Tables() == after;
      return true;
    }

    /** A new dispute leaves nothing of the booking to pay out, a won one nothing held; a lost one
        changes nothing. */
    method ChargeDispute(booking: BookingId, created: bool, won: bool)
      requires Valid()
      modifies this
      ensures Valid()
      ensures created ==> Tables() == Apply(old(Tables()), DisputeOpened(booking)) && TurnedOver(old(Tables()), Tables(), booking, PENDING)
      ensures !created && won ==> Tables() == Apply(old(Tables()), DisputeWon(booking)) && TurnedOver(old(Tables()), Tables(), booking, VOIDED)
      ensures !created && !won ==> Tables() == old(Tables())
    {
      StepKeeps(Tables(), DisputeOpened(booking));
      StepKeeps(Tables(), DisputeWon(booking));
      TurnAllTurnsOver(Tables(), booking, PENDING, VOIDED);
      TurnAllTurnsOver(Tables(), booking, VOIDED, PENDING);
      if created {
        earnings := TurnAll(earnings, booking, PENDING, VOIDED);
      } else if won {
        earnings := TurnAll(earnings, booking, VOIDED, PENDING);
      }
    }
  }
}
