/** How a booking comes to be paid: deposits, payment links and their webhooks, manual receipts,
    gift cards and price edits in any order (src/modules/bookings/bookings.service.js,
    src/modules/webhooks/stripe.controller.js). */
module PaymentMachine {
  import opened Options
  import opened PaymentMath

  type SessionId = nat

  /** `links` holds the amount of every checkout session ever created for the job payment. */
  datatype State = State(a: Account, links: map<SessionId, nat>)

  datatype Op =
    | DepositWebhook(amount: Option<nat>, intent: IntentId)
    | CreateLink(id: SessionId, chargesEnabled: bool)
    | JobWebhook(id: SessionId, intent: IntentId)
    | MarkReceived(received: Option<int>)
    | RedeemGift(applied: nat)
    | EditPrice(cents: int)

  function Received(a: Account, amount: Option<int>): int {
    if amount.Some? && amount.value > 0 then amount.value else AmountDueCents(a)
  }

  predicate Accepts(s: State, op: Op) {
    match op
    case DepositWebhook(_, _) => !s.a.depositPaid
    case CreateLink(id, chargesEnabled) =>
      id !in s.links && s.a.paymentStatus != PAID && s.a.quotedPriceCents > 0 && (AmountDueCents(s.a) > 0 ==> chargesEnabled)
    case JobWebhook(id, _) => id in s.links && s.a.paymentStatus != PAID
    case MarkReceived(amount) => s.a.paymentStatus != PAID && Received(s.a, amount) > 0
    case RedeemGift(applied) => s.a.giftCardAppliedCents.None? && 0 < applied <= s.a.quotedPriceCents
    case EditPrice(cents) => cents >= 0 && s.a.paymentStatus != PAID && !s.a.depositPaid
  }

  function Apply(s: State, op: Op): State {
    if !Accepts(s, op) then s else
    match op
    case DepositWebhook(amount, intent) =>
      s.(a := s.a.(depositPaid := true, depositRequiredCents := if amount.Some? then Some(amount.value) else s.a.depositRequiredCents,
                   depositIntent := Some(intent), paymentStatus := if s.a.paymentStatus == UNPAID then DEPOSIT_PAID else s.a.paymentStatus))
    case CreateLink(id, _) =>
      if AmountDueCents(s.a) == 0 then s.(a := s.a.(paymentStatus := PAID)) else s.(links := s.links[id := AmountDueCents(s.a)])
    case JobWebhook(id, intent) =>
      s.(a := s.a.(paymentStatus := PAID, jobIntent := Some(intent),
                   amountPaidCents := Some((if s.a.amountPaidCents.Some? then s.a.amountPaidCents.value else 0) + s.links[id])))
    case MarkReceived(amount) =>
      var received := Received(s.a, amount);
      s.(a := s.a.(paymentStatus := if received >= AmountDueCents(s.a) then PAID else PARTIAL,
                   amountPaidCents := Some(JobPaymentCents(s.a) + received)))
    case RedeemGift(applied) => s.(a := s.a.(giftCardAppliedCents := Some(applied)))
    case EditPrice(cents) => s.(a := s.a.(quotedPriceCents := cents))
  }

  function Run(s: State, ops: seq<Op>): State
    decreases |ops|
  {
    if ops == [] then s else Run(Apply(s, ops[0]), ops[1..])
  }

  // ---- what a payment does to the amount due -------------------------------------------

  ghost predicate Sane(a: Account) {
    a.quotedPriceCents >= 0 && (a.amountPaidCents.Some? ==> a.amountPaidCents.value >= 0)
  }

  function Less(due: nat, paid: int): nat {
    NonNegative(Some(due - paid))
  }

  /** Each payment takes exactly itself off what is due; only a price edit can add to it. */
  lemma WhatStepsDoToTheDue(s: State, op: Op)
    requires Sane(s.a) && Accepts(s, op)
    ensures var a' := Apply(s, op).a;
            && Sane(a')
            && (op.JobWebhook? ==> AmountDueCents(a') == Less(AmountDueCents(s.a), s.links[op.id]))
            && (op.MarkReceived? ==> AmountDueCents(a') == Less(AmountDueCents(s.a), Received(s.a, op.received)))
            && (op.MarkReceived? ==> (a'.paymentStatus == PAID <==> AmountDueCents(a') == 0))
            && (op.DepositWebhook? && s.a.paymentStatus != PAID ==> AmountDueCents(a') == Less(AmountDueCents(s.a), DepositPaidCents(a')))
            && (op.RedeemGift? && s.a.paymentStatus != PAID ==> AmountDueCents(a') == Less(AmountDueCents(s.a), op.applied))
            && (!op.EditPrice? || op.cents <= s.a.quotedPriceCents ==> AmountDueCents(a') <= AmountDueCents(s.a))
  {
  }

  /** A receipt with an amount adds that amount; one without settles the booking to the cent. */
  lemma ReceiptsAddUp(s: State, received: Option<int>)
    requires Sane(s.a) && Accepts(s, MarkReceived(received))
    ensures var a' := Apply(s, MarkReceived(received)).a;
            && (received.Some? && received.value > 0 ==> PaidSoFarCents(a') == PaidSoFarCents(s.a) + received.value)
            && (received.None? || received.value <= 0 ==>
                  PaidSoFarCents(a') + NonNegative(a'.giftCardAppliedCents) == a'.quotedPriceCents && a'.paymentStatus == PAID)
  {
  }

  /** Nothing is collected from a booking that is PAID or owes nothing, and anything else can be. */
  lemma ReceiptRefusedIff(s: State, received: Option<int>)
    ensures !Accepts(s, MarkReceived(received)) <==>
            s.a.paymentStatus == PAID || (AmountDueCents(s.a) == 0 && (received.None? || received.value <= 0))
  {
  }

  /** What a webhook books, it books against its own intent: a refund of that intent can return
      this payment, and the other intent's part is as it was. */
  lemma WebhooksBookAgainstTheirIntent(s: State, op: Op)
    requires Sane(s.a) && Accepts(s, op)
    ensures op.JobWebhook? ==>
              var a' := Apply(s, op).a;
              && a'.jobIntent == Some(op.intent) && JobPaymentCents(a') == JobPaymentCents(s.a) + s.links[op.id]
              && WithinRecorded(a', RefundItem(op.intent, s.links[op.id]))
              && a'.depositIntent == s.a.depositIntent && DepositPaidCents(a') == DepositPaidCents(s.a)
    ensures op.DepositWebhook? && op.amount.Some? ==>
              var a' := Apply(s, op).a;
              && a'.depositIntent == Some(op.intent) && DepositPaidCents(a') == op.amount.value
              && WithinRecorded(a', RefundItem(op.intent, op.amount.value))
              && a'.jobIntent == s.a.jobIntent && (s.a.paymentStatus != PAID ==> JobPaymentCents(a') == JobPaymentCents(s.a))
  {
  }

  ghost predicate Inv(s: State) {
    && Sane(s.a)
    && (s.a.paymentStatus == PAID ==> AmountDueCents(s.a) == 0)
    && (forall id :: id in s.links ==> s.links[id] >= AmountDueCents(s.a))
  }

  /** The only step to avoid: raising the price while a link for the old amount can still be paid. */
  predicate Careful(s: State, op: Op) {
    op.EditPrice? ==> op.cents <= s.a.quotedPriceCents || s.links == map[]
  }

  ghost predicate CarefulRun(s: State, ops: seq<Op>)
    decreases |ops|
  {
    ops == [] || (Careful(s, ops[0]) && CarefulRun(Apply(s, ops[0]), ops[1..]))
  }

  lemma StepKeeps(s: State, op: Op)
    requires Inv(s) && Careful(s, op)
    ensures Inv(Apply(s, op))
  {
    if Accepts(s, op) {
      WhatStepsDoToTheDue(s, op);
    }
  }

  /** In every reachable state a booking marked PAID owes nothing. */
  lemma {:induction false} PaidMeansNothingDue(s: State, ops: seq<Op>)
    requires Inv(s) && CarefulRun(s, ops)
    ensures var s' := Run(s, ops); Inv(s') && (s'.a.paymentStatus == PAID ==> AmountDueCents(s'.a) == 0)
    decreases |ops|
  {
    if ops != [] {
      StepKeeps(s, ops[0]);
      PaidMeansNothingDue(Apply(s, ops[0]), ops[1..]);
    }
  }

  // ---- exactly when it can fail -----------------------------------------------------------

  ghost predicate PaidUp(s: State) {
    Sane(s.a) && (s.a.paymentStatus == PAID ==> AmountDueCents(s.a) == 0)
  }

  /** A link is paid that was made for less than is due by now. */
  predicate Underpays(s: State, op: Op) {
    op.JobWebhook? && Accepts(s, op) && s.links[op.id] < AmountDueCents(s.a)
  }

  /** The only step that can leave a PAID booking owing something. */
  lemma StepStaysPaidUpIff(s: State, op: Op)
    requires PaidUp(s)
    ensures PaidUp(Apply(s, op)) <==> !Underpays(s, op)
  {
    if Accepts(s, op) { WhatStepsDoToTheDue(s, op); }
  }

  ghost predicate PaidUpAllAlong(s: State, ops: seq<Op>)
    decreases |ops|
  {
    PaidUp(s) && (ops != [] ==> PaidUpAllAlong(Apply(s, ops[0]), ops[1..]))
  }

  predicate NoneUnderpays(s: State, ops: seq<Op>)
    decreases |ops|
  {
    ops == [] || (!Underpays(s, ops[0]) && NoneUnderpays(Apply(s, ops[0]), ops[1..]))
  }

  /** PAID means nothing due all along a run exactly when no link in it is paid for less than is due. */
  lemma {:induction false} PaidUpAllAlongIff(s: State, ops: seq<Op>)
    requires PaidUp(s)
    ensures PaidUpAllAlong(s, ops) <==> NoneUnderpays(s, ops)
    decreases |ops|
  {
    if ops != [] {
      StepStaysPaidUpIff(s, ops[0]);
      if !Underpays(s, ops[0]) { PaidUpAllAlongIff(Apply(s, ops[0]), ops[1..]); }
    }
  }

  /** Paying a link always marks the booking PAID; it settles the booking exactly when the link
      was for at least what is due by then. */
  lemma LinkSettlesIffItCoversTheDue(s: State, id: SessionId, intent: IntentId)
    requires Sane(s.a) && Accepts(s, JobWebhook(id, intent))
    ensures var a' := Apply(s, JobWebhook(id, intent)).a;
            && a'.paymentStatus == PAID
            && (AmountDueCents(a') == 0 <==> s.links[id] >= AmountDueCents(s.a))
  {
    WhatStepsDoToTheDue(s, JobWebhook(id, intent));
  }

  /** The edit guard does not look at outstanding links: a link for 80, a rise to 100, and the
      customer's payment leave a PAID booking that owes 20. */
  lemma PriceRiseAfterLinkLeavesDebt()
    ensures var s := State(Account(80, None, None, false, None, UNPAID, None, None), map[]);
            var s' := Run(s, [CreateLink(1, true), EditPrice(100), JobWebhook(1, 5)]);
            Inv(s) && s'.a.paymentStatus == PAID && AmountDueCents(s'.a) == 20
  {
    var s := State(Account(80, None, None, false, None, UNPAID, None, None), map[]);
    var ops := [CreateLink(1, true), EditPrice(100), JobWebhook(1, 5)];
    assert ops[1..] == [EditPrice(100), JobWebhook(1, 5)];
    assert ops[1..][1..] == [JobWebhook(1, 5)];
    var s1 := Apply(s, ops[0]);
    var s2 := Apply(s1, EditPrice(100));
    assert Run(s2, [JobWebhook(1, 5)]) == Apply(s2, JobWebhook(1, 5));
  }

  /** The message says a price cannot be changed once a payment was received; the guard looks at
      PAID and at the deposit only. A price someone has paid towards is fixed exactly by these. */
  lemma PaidTowardsPriceIsFixedIff(s: State, cents: nat)
    requires PaidSoFarCents(s.a) > 0 && cents != s.a.quotedPriceCents
    ensures Apply(s, EditPrice(cents)).a.quotedPriceCents == s.a.quotedPriceCents <==> s.a.paymentStatus == PAID || s.a.depositPaid
  {
  }

  /** 30 of 100 received by hand, and the price goes down to 50. */
  lemma PriceChangesAfterAPartPayment()
    ensures var s := State(Account(100, None, None, false, None, UNPAID, None, None), map[]);
            var s' := Run(s, [MarkReceived(Some(30)), EditPrice(50)]);
            s'.a.quotedPriceCents == 50 && PaidSoFarCents(s'.a) == 30 && s'.a.paymentStatus == PARTIAL
  {
    var s := State(Account(100, None, None, false, None, UNPAID, None, None), map[]);
    var ops := [MarkReceived(Some(30)), EditPrice(50)];
    assert ops[1..] == [EditPrice(50)];
    var s1 := Apply(s, ops[0]);
    assert s1.a.amountPaidCents == Some(30) && s1.a.paymentStatus == PARTIAL;
    assert Run(s1, [EditPrice(50)]) == Apply(s1, EditPrice(50));
  }

  // ---- the services -----------------------------------------------------------------------

  /** One booking's payments. Every method keeps `Inv` if it held, `UpdatePrice` unless it raises
      the price under an open link. */
  class Desk {
    var account: Account
    var links: map<SessionId, nat>

    function Snapshot(): State
      reads this
    {
      State(account, links)
    }

    ghost predicate Valid()
      reads this
    {
      Sane(account)
    }

    constructor (account: Account)
      requires Sane(account)
      ensures Valid() && this.account == account && links == map[]
    {
      this.account, links := account, map[];
    }

    /** Takes exactly the receipt off what is due, and marks PAID exactly when nothing is left. */
    method MarkPaymentReceived(amount: Option<int>) returns (ok: bool)
      requires Valid()
      modifies this
      ensures Valid() && Snapshot() == Apply(old(Snapshot()), MarkReceived(amount))
      ensures ok <==> old(account).paymentStatus != PAID && Received(old(account), amount) > 0
      ensures ok ==> PaidSoFarCents(account) == PaidSoFarCents(old(account)) + Received(old(account), amount)
      ensures ok ==> AmountDueCents(account) == Less(AmountDueCents(old(account)), Received(old(account), amount))
      ensures ok ==> (account.paymentStatus == PAID <==> AmountDueCents(account) == 0)
      ensures old(Inv(Snapshot())) ==> Inv(Snapshot())
    {
      ghost var before := Snapshot();
      if account.paymentStatus == PAID { return false; }
      var due := AmountDueCents(account);
      var received := if amount.Some? && amount.value > 0 then amount.value else due;
      if received <= 0 { return false; }
      WhatStepsDoToTheDue(before, MarkReceived(amount));
      var fullyPaid := received >= due;
      account := account.(paymentStatus := if fullyPaid then PAID else PARTIAL, amountPaidCents := Some(JobPaymentCents(account) + received));
      return true;
    }

    /** With nothing left to pay no link is made, but the booking is marked PAID on the way out. */
    method CreatePaymentLink(id: SessionId, chargesEnabled: bool) returns (amount: Option<nat>)
      requires Valid() && id !in links
      modifies this
      ensures Valid() && Snapshot() == Apply(old(Snapshot()), CreateLink(id, chargesEnabled))
      ensures amount.Some? <==> id in links
      ensures amount.Some? ==> amount.value == links[id] == AmountDueCents(account) > 0
      ensures PaidSoFarCents(account) >= PaidSoFarCents(old(account)) && AmountDueCents(account) == AmountDueCents(old(account))
      ensures old(Inv(Snapshot())) ==> Inv(Snapshot())
    {
      if account.paymentStatus == PAID { return None; }
      if account.quotedPriceCents <= 0 { return None; }
      var due := AmountDueCents(account);
      if due <= 0 {
        account := account.(paymentStatus := PAID);
        return None;
      }
      if !chargesEnabled { return None; }
      links := links[id := due];
      return Some(due);
    }

    /** The first delivery books the link's amount against the intent and marks PAID; a repeated one does nothing. */
    method JobPaymentSucceeded(id: SessionId, intent: IntentId)
      requires Valid() && id in links
      modifies this
      ensures Valid() && Snapshot() == Apply(old(Snapshot()), JobWebhook(id, intent))
      ensures account.paymentStatus == PAID && links == old(links)
      ensures old(account).paymentStatus == PAID ==> account == old(account)
      ensures old(account).paymentStatus != PAID ==>
                && PaidSoFarCents(account) == PaidSoFarCents(old(account)) + links[id]
                && AmountDueCents(account) == Less(AmountDueCents(old(account)), links[id])
                && WithinRecorded(account, RefundItem(intent, links[id]))
      ensures old(Inv(Snapshot())) ==> Inv(Snapshot()) && AmountDueCents(account) == 0
    {
      ghost var before := Snapshot();
      if account.paymentStatus != PAID {
        WhatStepsDoToTheDue(before, JobWebhook(id, intent));
        WebhooksBookAgainstTheirIntent(before, JobWebhook(id, intent));
        var paidBefore := if account.amountPaidCents.Some? then account.amountPaidCents.value else 0;
        account := account.(paymentStatus := PAID, jobIntent := Some(intent), amountPaidCents := Some(paidBefore + links[id]));
      }
    }

    /** The first delivery books the deposit against the intent and takes it off what is due; a
        repeated one does nothing, and a booking that is PAID stays so. */
    method DepositSucceeded(amount: Option<nat>, intent: IntentId)
      requires Valid()
      modifies this
      ensures Valid() && Snapshot() == Apply(old(Snapshot()), DepositWebhook(amount, intent))
      ensures account.depositPaid && links == old(links)
      ensures old(account).depositPaid ==> account == old(account)
      ensures !old(account).depositPaid ==>
                && (amount.Some? ==> DepositPaidCents(account) == amount.value && WithinRecorded(account, RefundItem(intent, amount.value)))
                && (old(account).paymentStatus != PAID ==> AmountDueCents(account) == Less(AmountDueCents(old(account)), DepositPaidCents(account)))
      ensures old(account).paymentStatus == PAID ==> account.paymentStatus == PAID
      ensures old(Inv(Snapshot())) ==> Inv(Snapshot())
    {
      ghost var before := Snapshot();
      if !account.depositPaid {
        WhatStepsDoToTheDue(before, DepositWebhook(amount, intent));
        WebhooksBookAgainstTheirIntent(before, DepositWebhook(amount, intent));
        var required := if amount.Some? then Some(amount.value) else account.depositRequiredCents;
        account := account.(depositPaid := true, depositRequiredCents := required, depositIntent := Some(intent),
          paymentStatus := if account.paymentStatus == UNPAID then DEPOSIT_PAID else account.paymentStatus);
      }
    }

    /** The last step of a gift-card redemption: the amount taken off the card comes off what is due. */
    method RecordGiftCard(applied: nat) returns (ok: bool)
      requires Valid()
      modifies this
      ensures Valid() && Snapshot() == Apply(old(Snapshot()), RedeemGift(applied)) && ok == Accepts(old(Snapshot()), RedeemGift(applied))
      ensures ok && old(account).paymentStatus != PAID ==> AmountDueCents(account) == Less(AmountDueCents(old(account)), applied)
      ensures old(Inv(Snapshot())) ==> Inv(Snapshot())
    {
      ghost var before := Snapshot();
      if account.giftCardAppliedCents.Some? || applied == 0 || applied > account.quotedPriceCents { return false; }
      WhatStepsDoToTheDue(before, RedeemGift(applied));
      account := account.(giftCardAppliedCents := Some(applied));
      return true;
    }

    /** Refused exactly for a negative price, a PAID booking or a paid deposit; what was received stays
        received, and the due follows the price. */
    method UpdatePrice(cents: int) returns (ok: bool)
      requires Valid()
      modifies this
      ensures Valid() && Snapshot() == Apply(old(Snapshot()), EditPrice(cents))
      ensures ok <==> cents >= 0 && old(account).paymentStatus != PAID && !old(account).depositPaid
      ensures PaidSoFarCents(account) == PaidSoFarCents(old(account))
      ensures ok ==> AmountDueCents(account) == Less(cents, NonNegative(account.giftCardAppliedCents) + PaidSoFarCents(account))
      ensures old(Inv(Snapshot())) && (cents <= old(account).quotedPriceCents || links == map[]) ==> Inv(Snapshot())
    {
      ghost var before := Snapshot();
      if cents < 0 || account.paymentStatus == PAID || account.depositPaid { return false; }
      if Inv(before) && Careful(before, EditPrice(cents)) { StepKeeps(before, EditPrice(cents)); }
      account := account.(quotedPriceCents := cents);
      return true;
    }
  }
}
