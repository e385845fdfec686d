/** What a booking has cost, received and still owes, in cents (src/lib/paymentMath.js). */
module PaymentMath {

  import opened Options

  datatype PaymentStatus = UNPAID | DEPOSIT_PAID | PAID | PARTIAL | REFUNDED

  type IntentId = nat

  /** The money columns of a booking row. */
  datatype Account = Account(
    quotedPriceCents: int, giftCardAppliedCents: Option<int>,
    depositRequiredCents: Option<int>, depositPaid: bool,
    amountPaidCents: Option<int>, paymentStatus: PaymentStatus,
    jobIntent: Option<IntentId>, depositIntent: Option<IntentId>)

  function NonNegative(n: Option<int>): nat {
    if n.Some? && n.value > 0 then n.value else 0
  }

  function Min(a: int, b: int): int {
    if a < b then a else b
  }

  function DepositPaidCents(a: Account): nat {
    if a.depositPaid then NonNegative(a.depositRequiredCents) else 0
  }

  function JobPaymentCents(a: Account): nat {
    if a.amountPaidCents.Some? then NonNegative(a.amountPaidCents)
    else if a.paymentStatus == PAID then
      NonNegative(Some(NonNegative(Some(a.quotedPriceCents)) - NonNegative(a.giftCardAppliedCents) - DepositPaidCents(a)))
    else 0
  }

  function PaidSoFarCents(a: Account): nat {
    DepositPaidCents(a) + JobPaymentCents(a)
  }

  function AmountDueCents(a: Account): nat {
    NonNegative(Some(NonNegative(Some(a.quotedPriceCents)) - NonNegative(a.giftCardAppliedCents) - PaidSoFarCents(a)))
  }

  /** Due, received and gift card make up the quote until the booking is overpaid; a PAID booking
      without a recorded amount counts as having paid whatever was due. */
  lemma DueCompletesTheQuote(a: Account)
    requires a.quotedPriceCents >= 0
    ensures var settled := PaidSoFarCents(a) + NonNegative(a.giftCardAppliedCents);
            AmountDueCents(a) == if settled < a.quotedPriceCents then a.quotedPriceCents - settled else 0
    ensures a.paymentStatus == PAID && a.amountPaidCents.None? ==> AmountDueCents(a) == 0
    ensures AmountDueCents(a) == 0 <==> PaidSoFarCents(a) + NonNegative(a.giftCardAppliedCents) >= a.quotedPriceCents
  {
  }

  /** What counts as received: a paid deposit, what was recorded for the job, and for a PAID booking
      without a record whatever deposit and gift card had left of the quote. */
  lemma PaidIsWhatWasRecorded(a: Account)
    ensures DepositPaidCents(a) > 0 ==> a.depositPaid && a.depositRequiredCents == Some(DepositPaidCents(a))
    ensures a.depositPaid && a.depositRequiredCents.Some? && a.depositRequiredCents.value >= 0 ==> DepositPaidCents(a) == a.depositRequiredCents.value
    ensures a.amountPaidCents.Some? && a.amountPaidCents.value >= 0 ==> PaidSoFarCents(a) == DepositPaidCents(a) + a.amountPaidCents.value
    ensures a.amountPaidCents.None? && a.paymentStatus != PAID ==> PaidSoFarCents(a) == DepositPaidCents(a)
    ensures a.amountPaidCents.None? && a.paymentStatus == PAID && a.quotedPriceCents >= NonNegative(a.giftCardAppliedCents) + DepositPaidCents(a) ==>
              PaidSoFarCents(a) + NonNegative(a.giftCardAppliedCents) == a.quotedPriceCents
    ensures a.amountPaidCents.None? && a.paymentStatus == PAID && 0 <= a.quotedPriceCents <= NonNegative(a.giftCardAppliedCents) + DepositPaidCents(a) ==>
              PaidSoFarCents(a) == DepositPaidCents(a)
  {
  }

  datatype RefundItem = RefundItem(intent: IntentId, amountCents: nat)

  function ItemsTotal(items: seq<RefundItem>): nat {
    if items == [] then 0 else items[0].amountCents + ItemsTotal(items[1..])
  }

  /** What can be refunded against an intent: the amount recorded for the payment it funded. */
  ghost predicate WithinRecorded(a: Account, i: RefundItem) {
    || (a.jobIntent == Some(i.intent) && i.amountCents <= JobPaymentCents(a))
    || (a.depositIntent == Some(i.intent) && i.amountCents <= DepositPaidCents(a))
  }

  /** Refundable by API at all. */
  function StripeCents(a: Account): nat {
    (if a.jobIntent.Some? then JobPaymentCents(a) else 0) + (if a.depositIntent.Some? then DepositPaidCents(a) else 0)
  }

  /** `buildRefundPlan`: job payment first, then deposit, the rest by hand. Nothing is left to
      hand that an intent could still have covered. */
  method BuildRefundPlan(a: Account, refundCents: nat) returns (items: seq<RefundItem>, manualCents: nat)
    ensures ItemsTotal(items) + manualCents == refundCents
    ensures |items| <= 2
    ensures forall i :: i in items ==> i.amountCents > 0 && WithinRecorded(a, i)
    ensures manualCents == if refundCents > StripeCents(a) then refundCents - StripeCents(a) else 0
    ensures |items| == 2 ==> a.jobIntent == Some(items[0].intent) && items[0].amountCents == JobPaymentCents(a)
    // what the job payment can cover comes from it; only the rest from the deposit
    ensures a.jobIntent.Some? && 0 < refundCents <= JobPaymentCents(a) ==> items == [RefundItem(a.jobIntent.value, refundCents)]
    ensures a.jobIntent.Some? && 0 < JobPaymentCents(a) < refundCents ==> |items| >= 1 && items[0] == RefundItem(a.jobIntent.value, JobPaymentCents(a))
    ensures (a.jobIntent.None? || JobPaymentCents(a) == 0) && refundCents > 0 && a.depositIntent.Some? && DepositPaidCents(a) > 0 ==>
              items == [RefundItem(a.depositIntent.value, if refundCents < DepositPaidCents(a) then refundCents else DepositPaidCents(a))]
    ensures refundCents == 0 ==> items == []
  {
    var remaining := refundCents;
    items := [];
    var stripeJob := if a.jobIntent.Some? then JobPaymentCents(a) else 0;
    var stripeDeposit := if a.depositIntent.Some? then DepositPaidCents(a) else 0;
    var fromJob := Min(remaining, stripeJob);
    if fromJob > 0 {
      items := items + [RefundItem(a.jobIntent.value, fromJob)];
      remaining := remaining - fromJob;
    }
    var fromDeposit := Min(remaining, stripeDeposit);
    if fromDeposit > 0 {
      TotalOfAppended(items, RefundItem(a.depositIntent.value, fromDeposit));
      items := items + [RefundItem(a.depositIntent.value, fromDeposit)];
      remaining := remaining - fromDeposit;
    }
    manualCents := remaining;
  }

  lemma {:induction false} TotalOfAppended(items: seq<RefundItem>, i: RefundItem)
    ensures ItemsTotal(items + [i]) == ItemsTotal(items) + i.amountCents
  {
    if items == [] {
      assert items + [i] == [i];
    } else {
      TotalOfAppended(items[1..], i);
      assert (items + [i])[1..] == items[1..] + [i];
    }
  }
}
