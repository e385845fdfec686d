/** What a cancellation keeps, returns, fails to return and leaves to be settled by hand
    (src/lib/cancellationPolicy.js and `cancelBooking` in src/modules/bookings/bookings.service.js). */
module Cancellation {
  import opened Options
  import opened PaymentMath

  datatype FeeType = PERCENT | AMOUNT | NO_FEE

  /** A business's cancellation policy; no window means cancelling is always free. */
  datatype Policy = Policy(windowHours: Option<nat>, feeType: FeeType, feeValue: nat)

  /** `Math.round(quote * value / 100)`. */
  function PercentOf(quote: int, value: nat): int {
    (2 * quote * value + 100) / 200
  }

  /** Inside the free window? Times in milliseconds; `hoursUntilStart >= windowHours`. */
  predicate Free(p: Policy, start: int, now: int, waiveFee: bool) {
    waiveFee || p.windowHours.None? || start - now >= 3_600_000 * p.windowHours.value
  }

  function FeeCents(a: Account, p: Policy, free: bool): int {
    if free then 0 else
    var raw := match p.feeType
               case PERCENT => PercentOf(a.quotedPriceCents, p.feeValue)
               case AMOUNT => p.feeValue
               case NO_FEE => 0;
    Min(Min(raw, PaidSoFarCents(a)), if a.quotedPriceCents != 0 then a.quotedPriceCents else raw)
  }

  /** The fee is never negative and never more than was collected; and it exceeds
      the quote exactly when a flat fee is due on a booking that has no price but was paid for. */
  lemma FeeIsBounded(a: Account, p: Policy, free: bool)
    requires a.quotedPriceCents >= 0
    ensures 0 <= FeeCents(a, p, free) <= PaidSoFarCents(a)
    ensures FeeCents(a, p, free) <= a.quotedPriceCents <==>
            a.quotedPriceCents > 0 || free || !p.feeType.AMOUNT? || p.feeValue == 0 || PaidSoFarCents(a) == 0
  {
    PercentIsNatural(a.quotedPriceCents, p.feeValue);
  }

  lemma PercentIsNatural(quote: nat, value: nat)
    ensures PercentOf(quote, value) >= 0
  {
    assert quote * value >= 0;
  }

  /** Cancelling later never costs less. */
  lemma LaterNeverCostsLess(a: Account, p: Policy, start: int, now: int, later: int, waiveFee: bool)
    requires a.quotedPriceCents >= 0 && now <= later
    ensures FeeCents(a, p, Free(p, start, now, waiveFee)) <= FeeCents(a, p, Free(p, start, later, waiveFee))
  {
    FeeIsBounded(a, p, false);
  }

  /** Is the cancellation late: not waived, under a policy with a window, and inside it? */
  predicate Late(p: Policy, start: int, now: int, waiveFee: bool) {
    !waiveFee && p.windowHours.Some? && start - now < p.windowHours.value * 60 * 60 * 1_000
  }

  /** The fee `f` is the percentage to the nearest cent, unless what was paid or a quote is less. */
  predicate PercentageFee(a: Account, value: nat, f: int) {
    && 200 * f <= 2 * a.quotedPriceCents * value + 100
    && (f == PaidSoFarCents(a) || (a.quotedPriceCents != 0 && f == a.quotedPriceCents) || 200 * f > 2 * a.quotedPriceCents * value - 100)
  }

  /** The fee `f` is the least of the flat amount, what was paid and a quote. */
  predicate FlatFee(a: Account, value: nat, f: int) {
    && f <= value && f <= PaidSoFarCents(a) && (a.quotedPriceCents != 0 ==> f <= a.quotedPriceCents)
    && (f == value || f == PaidSoFarCents(a) || (a.quotedPriceCents != 0 && f == a.quotedPriceCents))
  }

  lemma WhichFeeIsDue(a: Account, p: Policy, start: int, now: int, waiveFee: bool)
    requires a.quotedPriceCents >= 0
    ensures var f := FeeCents(a, p, Free(p, start, now, waiveFee));
            && (!Late(p, start, now, waiveFee) ==> f == 0)
            && (Late(p, start, now, waiveFee) && p.feeType == NO_FEE ==> f == 0)
            && (Late(p, start, now, waiveFee) && p.feeType == PERCENT ==> PercentageFee(a, p.feeValue, f))
            && (Late(p, start, now, waiveFee) && p.feeType == AMOUNT ==> FlatFee(a, p.feeValue, f))
  {
    PercentIsNearest(a.quotedPriceCents, p.feeValue);
    FeeIsBounded(a, p, Free(p, start, now, waiveFee));
  }

  lemma PercentIsNearest(quote: int, value: nat)
    ensures 2 * quote * value - 100 < 200 * PercentOf(quote, value) <= 2 * quote * value + 100
  {
  }

  /** With no quote left a flat fee keeps money that was never quoted. */
  lemma FeeWithoutQuote()
    ensures var a := Account(0, None, None, false, Some(500), PARTIAL, None, None);
            FeeCents(a, Policy(Some(24), AMOUNT, 300), false) == 300 > a.quotedPriceCents
  {
  }

  /** What `cancelBooking` records. `refundedStatus` is the payment status it writes, if any. */
  datatype Settlement = Settlement(feeCents: int, refundedCents: nat, failedCents: nat, manualCents: nat, newStatus: Option<PaymentStatus>)

  /** Evaluates the policy and issues each refund; `succeeds` says which Stripe calls go through. */
  method SettleCancellation(a: Account, p: Policy, start: int, now: int, waiveFee: bool, succeeds: RefundItem -> bool)
    returns (s: Settlement, plan: seq<RefundItem>)
    requires a.quotedPriceCents >= 0
    ensures s.feeCents == FeeCents(a, p, Free(p, start, now, waiveFee))
    ensures !Late(p, start, now, waiveFee) ==> s.feeCents == 0
    ensures Late(p, start, now, waiveFee) ==>
              match p.feeType
              case PERCENT => PercentageFee(a, p.feeValue, s.feeCents)
              case AMOUNT => FlatFee(a, p.feeValue, s.feeCents)
              case NO_FEE => s.feeCents == 0
    // every cent received is kept, returned, owed after a failure, or owed by hand
    ensures s.feeCents + s.refundedCents + s.failedCents + s.manualCents == PaidSoFarCents(a)
    ensures 0 <= s.feeCents <= PaidSoFarCents(a)
    ensures forall i :: i in plan ==> WithinRecorded(a, i)
    ensures s.refundedCents == ItemsTotal(Kept(plan, succeeds))
    ensures s.manualCents <= PaidSoFarCents(a) - StripeCents(a)
    // REFUNDED exactly when money came back and none was kept, failed or is owed by hand
    ensures s.newStatus == Some(REFUNDED) <==> s.refundedCents > 0 && s.refundedCents == PaidSoFarCents(a)
    ensures s.newStatus == Some(PARTIAL) <==> 0 < s.refundedCents < PaidSoFarCents(a)
    ensures s.newStatus.None? <==> s.refundedCents == 0
  {
    FeeIsBounded(a, p, Free(p, start, now, waiveFee));
    WhichFeeIsDue(a, p, start, now, waiveFee);
    var fee := FeeCents(a, p, Free(p, start, now, waiveFee));
    var alreadyPaid := PaidSoFarCents(a);
    var refund := alreadyPaid - fee;
    var manual;
    plan, manual := BuildRefundPlan(a, refund);
    var refunded, failed, succeeded := IssueRefunds(plan, succeeds);
    var refundedAll := failed == 0 && manual == 0 && refund >= alreadyPaid;
    s := Settlement(fee, refunded, failed, manual, if succeeded > 0 then Some(if refundedAll then REFUNDED else PARTIAL) else None);
  }

  /** The refund loop goes through the whole plan, whichever calls fail. */
  method IssueRefunds(plan: seq<RefundItem>, succeeds: RefundItem -> bool) returns (refunded: nat, failed: nat, succeeded: nat)
    requires forall i :: i in plan ==> i.amountCents > 0
    ensures refunded == ItemsTotal(Kept(plan, succeeds))
    ensures refunded + failed == ItemsTotal(plan)
    ensures succeeded > 0 <==> refunded > 0
  {
    refunded, failed, succeeded := 0, 0, 0;
    for n := 0 to |plan|
      invariant refunded == ItemsTotal(Kept(plan[..n], succeeds))
      invariant refunded + failed == ItemsTotal(plan[..n])
      invariant succeeded > 0 <==> refunded > 0
    {
      var item := plan[n];
      assert plan[..n + 1] == plan[..n] + [item];
      TotalOfAppended(plan[..n], item);
      KeptOfAppended(plan[..n], item, succeeds);
      if succeeds(item) {
        TotalOfAppended(Kept(plan[..n], succeeds), item);
        succeeded := succeeded + 1;
        refunded := refunded + item.amountCents;
      } else {
        assert Kept(plan[..n], succeeds) + [] == Kept(plan[..n], succeeds);
        failed := failed + item.amountCents;
      }
    }
    assert plan[..|plan|] == plan;
  }

  /** The items whose refund went through. */
  function Kept(plan: seq<RefundItem>, succeeds: RefundItem -> bool): seq<RefundItem> {
    if plan == [] then [] else (if succeeds(plan[0]) then [plan[0]] else []) + Kept(plan[1..], succeeds)
  }

  lemma {:induction false} KeptOfAppended(plan: seq<RefundItem>, i: RefundItem, succeeds: RefundItem -> bool)
    ensures Kept(plan + [i], succeeds) == Kept(plan, succeeds) + (if succeeds(i) then [i] else [])
  {
    if plan == [] {
      assert plan + [i] == [i];
    } else {
      KeptOfAppended(plan[1..], i, succeeds);
      assert (plan + [i])[1..] == plan[1..] + [i];
    }
  }
}
