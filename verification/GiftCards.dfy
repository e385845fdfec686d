/** A gift card raced over by several bookings (src/modules/widget/widget.service.js
    `applyGiftCardToBooking`) and given back on cancellation (`cancelBooking`). The card is read,
    decremented by a guarded update, and only then recorded on the booking: three separate steps. */
module GiftCards {
  import PaymentMath
  import opened Sums

  type BookingId = nat

  /** The price of a booking, the amount of this card recorded on it (0 for none), and whether it was cancelled. */
  datatype Booking = Booking(quotedPriceCents: int, applied: nat, cancelled: bool)

  /** A redemption in flight: has read the card, or has taken the amount off it. */
  datatype Redemption = Read(amount: nat) | Taken(amount: nat)

  /** `lost` is history: what was recorded on bookings that were cancelled already. */
  datatype State = State(initial: nat, balance: int, bookings: map<BookingId, Booking>, flights: map<BookingId, Redemption>, lost: nat)

  datatype Step =
    | Book(b: BookingId, price: int)
    | ReadCard(b: BookingId)
    | Decrement(b: BookingId)
    | Record(b: BookingId)
    | Cancel(b: BookingId)

  ghost predicate Enabled(s: State, step: Step) {
    match step
    case Book(b, _) => b !in s.bookings
    // a booking redeems once, right after it was created
    case ReadCard(b) =>
      b in s.bookings && b !in s.flights && s.bookings[b].applied == 0 && s.balance > 0 && s.bookings[b].quotedPriceCents > 0
    case Decrement(b) => b in s.flights && s.flights[b].Read?
    case Record(b) => b in s.flights && s.flights[b].Taken? && b in s.bookings
    case Cancel(b) => b in s.bookings && !s.bookings[b].cancelled
  }

  /** `min(initialValue, balance + applied)`. */
  function Restored(s: State, applied: nat): int {
    PaymentMath.Min(s.initial, s.balance + applied)
  }

  ghost function Apply(s: State, step: Step): State {
    if !Enabled(s, step) then s else
    match step
    case Book(b, price) => s.(bookings := s.bookings[b := Booking(price, 0, false)])
    case ReadCard(b) => s.(flights := s.flights[b := Read(PaymentMath.Min(s.balance, s.bookings[b].quotedPriceCents))])
    case Decrement(b) =>
      var amount := s.flights[b].amount;
      if s.balance >= amount then s.(balance := s.balance - amount, flights := s.flights[b := Taken(amount)])
      else s.(flights := s.flights - {b}) // another redemption was faster
    case Record(b) =>
      s.(bookings := s.bookings[b := s.bookings[b].(applied := s.flights[b].amount)], flights := s.flights - {b},
         lost := s.lost + if s.bookings[b].cancelled then s.flights[b].amount else 0)
    case Cancel(b) =>
      var applied := s.bookings[b].applied;
      s.(bookings := s.bookings[b := s.bookings[b].(cancelled := true)], balance := if applied > 0 then Restored(s, applied) else s.balance)
  }

  ghost function Run(s: State, steps: seq<Step>): State
    decreases |steps|
  {
    if steps == [] then s else Run(Apply(s, steps[0]), steps[1..])
  }

  // ---- the steps -----------------------------------------------------------------------

  /** A redemption is for the whole price, or the whole balance when that is less, and only of something. */
  lemma ReadsTheLesser(s: State, b: BookingId)
    requires b in s.bookings && b !in s.flights && s.bookings[b].applied == 0
    ensures Enabled(s, ReadCard(b)) <==> s.balance > 0 && s.bookings[b].quotedPriceCents > 0
    ensures Enabled(s, ReadCard(b)) ==>
              var s' := Apply(s, ReadCard(b));
              && s' == s.(flights := s'.flights) && b in s'.flights && s'.flights[b].Read?
              && s'.flights[b].amount <= s.balance && s'.flights[b].amount <= s.bookings[b].quotedPriceCents
              && (s'.flights[b].amount == s.balance || s'.flights[b].amount == s.bookings[b].quotedPriceCents)
  {
  }

  /** The guarded decrement takes the whole amount exactly when the balance still covers it, and gives up otherwise. */
  lemma TakesAllOrNothing(s: State, b: BookingId)
    requires Enabled(s, Decrement(b))
    ensures var s', amount := Apply(s, Decrement(b)), s.flights[b].amount;
            && (amount <= s.balance ==> s'.balance == s.balance - amount && b in s'.flights && s'.flights[b] == Taken(amount))
            && (amount > s.balance ==> s'.balance == s.balance && b !in s'.flights)
            && s'.bookings == s.bookings
  {
  }

  /** Record puts the amount on its booking; a cancellation gives the recorded amount back, up to the
      card's value. Neither touches another booking. */
  lemma RecordsAndGivesBack(s: State, b: BookingId)
    ensures Enabled(s, Record(b)) ==>
              var s' := Apply(s, Record(b));
              && s'.balance == s.balance && b !in s'.flights && s'.bookings[b] == s.bookings[b].(applied := s.flights[b].amount)
              && forall o :: o in s.bookings && o != b ==> s'.bookings[o] == s.bookings[o]
    ensures Enabled(s, Cancel(b)) && 0 <= s.balance <= s.initial ==>
              var s', back := Apply(s, Cancel(b)), s.balance + s.bookings[b].applied;
              && s'.balance == (if back <= s.initial then back else s.initial) && s'.flights == s.flights
              && s'.bookings[b] == s.bookings[b].(cancelled := true)
              && forall o :: o in s.bookings && o != b ==> s'.bookings[o] == s.bookings[o]
  {
  }

  // ---- conservation ---------------------------------------------------------------------

  /** What each booking holds of the card: nothing once cancelled. */
  ghost function Held(bookings: map<BookingId, Booking>): map<BookingId, int> {
    map b | b in bookings :: if bookings[b].cancelled then 0 else bookings[b].applied
  }

  /** What is off the card but not yet on a booking. */
  ghost function InFlight(flights: map<BookingId, Redemption>): map<BookingId, int> {
    map b | b in flights :: if flights[b].Taken? then flights[b].amount else 0
  }

  ghost function Total(s: State): int {
    s.balance + Sum(Held(s.bookings)) + Sum(InFlight(s.flights))
  }

  ghost predicate Inv(s: State) {
    s.balance >= 0 && Total(s) + s.lost == s.initial && RowsFit(s)
  }

  ghost predicate RowsFit(s: State) {
    && (forall b :: b in s.flights ==> b in s.bookings && s.bookings[b].applied == 0)
    && (forall b :: b in s.flights ==> 0 < s.flights[b].amount <= s.bookings[b].quotedPriceCents)
    && (forall b :: b in s.bookings ==> s.bookings[b].applied == 0 || s.bookings[b].applied <= s.bookings[b].quotedPriceCents)
  }

  /** An amount taken off the card lands on a booking that has been cancelled. */
  predicate Spills(s: State, step: Step) {
    step.Record? && step.b in s.flights && s.flights[step.b].Taken? && step.b in s.bookings && s.bookings[step.b].cancelled
  }

  ghost predicate NothingSpilled(s: State, steps: seq<Step>)
    decreases |steps|
  {
    steps == [] || (!Spills(s, steps[0]) && NothingSpilled(Apply(s, steps[0]), steps[1..]))
  }

  lemma HeldAfter(bookings: map<BookingId, Booking>, b: BookingId, v: Booking)
    ensures Sum(Held(bookings[b := v])) ==
            Sum(Held(bookings)) + (if v.cancelled then 0 else v.applied) - (if b in bookings then Held(bookings)[b] else 0)
  {
    assert Held(bookings[b := v]) == Held(bookings)[b := if v.cancelled then 0 else v.applied];
    Put(Held(bookings), b, if v.cancelled then 0 else v.applied);
  }

  lemma InFlightAfter(flights: map<BookingId, Redemption>, b: BookingId, v: Redemption)
    ensures Sum(InFlight(flights[b := v])) ==
            Sum(InFlight(flights)) + (if v.Taken? then v.amount else 0) - (if b in flights then InFlight(flights)[b] else 0)
  {
    assert InFlight(flights[b := v]) == InFlight(flights)[b := if v.Taken? then v.amount else 0];
    Put(InFlight(flights), b, if v.Taken? then v.amount else 0);
  }

  lemma InFlightWithout(flights: map<BookingId, Redemption>, b: BookingId)
    requires b in flights
    ensures Sum(InFlight(flights - {b})) == Sum(InFlight(flights)) - InFlight(flights)[b]
  {
    assert InFlight(flights - {b}) == InFlight(flights) - {b};
    TakeOut(InFlight(flights), b);
  }

  /** The clamp on giving back is never felt: balance and applied amount fit under the initial value. */
  lemma ClampDiscardsNothing(s: State, b: BookingId)
    requires Inv(s) && b in s.bookings && !s.bookings[b].cancelled
    ensures Restored(s, s.bookings[b].applied) == s.balance + s.bookings[b].applied
  {
    TermAtMostSum(Held(s.bookings), b);
    NonNegative(InFlight(s.flights));
  }

  lemma StepKeepsRows(s: State, step: Step)
    requires RowsFit(s)
    ensures RowsFit(Apply(s, step))
  {
  }

  lemma StepKeeps(s: State, step: Step)
    requires Inv(s)
    ensures Inv(Apply(s, step)) && Apply(s, step).initial == s.initial
  {
    StepKeepsRows(s, step);
    if Enabled(s, step) {
      match step
      case Book(b, price) => HeldAfter(s.bookings, b, Booking(price, 0, false));
      case ReadCard(b) => InFlightAfter(s.flights, b, Read(PaymentMath.Min(s.balance, s.bookings[b].quotedPriceCents)));
      case Decrement(b) =>
        InFlightAfter(s.flights, b, Taken(s.flights[b].amount));
        InFlightWithout(s.flights, b);
      case Record(b) =>
        HeldAfter(s.bookings, b, s.bookings[b].(applied := s.flights[b].amount));
        InFlightWithout(s.flights, b);
      case Cancel(b) =>
        HeldAfter(s.bookings, b, s.bookings[b].(cancelled := true));
        ClampDiscardsNothing(s, b);
    }
  }

  /** One step loses value exactly when it spills, and then exactly the amount in flight. */
  lemma StepLosesIffItSpills(s: State, step: Step)
    requires Inv(s)
    ensures Total(Apply(s, step)) == Total(s) - if Spills(s, step) then s.flights[step.b].amount else 0
    ensures Total(Apply(s, step)) != Total(s) <==> Spills(s, step)
  {
    StepKeeps(s, step);
  }

  lemma {:induction false} RunKeeps(s: State, steps: seq<Step>)
    requires Inv(s)
    ensures Inv(Run(s, steps)) && Run(s, steps).initial == s.initial && Run(s, steps).lost >= s.lost
    ensures Run(s, steps).lost == s.lost <==> NothingSpilled(s, steps)
    decreases |steps|
  {
    if steps != [] {
      StepKeeps(s, steps[0]);
      RunKeeps(Apply(s, steps[0]), steps[1..]);
    }
  }

  /** A new card. */
  function Issued(initial: nat): State {
    State(initial, initial, map[], map[], 0)
  }

  lemma IssuedFits(initial: nat)
    ensures Inv(Issued(initial))
  {
    assert Held(Issued(initial).bookings) == map[] && InFlight(Issued(initial).flights) == map[];
  }

  /** From a new card on, however redemptions and cancellations race: the balance is never negative,
      no booking takes more than its price, and balance, amounts in flight, amounts on live bookings
      and what was lost add up to the card's value. */
  lemma CardIsAccountedFor(initial: nat, steps: seq<Step>)
    ensures var s := Run(Issued(initial), steps);
            && s.balance >= 0 && s.balance + Sum(Held(s.bookings)) + Sum(InFlight(s.flights)) + s.lost == initial
            && forall b :: b in s.bookings ==> s.bookings[b].applied == 0 || s.bookings[b].applied <= s.bookings[b].quotedPriceCents
  {
    IssuedFits(initial);
    RunKeeps(Issued(initial), steps);
  }

  /** Conservation, exactly: the card's value is conserved over a run if and only if no amount was
      recorded on a booking that was cancelled already. */
  lemma CardIsConservedIff(initial: nat, steps: seq<Step>)
    ensures var s := Run(Issued(initial), steps);
            s.balance + Sum(Held(s.bookings)) + Sum(InFlight(s.flights)) == initial <==> NothingSpilled(Issued(initial), steps)
  {
    IssuedFits(initial);
    RunKeeps(Issued(initial), steps);
  }

  /** What it takes: a card of 50, a booking of 30; read, taken, cancelled, recorded. */
  lemma CancelInFlightLosesTheAmount()
    ensures var steps := [Book(0, 30), ReadCard(0), Decrement(0), Cancel(0), Record(0)];
            var s := Run(Issued(50), steps);
            s == State(50, 20, map[0 := Booking(30, 30, true)], map[], 30) && !NothingSpilled(Issued(50), steps)
  {
    var steps := [Book(0, 30), ReadCard(0), Decrement(0), Cancel(0), Record(0)];
    var s2 := Apply(Apply(Issued(50), steps[0]), steps[1]);
    assert s2 == State(50, 50, map[0 := Booking(30, 0, false)], map[0 := Read(30)], 0);
    var s4 := Apply(Apply(s2, steps[2]), steps[3]);
    assert s4 == State(50, 20, map[0 := Booking(30, 0, true)], map[0 := Taken(30)], 0);
    var s5 := Apply(s4, steps[4]);
    assert s5 == State(50, 20, map[0 := Booking(30, 30, true)], map[], 30);
    RunOfFive(Issued(50), steps);
    IssuedFits(50);
    RunKeeps(Issued(50), steps);
  }

  lemma RunOfFive(s: State, steps: seq<Step>)
    requires |steps| == 5
    ensures Run(s, steps) == Apply(Apply(Apply(Apply(Apply(s, steps[0]), steps[1]), steps[2]), steps[3]), steps[4])
  {
    assert steps[1..][1..] == steps[2..] && steps[2..][1..] == steps[3..] && steps[3..][1..] == steps[4..] && steps[4..][1..] == [];
    var s2 := Apply(Apply(s, steps[0]), steps[1]);
    assert Run(s, steps) == Run(s2, steps[2..]);
    var s4 := Apply(Apply(s2, steps[2]), steps[3]);
    assert Run(s2, steps[2..]) == Run(s4, steps[4..]);
    assert Run(s4, steps[4..]) == Run(Apply(s4, steps[4]), []);
  }
}
