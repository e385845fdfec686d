/** Numbering the invoices of one business (src/modules/invoices/invoices.service.js
    `issueForBooking`): any number of issuers interleave, crash and roll back. The counter row is
    locked by its first writer until that transaction ends, as the database does. */
module Invoices {
  import opened Options

  type BookingId = nat
  type IssuerId = nat

  /** Where an issuer is; `sequence` is the counter value its transaction has read back. */
  datatype Phase =
    | Looking
    | Ready
    | Counted(sequence: nat)
    | Inserted(sequence: nat)
    | Lost
    | Returned(sequence: nat)
    | Failed

  datatype Issuer = Issuer(booking: BookingId, phase: Phase)

  /** The committed tables (booking -> sequence number, and the counter), the lock and the issuers. */
  datatype State = State(invoices: map<BookingId, nat>, lastSequence: nat, lock: Option<IssuerId>, issuers: map<IssuerId, Issuer>)

  datatype Step =
    | Start(i: IssuerId, booking: BookingId)
    | Look(i: IssuerId, billable: bool)
    | Count(i: IssuerId)
    | Insert(i: IssuerId)
    | Commit(i: IssuerId)
    | Crash(i: IssuerId)
    | FindWinner(i: IssuerId)

  predicate At(s: State, i: IssuerId, p: Phase) {
    i in s.issuers && s.issuers[i].phase == p
  }

  predicate InTransaction(s: State, i: IssuerId) {
    i in s.issuers && (s.issuers[i].phase.Counted? || s.issuers[i].phase.Inserted?)
  }

  predicate Enabled(s: State, step: Step) {
    match step
    case Start(i, _) => i !in s.issuers
    case Look(i, _) => At(s, i, Looking)
    case Count(i) => At(s, i, Ready) && s.lock == None
    case Insert(i) => i in s.issuers && s.issuers[i].phase.Counted?
    case Commit(i) => i in s.issuers && s.issuers[i].phase.Inserted?
    case Crash(i) => i in s.issuers && !s.issuers[i].phase.Returned? && !s.issuers[i].phase.Failed?
    case FindWinner(i) => At(s, i, Lost)
  }

  function Moved(s: State, i: IssuerId, p: Phase): State
    requires i in s.issuers
  {
    s.(issuers := s.issuers[i := s.issuers[i].(phase := p)])
  }

  /** The invoice of the issuer's booking, if there is one, else `p`. */
  function FoundOr(s: State, i: IssuerId, p: Phase): Phase
    requires i in s.issuers
  {
    if s.issuers[i].booking in s.invoices then Returned(s.invoices[s.issuers[i].booking]) else p
  }

  function Apply(s: State, step: Step): State {
    if !Enabled(s, step) then s else
    match step
    case Start(i, booking) => s.(issuers := s.issuers[i := Issuer(booking, Looking)])
    case Look(i, billable) => Moved(s, i, FoundOr(s, i, if billable then Ready else Failed))
    case Count(i) => Moved(s, i, Counted(s.lastSequence + 1)).(lock := Some(i))
    case Insert(i) =>
      // a second invoice for the booking violates the unique key and rolls the counter back
      if s.issuers[i].booking in s.invoices then Moved(s, i, Lost).(lock := None)
      else Moved(s, i, Inserted(s.issuers[i].phase.sequence))
    case Commit(i) =>
      var n := s.issuers[i].phase.sequence;
      Moved(s, i, Returned(n)).(lock := None, lastSequence := n, invoices := s.invoices[s.issuers[i].booking := n])
    case Crash(i) => Moved(s, i, Failed).(lock := if s.lock == Some(i) then None else s.lock)
    case FindWinner(i) => Moved(s, i, FoundOr(s, i, Failed))
  }

  function Run(s: State, steps: seq<Step>): State
    decreases |steps|
  {
    if steps == [] then s else Run(Apply(s, steps[0]), steps[1..])
  }

  // ---- what holds of the tables ------------------------------------------------------------

  predicate Numbered(invoices: map<BookingId, nat>, last: nat) {
    forall b :: b in invoices ==> 1 <= invoices[b] <= last
  }

  predicate NumbersDiffer(invoices: map<BookingId, nat>) {
    forall a, b :: a in invoices && b in invoices && a != b ==> invoices[a] != invoices[b]
  }

  ghost predicate Used(invoices: map<BookingId, nat>, n: nat) {
    exists b :: b in invoices && invoices[b] == n
  }

  /** The numbers in use are exactly 1..last, each by one booking. */
  ghost predicate Gapless(invoices: map<BookingId, nat>, last: nat) {
    && Numbered(invoices, last) && NumbersDiffer(invoices)
    && forall n :: 1 <= n <= last ==> Used(invoices, n)
  }

  ghost predicate IssuerFits(s: State, i: IssuerId)
    requires i in s.issuers
  {
    var me := s.issuers[i];
    match me.phase
    case Counted(n) => s.lock == Some(i) && n == s.lastSequence + 1
    case Inserted(n) => s.lock == Some(i) && n == s.lastSequence + 1 && me.booking !in s.invoices
    case Lost => me.booking in s.invoices
    case Returned(n) => me.booking in s.invoices && s.invoices[me.booking] == n
    case _ => true
  }

  ghost predicate IssuersFit(s: State) {
    forall i :: i in s.issuers ==> IssuerFits(s, i)
  }

  ghost predicate Inv(s: State) {
    && Gapless(s.invoices, s.lastSequence) && IssuersFit(s)
    && (s.lock.Some? ==> InTransaction(s, s.lock.value))
  }

  /** One more invoice, with the next number, leaves no gap. */
  lemma NextNumberLeavesNoGap(invoices: map<BookingId, nat>, last: nat, b: BookingId)
    requires Gapless(invoices, last) && b !in invoices
    ensures Gapless(invoices[b := last + 1], last + 1)
  {
    var next := invoices[b := last + 1];
    forall n | 1 <= n <= last + 1 ensures Used(next, n) {
      if n <= last {
        assert Used(invoices, n);
        var a :| a in invoices && invoices[a] == n;
        assert a in next && next[a] == n;
      } else {
        assert b in next && next[b] == n;
      }
    }
  }

  lemma StepKeepsIssuers(s: State, step: Step)
    requires Inv(s)
    ensures IssuersFit(Apply(s, step))
  {
    if Enabled(s, step) {
      var s' := Apply(s, step);
      assert step.i in s.issuers ==> IssuerFits(s, step.i);
      forall i | i in s'.issuers ensures IssuerFits(s', i) {
        if i != step.i {
          assert IssuerFits(s, i);
        }
      }
    }
  }

  lemma StepKeeps(s: State, step: Step)
    requires Inv(s)
    ensures Inv(Apply(s, step))
  {
    StepKeepsIssuers(s, step);
    if Enabled(s, step) && step.Commit? {
      assert IssuerFits(s, step.i);
      NextNumberLeavesNoGap(s.invoices, s.lastSequence, s.issuers[step.i].booking);
    }
  }

  lemma {:induction false} RunKeeps(s: State, steps: seq<Step>)
    requires Inv(s)
    ensures Inv(Run(s, steps))
    decreases |steps|
  {
    if steps != [] {
      StepKeeps(s, steps[0]);
      RunKeeps(Apply(s, steps[0]), steps[1..]);
    }
  }

  // ---- main results --------------------------------------------------------------------------

  /** The first writer of a business creates its counter; nothing is issued yet. */
  function Fresh(): State {
    State(map[], 0, None, map[])
  }

  /** In every interleaving the committed numbers are exactly 1..lastSequence, one invoice each,
      and whoever gets an answer gets the committed invoice of its booking. */
  lemma NumbersAreGapless(steps: seq<Step>)
    ensures var s := Run(Fresh(), steps);
            && (forall n: nat :: 1 <= n <= s.lastSequence <==> n in s.invoices.Values)
            && NumbersDiffer(s.invoices) && |s.invoices| == s.lastSequence
            && forall i :: i in s.issuers && s.issuers[i].phase.Returned? ==>
                 s.issuers[i].booking in s.invoices && s.invoices[s.issuers[i].booking] == s.issuers[i].phase.sequence
  {
    RunKeeps(Fresh(), steps);
    var s := Run(Fresh(), steps);
    forall n | 1 <= n <= s.lastSequence ensures n in s.invoices.Values {
      assert Used(s.invoices, n);
    }
    forall n: nat | n in s.invoices.Values ensures 1 <= n <= s.lastSequence {
      var b :| b in s.invoices && s.invoices[b] == n;
    }
    CountOfNumbers(s.invoices, s.lastSequence);
    forall i | i in s.issuers && s.issuers[i].phase.Returned?
      ensures s.issuers[i].booking in s.invoices && s.invoices[s.issuers[i].booking] == s.issuers[i].phase.sequence
    {
      assert IssuerFits(s, i);
    }
  }

  lemma {:induction false} CountOfNumbers(invoices: map<BookingId, nat>, last: nat)
    requires Gapless(invoices, last)
    ensures |invoices| == last
    decreases last
  {
    if last == 0 {
      assert invoices == map[];
    } else {
      assert Used(invoices, last);
      var b :| b in invoices && invoices[b] == last;
      var rest := invoices - {b};
      forall n | 1 <= n <= last - 1 ensures Used(rest, n) {
        assert Used(invoices, n);
        var a :| a in invoices && invoices[a] == n;
        assert a in rest && rest[a] == n;
      }
      CountOfNumbers(rest, last - 1);
    }
  }

  /** A loser always finds the winner's invoice; its own number was never committed. */
  lemma LoserReturnsTheWinnersInvoice(steps: seq<Step>, i: IssuerId)
    requires At(Run(Fresh(), steps), i, Lost)
    ensures var s := Run(Fresh(), steps);
            && s.issuers[i].booking in s.invoices
            && Apply(s, FindWinner(i)) == Moved(s, i, Returned(s.invoices[s.issuers[i].booking]))
  {
    RunKeeps(Fresh(), steps);
    assert IssuerFits(Run(Fresh(), steps), i);
  }

  /** Issued invoices are for good: no step changes, renumbers or removes one. */
  lemma {:induction false} IssuedForGood(s: State, steps: seq<Step>, b: BookingId)
    requires Inv(s) && b in s.invoices
    ensures b in Run(s, steps).invoices && Run(s, steps).invoices[b] == s.invoices[b]
    decreases |steps|
  {
    if steps != [] {
      StepKeeps(s, steps[0]);
      if steps[0].Commit? && steps[0].i in s.issuers {
        assert IssuerFits(s, steps[0].i);
      }
      IssuedForGood(Apply(s, steps[0]), steps[1..], b);
    }
  }

  /** Two issuers of one booking that both get an answer, at whatever times, get the same number. */
  lemma {:induction false} SameBookingSameInvoice(before: seq<Step>, after: seq<Step>, i: IssuerId, j: IssuerId)
    requires var s := Run(Fresh(), before); i in s.issuers && s.issuers[i].phase.Returned?
    requires var t := Run(Run(Fresh(), before), after); j in t.issuers && t.issuers[j].phase.Returned?
    requires Run(Run(Fresh(), before), after).issuers[j].booking == Run(Fresh(), before).issuers[i].booking
    ensures Run(Run(Fresh(), before), after).issuers[j].phase == Run(Fresh(), before).issuers[i].phase
  {
    RunKeeps(Fresh(), before);
    var s := Run(Fresh(), before);
    RunKeeps(s, after);
    assert IssuerFits(s, i) && IssuerFits(Run(s, after), j);
    IssuedForGood(s, after, s.issuers[i].booking);
  }

  // ---- the call, when nobody interferes -------------------------------------------------------

  /** The call as a whole, as `Register.IssueForBooking` states it, is what the issuer's own steps
      come to when nobody holds the lock. */
  lemma UndisturbedIssue(s: State, i: IssuerId, booking: BookingId)
    requires s.lock == None && i !in s.issuers && booking !in s.invoices
    ensures var s' := Apply(Apply(Apply(Apply(Apply(s, Start(i, booking)), Look(i, true)), Count(i)), Insert(i)), Commit(i));
            && s'.invoices == s.invoices[booking := s.lastSequence + 1] && s'.lastSequence == s.lastSequence + 1
            && s'.lock == None && At(s', i, Returned(s.lastSequence + 1))
  {
    var s2 := Apply(Apply(s, Start(i, booking)), Look(i, true));
    assert At(s2, i, Ready);
    var s3 := Apply(s2, Count(i));
    assert At(s3, i, Counted(s.lastSequence + 1));
  }

  /** A booking that cannot be billed gets no invoice, and one that has one gets no other, whether it
      can be billed or not. */
  lemma WhoGetsNone(s: State, i: IssuerId, booking: BookingId, billable: bool)
    requires i !in s.issuers
    ensures var s' := Apply(Apply(s, Start(i, booking)), Look(i, billable));
            && s'.invoices == s.invoices && s'.lastSequence == s.lastSequence && s'.lock == s.lock
            && (booking in s.invoices ==> At(s', i, Returned(s.invoices[booking])))
            && (booking !in s.invoices ==> (At(s', i, Failed) <==> !billable))
  {
    assert At(Apply(s, Start(i, booking)), i, Looking);
  }

  class Register {
    var invoices: map<BookingId, nat>
    var lastSequence: nat

    ghost predicate Valid()
      reads this
    {
      Gapless(invoices, lastSequence)
    }

    constructor ()
      ensures Valid() && invoices == map[] && lastSequence == 0
    {
      invoices, lastSequence := map[], 0;
    }

    /** None when the booking cannot be billed. Nothing changes unless a new invoice is made. */
    method IssueForBooking(booking: BookingId, billable: bool) returns (sequence: Option<nat>)
      requires Valid()
      modifies this
      ensures Valid()
      ensures booking in old(invoices) ==> invoices == old(invoices) && sequence == Some(old(invoices)[booking])
      ensures booking !in old(invoices) && billable ==>
                invoices == old(invoices)[booking := old(lastSequence) + 1] && sequence == Some(old(lastSequence) + 1)
      ensures booking !in old(invoices) && !billable ==> invoices == old(invoices) && sequence == None
      ensures lastSequence == |invoices|
    {
      CountOfNumbers(invoices, lastSequence);
      if booking in invoices { return Some(invoices[booking]); }
      if !billable { return None; }
      NextNumberLeavesNoGap(invoices, lastSequence, booking);
      lastSequence := lastSequence + 1;
      invoices := invoices[booking := lastSequence];
      return Some(lastSequence);
    }
  }
}
