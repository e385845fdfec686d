/** How the cleaners on one booking share what it earns (src/modules/payroll/payroll.service.js
    `resolveEarningsShares`, `computeEarningsForBooking`). Shares are real numbers here. */
module Shares {
  import opened Options
  import opened Sums

  type AssignmentId = nat
  type CleanerId = nat

  /** An assignment row; `clockedMs` is check-out minus check-in, when both are known. */
  datatype Assignment = Assignment(id: AssignmentId, cleaner: CleanerId, split: Option<int>, clockedMs: Option<int>)

  datatype Compensation = Percent(rate: int) | FlatPerJob(cents: int) | Hourly(centsPerHour: int)

  /** Row ids are a primary key. */
  ghost predicate DistinctIds(team: seq<Assignment>) {
    forall i, j :: 0 <= i < j < |team| ==> team[i].id != team[j].id
  }

  // ---- shares -----------------------------------------------------------------------------

  function ExplicitTotal(team: seq<Assignment>): int {
    if team == [] then 0
    else ExplicitTotal(team[..|team| - 1]) + var a := team[|team| - 1]; if a.split.Some? then a.split.value else 0
  }

  function WithoutSplit(team: seq<Assignment>): nat {
    if team == [] then 0 else WithoutSplit(team[..|team| - 1]) + if team[|team| - 1].split.None? then 1 else 0
  }

  function Remaining(team: seq<Assignment>): nat {
    if ExplicitTotal(team) < 100 then 100 - ExplicitTotal(team) else 0
  }

  function EvenShare(team: seq<Assignment>): real {
    if WithoutSplit(team) > 0 then Remaining(team) as real / WithoutSplit(team) as real else 0.0
  }

  /** What `a` gets in a team: all of a solo job, its own split, or an even part of the rest. */
  function ShareOf(team: seq<Assignment>, a: Assignment): real {
    if |team| == 1 then 1.0
    else if a.split.Some? then a.split.value as real / 100.0
    else EvenShare(team) / 100.0
  }

  /** What the first `n` rows of a team get together. */
  function FirstShares(team: seq<Assignment>, n: nat): real
    requires n <= |team|
  {
    if n == 0 then 0.0 else FirstShares(team, n - 1) + ShareOf(team, team[n - 1])
  }

  ghost function Ids(team: seq<Assignment>): set<AssignmentId> {
    set i | 0 <= i < |team| :: team[i].id
  }

  ghost predicate Given(team: seq<Assignment>, shares: map<AssignmentId, real>, a: Assignment) {
    a.id in shares && shares[a.id] == ShareOf(team, a)
  }

  method ResolveEarningsShares(team: seq<Assignment>) returns (shares: map<AssignmentId, real>)
    requires DistinctIds(team)
    ensures shares.Keys <= Ids(team)
    ensures forall i :: 0 <= i < |team| ==> Given(team, shares, team[i])
  {
    shares := map[];
    if |team| <= 1 {
      if |team| == 1 { shares := shares[team[0].id := 1.0]; }
      return;
    }
    var evenShare := EvenShare(team);
    for i := 0 to |team|
      invariant shares.Keys <= Ids(team)
      invariant forall k :: 0 <= k < i && team[k].split.Some? ==> Given(team, shares, team[k])
    {
      if team[i].split.Some? { shares := shares[team[i].id := team[i].split.value as real / 100.0]; }
    }
    for i := 0 to |team|
      invariant shares.Keys <= Ids(team)
      invariant forall k :: 0 <= k < |team| && (team[k].split.Some? || k < i) ==> Given(team, shares, team[k])
    {
      if team[i].split.None? { shares := shares[team[i].id := evenShare / 100.0]; }
    }
  }

  function InShares(percent: int, evenParts: real): real {
    (percent as real + evenParts) / 100.0
  }

  /** `w` even parts together. */
  function EvenParts(w: nat, even: real): real {
    if w == 0 then 0.0 else EvenParts(w - 1, even) + even
  }

  lemma HundredthsAdd(x: real, y: real)
    ensures (x + y) / 100.0 == x / 100.0 + y / 100.0
  {
  }

  lemma ShareOfRow(team: seq<Assignment>, a: Assignment, percent: int, evenParts: real)
    requires |team| != 1
    ensures a.split.Some? ==> InShares(percent, evenParts) + ShareOf(team, a) == InShares(percent + a.split.value, evenParts)
    ensures a.split.None? ==> InShares(percent, evenParts) + ShareOf(team, a) == InShares(percent, evenParts + EvenShare(team))
  {
    if a.split.Some? {
      HundredthsAdd(percent as real + evenParts, a.split.value as real);
      assert (percent + a.split.value) as real == percent as real + a.split.value as real;
    } else {
      HundredthsAdd(percent as real + evenParts, EvenShare(team));
    }
  }

  lemma {:induction false} FirstSharesInPercent(team: seq<Assignment>, n: nat)
    requires |team| != 1 && n <= |team|
    ensures FirstShares(team, n) == InShares(ExplicitTotal(team[..n]), EvenParts(WithoutSplit(team[..n]), EvenShare(team)))
  {
    if n > 0 {
      FirstSharesInPercent(team, n - 1);
      var before := team[..n - 1];
      assert team[..n][..n - 1] == before;
      ShareOfRow(team, team[n - 1], ExplicitTotal(before), EvenParts(WithoutSplit(before), EvenShare(team)));
    }
  }

  lemma {:induction false} EvenPartsMultiply(w: nat, even: real)
    ensures EvenParts(w, even) == w as real * even
  {
    if w > 0 {
      EvenPartsMultiply(w - 1, even);
      assert (w - 1) as real * even + even == w as real * even;
    }
  }

  lemma EvenPartsFillUp(team: seq<Assignment>)
    ensures EvenParts(WithoutSplit(team), EvenShare(team)) == if WithoutSplit(team) > 0 then Remaining(team) as real else 0.0
  {
    EvenPartsMultiply(WithoutSplit(team), EvenShare(team));
  }

  /** A team of two or more hands out at most the whole job exactly when the splits stay within
      100, and exactly the whole job when they make 100, or stay below with someone left to share
      the rest. */
  lemma SharesWithinTheJob(team: seq<Assignment>)
    requires |team| >= 2
    ensures FirstShares(team, |team|) <= 1.0 <==> ExplicitTotal(team) <= 100
    ensures FirstShares(team, |team|) == 1.0 <==> ExplicitTotal(team) == 100 || (ExplicitTotal(team) < 100 && WithoutSplit(team) > 0)
  {
    FirstSharesInPercent(team, |team|);
    assert team[..|team|] == team;
    EvenPartsFillUp(team);
  }

  /** Who gets what: a solo job goes to one whatever the split, a split is in hundredths, and those
      without one get the same, nothing if the splits leave nothing. */
  lemma SharesAreAsSplit(team: seq<Assignment>, a: Assignment, b: Assignment)
    ensures |team| == 1 ==> ShareOf(team, a) == 1.0
    ensures |team| >= 2 && a.split.Some? ==> ShareOf(team, a) * 100.0 == a.split.value as real
    ensures a.split.None? && b.split.None? ==> ShareOf(team, a) == ShareOf(team, b)
    ensures |team| >= 2 && a.split.None? && ExplicitTotal(team) >= 100 ==> ShareOf(team, a) == 0.0
  {
  }

  // ---- earnings ---------------------------------------------------------------------------

  /** `Math.round`. */
  function Round(x: real): int {
    (x + 0.5).Floor
  }

  /** The part of `cents` percent-cents that a share stands for. */
  function PartOf(cents: int, share: real): real {
    cents as real * share / 100.0
  }

  datatype Job = Job(quotedPriceCents: int, team: seq<Assignment>, compensation: map<CleanerId, Compensation>)

  /** An hourly wage needs both clock times; only a percentage is scaled by the share. */
  function AmountCents(quote: int, compensation: Compensation, share: real, clockedMs: Option<int>): Option<int> {
    match compensation
    case Percent(rate) => Some(Round(PartOf(quote * rate, share)))
    case FlatPerJob(cents) => Some(cents)
    case Hourly(perHour) => if clockedMs.None? then None else Some(Round(clockedMs.value as real / 3600000.0 * perHour as real))
  }

  /** What `a` earns on the job; None for a row that is passed over. */
  function Pay(j: Job, a: Assignment): Option<int> {
    if a.cleaner !in j.compensation then None else
    var cents := AmountCents(j.quotedPriceCents, j.compensation[a.cleaner], ShareOf(j.team, a), a.clockedMs);
    if cents.Some? && cents.value > 0 then cents else None
  }

  /** Rounding is to the nearest cent. */
  lemma RoundIsNearest(x: real)
    ensures x - 0.5 < Round(x) as real <= x + 0.5
  {
  }

  /** Only a percentage depends on the team: an hourly or flat wage is what it is in any other. A
      solo percentage is the plain one, and an hourly wage the clocked hours', to the nearest cent. */
  lemma OnlyPercentagesAreShared(j: Job, k: Job, a: Assignment)
    requires a.cleaner in j.compensation && j.compensation == k.compensation
    ensures !j.compensation[a.cleaner].Percent? ==> Pay(j, a) == Pay(k, a)
    ensures |j.team| == 1 && j.compensation[a.cleaner].Percent? && Pay(j, a).Some? ==>
              var exact := (j.quotedPriceCents * j.compensation[a.cleaner].rate) as real / 100.0;
              exact - 0.5 < Pay(j, a).value as real <= exact + 0.5
    ensures j.compensation[a.cleaner].Hourly? && Pay(j, a).Some? ==>
              a.clockedMs.Some? &&
              var exact := a.clockedMs.value as real / 3600000.0 * j.compensation[a.cleaner].centsPerHour as real;
              exact - 0.5 < Pay(j, a).value as real <= exact + 0.5
  {
    match j.compensation[a.cleaner]
    case Percent(rate) => RoundIsNearest(PartOf(j.quotedPriceCents * rate, ShareOf(j.team, a)));
    case FlatPerJob(_) =>
    case Hourly(perHour) => if a.clockedMs.Some? { RoundIsNearest(a.clockedMs.value as real / 3600000.0 * perHour as real); }
  }

  /** `p` is the positive whole number of cents nearest to `exact`, half a cent up; None if that is not positive. */
  predicate ToTheCent(p: Option<int>, exact: real) {
    match p
    case Some(cents) => cents > 0 && exact - 0.5 < cents as real <= exact + 0.5
    case None => exact < 0.5
  }

  lemma PositiveRounding(x: real)
    ensures ToTheCent(if Round(x) > 0 then Some(Round(x)) else None, x)
  {
    RoundIsNearest(x);
  }

  /** What everyone is paid, to the cent, in any team: a flat wage is the amount itself, ... */
  lemma FlatPayIsTheAmount(j: Job, a: Assignment)
    requires a.cleaner in j.compensation && j.compensation[a.cleaner].FlatPerJob?
    ensures var cents := j.compensation[a.cleaner].cents; Pay(j, a) == if cents > 0 then Some(cents) else None
  {
  }

  /** ... a percentage is of the quote and the share, ... */
  lemma PercentPayIsToTheCent(j: Job, a: Assignment, exact: real)
    requires a.cleaner in j.compensation && j.compensation[a.cleaner].Percent?
    requires exact == (j.quotedPriceCents * j.compensation[a.cleaner].rate) as real * ShareOf(j.team, a) / 100.0
    ensures ToTheCent(Pay(j, a), exact)
  {
    PositiveRounding(exact);
  }

  /** ... and an hourly wage is for the time clocked, and nothing without it. */
  lemma HourlyPayIsToTheCent(j: Job, a: Assignment, exact: real)
    requires a.cleaner in j.compensation && j.compensation[a.cleaner].Hourly?
    requires a.clockedMs.Some? ==> exact == a.clockedMs.value as real / 3600000.0 * j.compensation[a.cleaner].centsPerHour as real
    ensures if a.clockedMs.Some? then ToTheCent(Pay(j, a), exact) else Pay(j, a) == None
  {
    PositiveRounding(exact);
  }

  /** The booking's earnings rows, keyed by cleaner, after the first `n` assignments. */
  function RowsAfter(j: Job, rows: map<CleanerId, int>, n: nat): map<CleanerId, int>
    requires n <= |j.team|
  {
    if n == 0 then rows else
    var before := RowsAfter(j, rows, n - 1);
    var a := j.team[n - 1];
    if a.cleaner in before || Pay(j, a).None? then before else before[a.cleaner := Pay(j, a).value]
  }

  method ComputeEarningsForBooking(j: Job, rows: map<CleanerId, int>) returns (after: map<CleanerId, int>)
    requires DistinctIds(j.team)
    ensures after == RowsAfter(j, rows, |j.team|)
  {
    after := rows;
    if |j.team| == 0 { return; }
    var shares := ResolveEarningsShares(j.team);
    for i := 0 to |j.team|
      invariant after == RowsAfter(j, rows, i)
    {
      var a := j.team[i];
      assert Given(j.team, shares, a);
      if a.cleaner in after { continue; }
      if a.cleaner !in j.compensation { continue; }
      var cents := AmountCents(j.quotedPriceCents, j.compensation[a.cleaner], shares[a.id], a.clockedMs);
      if cents.None? || cents.value <= 0 { continue; }
      after := after[a.cleaner := cents.value];
    }
  }

  /** Who has a row afterwards, and why: earlier rows stay as they were, and every other row is
      a positive pay of someone on the team. */
  lemma {:induction false} RowsAreEarned(j: Job, rows: map<CleanerId, int>, n: nat)
    requires n <= |j.team|
    ensures var after := RowsAfter(j, rows, n);
            && (forall c :: c in rows ==> c in after && after[c] == rows[c])
            && (forall c :: c in after && c !in rows ==> exists i :: 0 <= i < n && j.team[i].cleaner == c && Pay(j, j.team[i]) == Some(after[c]))
            && (forall i :: 0 <= i < n && Pay(j, j.team[i]).Some? ==> j.team[i].cleaner in after)
  {
    if n > 0 {
      RowsAreEarned(j, rows, n - 1);
      var before, after := RowsAfter(j, rows, n - 1), RowsAfter(j, rows, n);
      forall c | c in after && c !in rows
        ensures exists i :: 0 <= i < n && j.team[i].cleaner == c && Pay(j, j.team[i]) == Some(after[c])
      {
        if c !in before {
          assert j.team[n - 1].cleaner == c;
        }
      }
    }
  }

  lemma {:induction false} NothingNewToEarn(j: Job, rows: map<CleanerId, int>, n: nat)
    requires n <= |j.team| && forall i :: 0 <= i < n && Pay(j, j.team[i]).Some? ==> j.team[i].cleaner in rows
    ensures RowsAfter(j, rows, n) == rows
  {
    if n > 0 { NothingNewToEarn(j, rows, n - 1); }
  }

  /** Completing a booking twice earns once. */
  lemma EarningTwiceEarnsOnce(j: Job, rows: map<CleanerId, int>)
    ensures var once := RowsAfter(j, rows, |j.team|); RowsAfter(j, once, |j.team|) == once
  {
    RowsAreEarned(j, rows, |j.team|);
    NothingNewToEarn(j, RowsAfter(j, rows, |j.team|), |j.team|);
  }

  // ---- what a percentage team costs -----------------------------------------------------------

  /** Every cleaner on the team who is paid at all is paid a percentage from 0 to `most`. */
  ghost predicate PaidByPercentage(j: Job, most: nat) {
    forall i :: 0 <= i < |j.team| && j.team[i].cleaner in j.compensation ==>
      j.compensation[j.team[i].cleaner].Percent? && 0 <= j.compensation[j.team[i].cleaner].rate <= most
  }

  ghost predicate SplitsInRange(team: seq<Assignment>) {
    forall i :: 0 <= i < |team| && team[i].split.Some? ==> team[i].split.value >= 0
  }

  lemma PartsAdd(cents: nat, s: real, t: real)
    requires t >= 0.0
    ensures PartOf(cents, s + t) == PartOf(cents, s) + PartOf(cents, t) && PartOf(cents, t) >= 0.0
  {
  }

  lemma PartIsAtMostTheWhole(cents: nat, s: real)
    requires s <= 1.0
    ensures PartOf(cents, s) <= cents as real / 100.0
  {
  }

  lemma PartGrows(x: nat, rate: nat, most: nat, share: real)
    requires rate <= most && share >= 0.0
    ensures PartOf(x * rate, share) <= PartOf(x * most, share)
  {
    assert x * rate <= x * most;
  }

  lemma PayIsBounded(j: Job, most: nat, cents: nat, i: nat)
    requires j.quotedPriceCents >= 0 && PaidByPercentage(j, most) && SplitsInRange(j.team) && i < |j.team|
    requires cents == j.quotedPriceCents * most
    ensures ShareOf(j.team, j.team[i]) >= 0.0
    ensures var p := Pay(j, j.team[i]); p.Some? ==> p.value as real <= PartOf(cents, ShareOf(j.team, j.team[i])) + 0.5
  {
    var a := j.team[i];
    if Pay(j, a).Some? {
      PartGrows(j.quotedPriceCents, j.compensation[a.cleaner].rate, most, ShareOf(j.team, a));
    }
  }

  ghost function Added(j: Job, rows: map<CleanerId, int>, n: nat): int
    requires n <= |j.team|
  {
    Sum(RowsAfter(j, rows, n)) - Sum(rows)
  }

  lemma AddedByOne(j: Job, rows: map<CleanerId, int>, n: nat)
    requires 0 < n <= |j.team|
    ensures Added(j, rows, n) == Added(j, rows, n - 1) || (Pay(j, j.team[n - 1]).Some? && Added(j, rows, n) == Added(j, rows, n - 1) + Pay(j, j.team[n - 1]).value)
  {
    var before, a := RowsAfter(j, rows, n - 1), j.team[n - 1];
    if a.cleaner !in before && Pay(j, a).Some? { Put(before, a.cleaner, Pay(j, a).value); }
  }

  lemma {:induction false} CostOfFirst(j: Job, rows: map<CleanerId, int>, most: nat, cents: nat, n: nat)
    requires j.quotedPriceCents >= 0 && PaidByPercentage(j, most) && SplitsInRange(j.team) && n <= |j.team|
    requires cents == j.quotedPriceCents * most
    ensures Added(j, rows, n) as real <= PartOf(cents, FirstShares(j.team, n)) + n as real / 2.0
  {
    if n > 0 {
      CostOfFirst(j, rows, most, cents, n - 1);
      PayIsBounded(j, most, cents, n - 1);
      AddedByOne(j, rows, n);
      PartsAdd(cents, FirstShares(j.team, n - 1), ShareOf(j.team, j.team[n - 1]));
    }
  }

  /** A team of `n` cleaners on rates up to `most` percent, whose splits stay within 100, adds at
      most that percentage of the quote and half a cent each. */
  lemma TeamCostIsBounded(j: Job, rows: map<CleanerId, int>, most: nat)
    requires j.quotedPriceCents >= 0 && PaidByPercentage(j, most) && SplitsInRange(j.team)
    requires |j.team| >= 2 ==> ExplicitTotal(j.team) <= 100
    ensures (Sum(RowsAfter(j, rows, |j.team|)) - Sum(rows)) as real
            <= (j.quotedPriceCents * most) as real / 100.0 + |j.team| as real / 2.0
  {
    CostOfFirst(j, rows, most, j.quotedPriceCents * most, |j.team|);
    if |j.team| == 1 {
      assert FirstShares(j.team, 1) == FirstShares(j.team, 0) + 1.0;
    } else if |j.team| >= 2 {
      SharesWithinTheJob(j.team);
    }
    PartIsAtMostTheWhole(j.quotedPriceCents * most, FirstShares(j.team, |j.team|));
  }
}
