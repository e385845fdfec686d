/** Sums over finite maps, for the ledgers. */
module Sums {

  ghost function Sum<K>(m: map<K, int>): int
    decreases |m|
  {
    if m == map[] then 0 else var k :| k in m; m[k] + Sum(m - {k})
  }

  /** Any key may be taken out first. */
  lemma {:induction false} TakeOut<K>(m: map<K, int>, k: K)
    requires k in m
    ensures Sum(m) == m[k] + Sum(m - {k})
    decreases |m|
  {
    var j :| j in m && Sum(m) == m[j] + Sum(m - {j});
    if j != k {
      TakeOut(m - {j}, k);
      TakeOut(m - {k}, j);
      assert m - {j} - {k} == m - {k} - {j};
    }
  }

  lemma Put<K>(m: map<K, int>, k: K, v: int)
    ensures Sum(m[k := v]) == Sum(m) + v - if k in m then m[k] else 0
  {
    TakeOut(m[k := v], k);
    if k in m {
      TakeOut(m, k);
      assert m[k := v] - {k} == m - {k};
    } else {
      assert m[k := v] - {k} == m;
    }
  }

  lemma {:induction false} NonNegative<K>(m: map<K, int>)
    requires forall k :: k in m ==> m[k] >= 0
    ensures Sum(m) >= 0
    decreases |m|
  {
    if m != map[] {
      var k :| k in m;
      TakeOut(m, k);
      NonNegative(m - {k});
    }
  }

  /** The terms of `m` that `of` puts in group `g`. */
  ghost function Group<K, G>(m: map<K, int>, of: map<K, G>, g: G): map<K, int> {
    map k | k in m && k in of && of[k] == g :: m[k]
  }

  lemma Peel<K>(m: map<K, int>, part: map<K, int>, k: K)
    requires k in part
    ensures m - {k} - (part - {k}).Keys == m - part.Keys
  {
  }

  /** A sum splits into any part and the rest. */
  lemma {:induction false} Split<K>(m: map<K, int>, part: map<K, int>)
    requires forall k :: k in part ==> k in m && m[k] == part[k]
    ensures Sum(m) == Sum(part) + Sum(m - part.Keys)
    decreases |part|
  {
    if part == map[] {
      assert m - part.Keys == m;
    } else {
      var k :| k in part;
      TakeOut(part, k);
      TakeOut(m, k);
      Split(m - {k}, part - {k});
      Peel(m, part, k);
    }
  }

  lemma OtherGroupsStay<K, G>(m: map<K, int>, of: map<K, G>, g: G, h: G)
    requires h != g
    ensures Group(m - Group(m, of, g).Keys, of, h) == Group(m, of, h)
  {
  }

  /** Group totals add up to the whole. */
  lemma {:induction false} Grouped<K, G>(m: map<K, int>, of: map<K, G>, totals: map<G, int>)
    requires forall k :: k in m ==> k in of && of[k] in totals
    requires forall g :: g in totals ==> totals[g] == Sum(Group(m, of, g))
    ensures Sum(m) == Sum(totals)
    decreases |totals|
  {
    if totals == map[] {
      assert m == map[];
    } else {
      var g :| g in totals;
      TakeOut(totals, g);
      Split(m, Group(m, of, g));
      var rest := m - Group(m, of, g).Keys;
      forall h | h in totals - {g} ensures Group(rest, of, h) == Group(m, of, h) {
        OtherGroupsStay(m, of, g, h);
      }
      Grouped(rest, of, totals - {g});
    }
  }

  /** Each term of a sum of non-negative terms is at most the sum. */
  lemma TermAtMostSum<K>(m: map<K, int>, k: K)
    requires k in m && forall j :: j in m ==> m[j] >= 0
    ensures m[k] <= Sum(m)
  {
    TakeOut(m, k);
    NonNegative(m - {k});
  }
}
