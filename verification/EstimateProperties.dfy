/** What the point estimate of a cluster is, and where it lies. */
module EstimateProperties {
  import opened Core
  import opened ConsensusTypes
  import opened Clusters
  import opened SweepProperties

  /** Total disagreement of `s` with the instant `x`. */
  function Disagreement(s: seq<Report>, x: Micros): int {
    if s == [] then 0 else Abs(s[0].diedAt - x) + Disagreement(s[1..], x)
  }

  lemma {:induction false} DisagreementSplit(a: seq<Report>, b: seq<Report>, x: Micros)
    ensures Disagreement(a + b, x) == Disagreement(a, x) + Disagreement(b, x)
  {
    if a == [] {
      assert a + b == b;
    } else {
      assert (a + b)[1..] == a[1..] + b;
      DisagreementSplit(a[1..], b, x);
    }
  }

  /** Moving away from reports that all lie on the other side costs each of them the whole move. */
  lemma {:induction false} MoveAway(s: seq<Report>, m: Micros, x: Micros)
    requires (x <= m && forall r :: r in s ==> r.diedAt >= m) || (x >= m && forall r :: r in s ==> r.diedAt <= m)
    ensures Disagreement(s, x) == Disagreement(s, m) + |s| * Abs(m - x)
  {
    if s == [] {
    } else {
      MoveAway(s[1..], m, x);
      Distribute(|s| - 1, 1, Abs(m - x));
    }
  }

  /** Any move saves each report at most its own length. */
  lemma {:induction false} MoveSaves(s: seq<Report>, m: Micros, x: Micros)
    ensures Disagreement(s, x) >= Disagreement(s, m) - |s| * Abs(m - x)
  {
    if s == [] {
    } else {
      MoveSaves(s[1..], m, x);
      Distribute(|s| - 1, 1, Abs(m - x));
      assert Abs(s[0].diedAt - x) >= Abs(s[0].diedAt - m) - Abs(m - x);
    }
  }

  /** `m` is the least integer minimising the sum of absolute distances. */
  ghost predicate LeastMinimiser(s: seq<Report>, m: Micros) {
    forall x: Micros :: Disagreement(s, m) <= Disagreement(s, x) && (x < m ==> Disagreement(s, m) < Disagreement(s, x))
  }

  lemma MedianMinimises(e: Cluster, x: Micros)
    requires Ordered(e)
    ensures
      var m := e[(|e| - 1) / 2].diedAt;
      Disagreement(e, m) <= Disagreement(e, x) && (x < m ==> Disagreement(e, m) < Disagreement(e, x))
  {
    var n, k := |e|, (|e| - 1) / 2;
    var m := e[k].diedAt;
    var d := Abs(m - x);
    var cut := if x < m then k else k + 1;
    var low, high := e[..cut], e[cut..];
    assert e == low + high;
    DisagreementSplit(low, high, x);
    DisagreementSplit(low, high, m);
    if x < m {
      MoveSaves(low, m, x);
      MoveAway(high, m, x);
      ScaleMonotone(k + 1, n - k, d);
      Distribute(k, 1, d);
    } else {
      MoveAway(low, m, x);
      MoveSaves(high, m, x);
      ScaleMonotone(n - k - 1, k + 1, d);
    }
  }

  lemma {:induction false} FilterOrdered(keep: Report -> bool, s: seq<Report>)
    requires Ordered(s)
    ensures Ordered(Filter(keep, s))
  {
    if s == [] {
    } else {
      FilterOrdered(keep, s[1..]);
      forall x | x in s[1..] ensures NotAfter(s[0], x) {
      }
    }
  }

  /** The estimate is the least instant the estimators disagree with least, and one of them says it. */
  lemma EstimateMinimises(c: Cluster)
    requires Ordered(c)
    ensures LeastMinimiser(Estimators(c), Estimate(c))
    ensures c[0].diedAt <= Estimate(c) <= c[|c| - 1].diedAt
    ensures exists r :: r in c && r.diedAt == Estimate(c) && (HasLogLine(c) ==> r.source == LogLine)
  {
    var e := Estimators(c);
    FilterOrdered((r: Report) => r.source == LogLine, c);
    forall x: Micros
      ensures Disagreement(e, Estimate(c)) <= Disagreement(e, x)
      ensures x < Estimate(c) ==> Disagreement(e, Estimate(c)) < Disagreement(e, x)
    {
      MedianMinimises(e, x);
    }
    var r := e[(|e| - 1) / 2];
    assert r in e;
    var i :| 0 <= i < |c| && c[i] == r;
    assert i > 0 ==> NotAfter(c[0], c[i]);
    assert i < |c| - 1 ==> NotAfter(c[i], c[|c| - 1]);
  }

  /** Two least minimisers are the same instant, so the description above leaves no choice. */
  lemma LeastMinimiserUnique(s: seq<Report>, m: Micros, m': Micros)
    requires LeastMinimiser(s, m) && LeastMinimiser(s, m')
    ensures m == m'
  {
    assert Disagreement(s, m) == Disagreement(s, m');
  }

  /** Later clusters are shown at strictly later instants. */
  lemma EstimatesIncrease(cs: seq<Cluster>, i: nat, j: nat)
    requires Separated(cs) && i < j < |cs|
    requires Ordered(cs[i]) && Ordered(cs[j])
    ensures Estimate(cs[i]) < Estimate(cs[j])
  {
    EstimateMinimises(cs[i]);
    EstimateMinimises(cs[j]);
    assert Earlier(cs[i], cs[j]);
    assert cs[i][|cs[i]| - 1] in cs[i] && cs[j][0] in cs[j];
  }
}
