/** When the sweep recovers the real kills from noisy reports of them, and when it cannot. */
module Recovery {
  import opened Core
  import opened ConsensusTypes
  import opened Clusters
  import opened SortProperties
  import opened SweepProperties
  import opened EstimateProperties
  import opened Derivation
  import opened Horizon

  /**
   * `truth` names the kill behind each report; distinct kills are `apart`, and no report is off by more
   * than `noise`.
   */
  ghost predicate Noisy(reports: seq<Report>, truth: Id -> Micros, apart: Micros, noise: Micros) {
    && (forall a, b :: a in reports && b in reports ==>
          truth(a.id) == truth(b.id) || Abs(truth(a.id) - truth(b.id)) >= apart)
    && forall a :: a in reports ==> Abs(a.diedAt - truth(a.id)) <= noise
  }

  ghost predicate OneKill(c: seq<Report>, truth: Id -> Micros) {
    forall a, b :: a in c && b in c ==> truth(a.id) == truth(b.id)
  }

  ghost predicate OtherKill(c: seq<Report>, c': seq<Report>, truth: Id -> Micros) {
    forall a, b :: a in c && b in c' ==> truth(a.id) != truth(b.id)
  }

  /** The clusters are the reports grouped by real kill: one kill each, and no kill twice. */
  ghost predicate Faithful(cs: seq<Cluster>, truth: Id -> Micros) {
    && (forall i :: 0 <= i < |cs| ==> OneKill(cs[i], truth))
    && forall i, j :: 0 <= i < j < |cs| ==> OtherKill(cs[i], cs[j], truth)
  }

  lemma CloseMeansSameKill(
    reports: seq<Report>, truth: Id -> Micros, apart: Micros, noise: Micros, epsilon: Micros, a: Report, b: Report
  )
    requires Noisy(reports, truth, apart, noise) && apart > epsilon + 2 * noise
    requires a in reports && b in reports && Abs(a.diedAt - b.diedAt) <= epsilon
    ensures truth(a.id) == truth(b.id)
  {
  }

  /** A report close enough to the end of a cluster of one kill is of that kill, and always joins. */
  lemma SameKillJoins(
    last: Cluster, r: Report, all: seq<Report>, truth: Id -> Micros, apart: Micros, noise: Micros, epsilon: Micros
  )
    requires Noisy(all, truth, apart, noise) && apart > epsilon + 2 * noise && 0 <= 2 * noise <= epsilon
    requires OneKill(last, truth) && r in all && forall a :: a in last ==> a in all
    requires 0 <= r.diedAt - last[|last| - 1].diedAt <= epsilon
    ensures OneKill(last + [r], truth)
    ensures Joins(last, r, epsilon)
  {
    var previous := last[|last| - 1];
    assert previous in last && last[0] in last;
    CloseMeansSameKill(all, truth, apart, noise, epsilon, previous, r);
    assert truth(last[0].id) == truth(r.id);
  }

  lemma GrownFaithful(out: seq<Cluster>, r: Report, truth: Id -> Micros)
    requires out != [] && Faithful(out, truth) && OneKill(out[|out| - 1] + [r], truth)
    ensures Faithful(out[|out| - 1 := out[|out| - 1] + [r]], truth)
  {
    var last, n := out[|out| - 1], |out| - 1;
    var next := out[n := last + [r]];
    assert last[0] in last && last[0] in last + [r] && r in last + [r];
    assert truth(last[0].id) == truth(r.id);
    forall i, j | 0 <= i < j < |next| ensures OtherKill(next[i], next[j], truth) {
      assert OtherKill(out[i], out[j], truth);
      if j == n {
        forall a | a in out[i] ensures truth(a.id) != truth(r.id) {
          assert truth(a.id) != truth(last[0].id);
        }
      }
    }
  }

  lemma StartedFaithful(out: seq<Cluster>, r: Report, truth: Id -> Micros)
    requires Faithful(out, truth) && forall i :: 0 <= i < |out| ==> OtherKill(out[i], [r], truth)
    ensures Faithful(out + [[r]], truth)
  {
    var next: seq<Cluster> := out + [[r]];
    forall i, j | 0 <= i < j < |next| ensures OtherKill(next[i], next[j], truth) {
      if j < |out| {
        assert OtherKill(out[i], out[j], truth);
      } else {
        assert OtherKill(out[i], [r], truth);
      }
    }
  }

  /** A report more than epsilon after everything so far is of a kill none of it is of. */
  lemma FarIsAnotherKill(
    c: seq<Report>, r: Report, all: seq<Report>, truth: Id -> Micros, apart: Micros, noise: Micros, epsilon: Micros
  )
    requires Noisy(all, truth, apart, noise) && 0 <= 2 * noise <= epsilon
    requires r in all && forall a :: a in c ==> a in all && r.diedAt - a.diedAt > epsilon
    ensures OtherKill(c, [r], truth)
  {
  }

  lemma StepFaithful(
    out: seq<Cluster>, s: seq<Report>, truth: Id -> Micros, apart: Micros, noise: Micros, epsilon: Micros, r: Report
  )
    requires Noisy(s + [r], truth, apart, noise) && apart > epsilon + 2 * noise && 0 <= 2 * noise <= epsilon
    requires Ordered(s + [r]) && DrawnFrom(out, s) && Separated(out) && Faithful(out, truth)
    ensures Faithful(Step(out, r, epsilon), truth)
  {
    var all := s + [r];
    if out == [] {
      StartedFaithful(out, r, truth);
    } else {
      var last := out[|out| - 1];
      var previous := last[|last| - 1];
      assert last in out && previous in last && previous in s && r in all;
      LastIsLatest(s, r, previous);
      if r.diedAt - previous.diedAt <= epsilon {
        SameKillJoins(last, r, all, truth, apart, noise, epsilon);
        GrownFaithful(out, r, truth);
      } else {
        forall i | 0 <= i < |out| ensures OtherKill(out[i], [r], truth) {
          AllBefore(out, i);
          assert out[i] in out;
          FarIsAnotherKill(out[i], r, all, truth, apart, noise, epsilon);
        }
        StartedFaithful(out, r, truth);
      }
    }
  }

  lemma LastIsLatest(s: seq<Report>, r: Report, a: Report)
    requires Ordered(s + [r]) && a in s
    ensures NotAfter(a, r)
  {
    var i :| 0 <= i < |s| && s[i] == a;
    assert NotAfter((s + [r])[i], (s + [r])[|s|]);
  }

  /** Nothing is later than the last report of the last cluster. */
  lemma AllBefore(out: seq<Cluster>, i: nat)
    requires InOrder(out) && i < |out|
    ensures forall a :: a in out[i] ==> a.diedAt <= out[|out| - 1][|out[|out| - 1]| - 1].diedAt
  {
    var last := out[|out| - 1];
    assert last in out && last[|last| - 1] in last;
    if i < |out| - 1 {
      assert Earlier(out[i], last);
    } else {
      forall a | a in last ensures a.diedAt <= last[|last| - 1].diedAt {
        var k :| 0 <= k < |last| && last[k] == a;
        assert k < |last| - 1 ==> NotAfter(last[k], last[|last| - 1]);
      }
    }
  }

  lemma {:induction false} SweepFaithful(
    s: seq<Report>, truth: Id -> Micros, apart: Micros, noise: Micros, epsilon: Micros
  )
    requires Noisy(s, truth, apart, noise) && apart > epsilon + 2 * noise && 0 <= 2 * noise <= epsilon
    requires Ordered(s)
    ensures Faithful(Sweep(s, epsilon), truth)
  {
    if s == [] {
    } else {
      var before, r := s[..|s| - 1], s[|s| - 1];
      assert s == before + [r];
      SweepFaithful(before, truth, apart, noise, epsilon);
      SweepDrawn(before, epsilon);
      SweepSeparates(before, epsilon);
      StepFaithful(Sweep(before, epsilon), before, truth, apart, noise, epsilon, r);
    }
  }

  /**
   * Recovery. Reports off by at most half of epsilon, of kills more than epsilon plus twice that error
   * apart, are grouped by real kill, and every kill is dated within the error.
   */
  lemma ClustersAreKills(
    reports: seq<Report>, truth: Id -> Micros, apart: Micros, noise: Micros, epsilon: Micros
  )
    requires Noisy(reports, truth, apart, noise) && apart > epsilon + 2 * noise && 0 <= 2 * noise <= epsilon
    ensures
      var cs := Group(reports, epsilon);
      && Faithful(cs, truth)
      && (forall r :: r in reports ==> exists i :: 0 <= i < |cs| && r in cs[i])
      && forall i :: 0 <= i < |cs| ==> Abs(Estimate(cs[i]) - truth(cs[i][0].id)) <= noise
  {
    var cs := Group(reports, epsilon);
    SortOrdered(reports);
    SweepFaithful(Sort(reports), truth, apart, noise, epsilon);
    GroupShape(reports, epsilon);
    forall i | 0 <= i < |cs| ensures Abs(Estimate(cs[i]) - truth(cs[i][0].id)) <= noise {
      EstimateNearKill(cs[i], reports, truth, apart, noise);
    }
  }

  lemma EstimateNearKill(c: Cluster, reports: seq<Report>, truth: Id -> Micros, apart: Micros, noise: Micros)
    requires Noisy(reports, truth, apart, noise) && OneKill(c, truth)
    requires Ordered(c) && forall r :: r in c ==> r in reports
    ensures Abs(Estimate(c) - truth(c[0].id)) <= noise
  {
    EstimateMinimises(c);
    var r :| r in c && r.diedAt == Estimate(c);
    assert c[0] in c;
  }

  /** The shortest respawn, in seconds, for which the derived epsilon is safe. */
  const SAFE_OPEN_OFFSET: int := 600

  lemma DerivedEpsilonIsSafe(timer: Timer)
    requires timer.epsilon.None? && timer.kind != Unknown && timer.openOffset.Some?
    ensures timer.openOffset.value > SAFE_OPEN_OFFSET <==>
            timer.openOffset.value * MICROS_PER_SECOND > 2 * Epsilon(timer)
    ensures timer.openOffset.value >= 1200 ==> timer.openOffset.value * MICROS_PER_SECOND >= 4 * Epsilon(timer)
  {
  }

  /** With the derived epsilon, kills a respawn apart are recovered whenever the respawn is over ten minutes. */
  lemma RealKillsRecovered(
    log: seq<Report>, quakes: seq<Quake>, timer: Timer, truth: Id -> Micros, apart: Micros, noise: Micros
  )
    requires timer.epsilon.None? && timer.kind != Unknown && timer.openOffset.Some?
    requires timer.openOffset.value > SAFE_OPEN_OFFSET
    requires 0 <= 2 * noise <= Epsilon(timer) && apart >= timer.openOffset.value * MICROS_PER_SECOND
    requires Noisy(Considered(log, quakes, timer), truth, apart, noise)
    ensures
      var cs := KillEvents(log, quakes, timer);
      && Faithful(cs, truth)
      && (forall r :: r in Considered(log, quakes, timer) ==> exists i :: 0 <= i < |cs| && r in cs[i])
      && forall i :: 0 <= i < |cs| ==> Abs(Estimate(cs[i]) - truth(cs[i][0].id)) <= noise
  {
    DerivedEpsilonIsSafe(timer);
    ClustersAreKills(Considered(log, quakes, timer), truth, apart, noise, Epsilon(timer));
  }

  /** And when they are further apart by the reporting error on both sides, nothing is flagged implausible. */
  lemma RealKillsDoNotContradict(
    log: seq<Report>, quakes: seq<Quake>, timer: Timer, now: Micros, cfg: CircleConfig,
    truth: Id -> Micros, apart: Micros, noise: Micros
  )
    requires timer.epsilon.None? && timer.kind != Unknown && timer.openOffset.Some?
    requires timer.openOffset.value > SAFE_OPEN_OFFSET
    requires 0 <= 2 * noise <= Epsilon(timer) && apart >= timer.openOffset.value * MICROS_PER_SECOND + 2 * noise
    requires Noisy(Considered(log, quakes, timer), truth, apart, noise)
    ensures Derive(log, quakes, timer, now, cfg).implausibleReportIds == []
  {
    var kills, cs := Considered(log, quakes, timer), KillEvents(log, quakes, timer);
    RealKillsRecovered(log, quakes, timer, truth, apart, noise);
    if cs != [] {
      GroupShape(kills, Epsilon(timer));
      var current := SelectCurrent(cs, timer, now, cfg).index;
      NoneContradict(kills, cs, current, timer, truth, apart, noise);
      NothingImplausible(cs, |cs|, current, timer);
    }
  }

  lemma FarKillsDoNotContradict(
    reports: seq<Report>, c: Cluster, shown: Cluster, timer: Timer, truth: Id -> Micros, apart: Micros, noise: Micros
  )
    requires timer.openOffset.Some? && apart >= timer.openOffset.value * MICROS_PER_SECOND + 2 * noise
    requires Noisy(reports, truth, apart, noise) && c[0] in reports && shown[0] in reports
    requires OtherKill(c, shown, truth) || OtherKill(shown, c, truth)
    requires Abs(Estimate(c) - truth(c[0].id)) <= noise && Abs(Estimate(shown) - truth(shown[0].id)) <= noise
    ensures !Contradicts(c, shown, timer)
  {
    assert c[0] in c && shown[0] in shown;
    assert truth(c[0].id) != truth(shown[0].id);
  }

  lemma NoneContradict(
    reports: seq<Report>, cs: seq<Cluster>, current: nat, timer: Timer, truth: Id -> Micros, apart: Micros,
    noise: Micros
  )
    requires timer.openOffset.Some? && apart >= timer.openOffset.value * MICROS_PER_SECOND + 2 * noise
    requires Noisy(reports, truth, apart, noise) && DrawnFrom(cs, reports) && Faithful(cs, truth)
    requires forall i :: 0 <= i < |cs| ==> Abs(Estimate(cs[i]) - truth(cs[i][0].id)) <= noise
    requires current < |cs|
    ensures forall i :: 0 <= i < |cs| && i != current ==> !Contradicts(cs[i], cs[current], timer)
  {
    var shown := cs[current];
    assert shown in cs && shown[0] in shown;
    forall i | 0 <= i < |cs| && i != current ensures !Contradicts(cs[i], shown, timer) {
      var c := cs[i];
      assert c in cs && c[0] in c;
      assert OtherKill(cs[Min(i, current)], cs[Max(i, current)], truth);
      FarKillsDoNotContradict(reports, c, shown, timer, truth, apart, noise);
    }
  }

  /**
   * Ten minutes is sharp: for any shorter respawn two kills that far apart, reported within the
   * allowed error, land in one cluster.
   */
  lemma ShortRespawnsMerge(timer: Timer) returns (a: Report, b: Report, truth: Id -> Micros, noise: Micros)
    requires timer.epsilon.None? && timer.kind != Unknown && timer.openOffset.Some?
    requires timer.openOffset.value <= SAFE_OPEN_OFFSET
    ensures 0 <= 2 * noise <= Epsilon(timer)
    ensures Noisy([a, b], truth, timer.openOffset.value * MICROS_PER_SECOND, noise)
    ensures truth(a.id) != truth(b.id)
    ensures Group([a, b], Epsilon(timer)) == [[a, b]]
  {
    var open, e := timer.openOffset.value * MICROS_PER_SECOND, Epsilon(timer);
    var second := if open <= 0 then 1 else open;
    noise := if open <= 0 then 0 else Min(e / 2, open / 2);
    assert second - 2 * noise <= e && 0 <= 2 * noise <= e && 2 * noise <= second;
    truth := (id: Id) => if id == 0 then 0 else second;
    a := Report(0, Kill, noise, 0, 0, false, Manual, None);
    b := Report(1, Kill, second - noise, 0, 1, false, Manual, None);
    NoisyPair(a, b, truth, open, noise);
    PairMerges(a, b, e);
  }

  lemma NoisyPair(a: Report, b: Report, truth: Id -> Micros, apart: Micros, noise: Micros)
    requires Abs(truth(a.id) - truth(b.id)) >= apart
    requires Abs(a.diedAt - truth(a.id)) <= noise && Abs(b.diedAt - truth(b.id)) <= noise
    ensures Noisy([a, b], truth, apart, noise)
  {
  }

  lemma PairMerges(a: Report, b: Report, epsilon: Micros)
    requires NotAfter(a, b) && b.diedAt - a.diedAt <= epsilon
    ensures Group([a, b], epsilon) == [[a, b]]
  {
    assert Sort([b]) == [b];
    assert Sort([a, b]) == [a, b];
    assert [a, b][..1] == [a];
    assert [a][..0] == [];
    assert Sweep([a], epsilon) == [[a]];
    assert [a] + [b] == [a, b];
  }
}
