/** The answer ignores row order and arrival times, and moves rigidly with the clock. */
module Symmetry {
  import opened Core
  import opened ConsensusTypes
  import opened Windows
  import opened Clusters
  import opened SortProperties
  import opened Derivation
  import opened LogAlgebra

  // ---------------------------------------------------------------- permutation

  lemma SameMembers<T>(a: seq<T>, b: seq<T>)
    requires multiset(a) == multiset(b)
    ensures |a| == |b| && forall x :: x in a <==> x in b
  {
    assert |multiset(a)| == |multiset(b)|;
    forall x ensures x in a <==> x in b {
      assert x in a <==> x in multiset(a);
      assert x in b <==> x in multiset(b);
    }
  }

  lemma FilterPermutation(p: Report -> bool, q: Report -> bool, a: seq<Report>, b: seq<Report>)
    requires multiset(a) == multiset(b)
    requires forall x :: x in a ==> p(x) == q(x)
    ensures multiset(Filter(p, a)) == multiset(Filter(q, b))
  {
    FilterCongruence(p, q, a);
    forall x: Report ensures multiset(Filter(q, a))[x] == multiset(Filter(q, b))[x] {
      FilterMultiset(q, a, x);
      FilterMultiset(q, b, x);
    }
  }

  lemma ConsideredPermutation(a: seq<Report>, b: seq<Report>, qa: seq<Quake>, qb: seq<Quake>, timer: Timer)
    requires multiset(a) == multiset(b) && multiset(qa) == multiset(qb)
    ensures multiset(Considered(a, qa, timer)) == multiset(Considered(b, qb, timer))
    ensures QuakeApplies(qa, timer) <==> QuakeApplies(qb, timer)
    ensures QuakeApplies(qa, timer) ==> LatestQuake(qa) == LatestQuake(qb)
  {
    SameMembers(a, b);
    SameMembers(qa, qb);
    FilterPermutation((r: Report) => Stands(r, a), (r: Report) => Stands(r, b), a, b);
    if QuakeApplies(qa, timer) {
      LatestQuakeIsMaximum(qa);
      LatestQuakeIsMaximum(qb);
      FilterPermutation(
        (r: Report) => r.diedAt >= LatestQuake(qa), (r: Report) => r.diedAt >= LatestQuake(qb),
        Retained(a), Retained(b));
    }
  }

  /** Rows and quakes are sets: the order they were read in never shows. */
  lemma DeriveIgnoresOrder(
    a: seq<Report>, b: seq<Report>, qa: seq<Quake>, qb: seq<Quake>, timer: Timer, now: Micros, cfg: CircleConfig
  )
    requires multiset(a) == multiset(b) && multiset(qa) == multiset(qb)
    requires KeyedById(a)
    ensures Derive(a, qa, timer, now, cfg) == Derive(b, qb, timer, now, cfg)
  {
    ConsideredPermutation(a, b, qa, qb, timer);
    SortPermutation(Considered(a, qa, timer), Considered(b, qb, timer));
    SameMembers(Considered(a, qa, timer), Considered(b, qb, timer));
  }

  // ---------------------------------------------------------------- translation in time

  /** The same row, `d` later, arriving whenever. */
  ghost predicate Later(a: Report, b: Report, d: Micros) {
    b == a.(diedAt := a.diedAt + d, reportedAt := b.reportedAt)
  }

  ghost predicate AllLater(s: seq<Report>, s': seq<Report>, d: Micros) {
    |s| == |s'| && forall i :: 0 <= i < |s| ==> Later(s[i], s'[i], d)
  }

  ghost predicate ClustersLater(cs: seq<Cluster>, cs': seq<Cluster>, d: Micros) {
    |cs| == |cs'| && forall i :: 0 <= i < |cs| ==> AllLater(cs[i], cs'[i], d)
  }

  ghost predicate QuakesLater(qs: seq<Quake>, qs': seq<Quake>, d: Micros) {
    |qs| == |qs'| && forall i :: 0 <= i < |qs| ==> qs'[i].occurredAt == qs[i].occurredAt + d
  }

  function Move(at: Option<Micros>, d: Micros): Option<Micros> {
    if at.None? then None else Some(at.value + d)
  }

  function MoveWindow(w: Window, d: Micros): Window {
    w.(openAt := Move(w.openAt, d), closeAt := Move(w.closeAt, d), spawnAt := Move(w.spawnAt, d))
  }

  function MoveAlternative(a: Alternative, d: Micros): Alternative {
    a.(diedAt := a.diedAt + d, window := MoveWindow(a.window, d))
  }

  function MoveAlternatives(s: seq<Alternative>, d: Micros): (r: seq<Alternative>)
    ensures |r| == |s|
  {
    seq(|s|, i requires 0 <= i < |s| => MoveAlternative(s[i], d))
  }

  /** Every instant of the answer moves; every count, flag, countdown and percentage stays. */
  function MoveState(s: State, d: Micros): State {
    s.(
      diedAt := Move(s.diedAt, d), upSince := Move(s.upSince, d), window := MoveWindow(s.window, d),
      alternatives := MoveAlternatives(s.alternatives, d), asOf := s.asOf + d)
  }

  lemma {:induction false} FilterLater(
    p: Report -> bool, p': Report -> bool, s: seq<Report>, s': seq<Report>, d: Micros
  )
    requires AllLater(s, s', d) && forall i :: 0 <= i < |s| ==> p(s[i]) == p'(s'[i])
    ensures AllLater(Filter(p, s), Filter(p', s'), d)
  {
    if s == [] {
    } else {
      FilterLater(p, p', s[1..], s'[1..], d);
    }
  }

  lemma RetractionsLater(log: seq<Report>, log': seq<Report>, d: Micros, id: Id)
    requires AllLater(log, log', d)
    ensures IsRetracted(id, log) <==> IsRetracted(id, log')
  {
    if IsRetracted(id, log) {
      var i :| 0 <= i < |log| && log[i].kind == Retraction && log[i].retracts == Some(id);
      assert Later(log[i], log'[i], d) && log'[i] in log';
    }
    if IsRetracted(id, log') {
      var i :| 0 <= i < |log'| && log'[i].kind == Retraction && log'[i].retracts == Some(id);
      assert Later(log[i], log'[i], d) && log[i] in log;
    }
  }

  lemma {:induction false} LatestQuakeLater(qs: seq<Quake>, qs': seq<Quake>, d: Micros)
    requires qs != [] && QuakesLater(qs, qs', d)
    ensures LatestQuake(qs') == LatestQuake(qs) + d
  {
    if |qs| == 1 {
    } else {
      LatestQuakeLater(qs[..|qs| - 1], qs'[..|qs| - 1], d);
    }
  }

  lemma ConsideredLater(
    log: seq<Report>, log': seq<Report>, qs: seq<Quake>, qs': seq<Quake>, timer: Timer, d: Micros
  )
    requires AllLater(log, log', d) && QuakesLater(qs, qs', d)
    ensures AllLater(Considered(log, qs, timer), Considered(log', qs', timer), d)
    ensures UpSince(log', qs', timer) == Move(UpSince(log, qs, timer), d)
  {
    forall i | 0 <= i < |log| ensures Stands(log[i], log) == Stands(log'[i], log') {
      RetractionsLater(log, log', d, log[i].id);
    }
    FilterLater((r: Report) => Stands(r, log), (r: Report) => Stands(r, log'), log, log', d);
    if QuakeApplies(qs, timer) {
      LatestQuakeLater(qs, qs', d);
      FilterLater(
        (r: Report) => r.diedAt >= LatestQuake(qs), (r: Report) => r.diedAt >= LatestQuake(qs'),
        Retained(log), Retained(log'), d);
    }
  }

  lemma {:induction false} InsertLater(r: Report, r': Report, s: seq<Report>, s': seq<Report>, d: Micros)
    requires Later(r, r', d) && AllLater(s, s', d)
    ensures AllLater(Insert(r, s), Insert(r', s'), d)
  {
    if s == [] || NotAfter(r, s[0]) {
    } else {
      InsertLater(r, r', s[1..], s'[1..], d);
    }
  }

  lemma {:induction false} SortLater(s: seq<Report>, s': seq<Report>, d: Micros)
    requires AllLater(s, s', d)
    ensures AllLater(Sort(s), Sort(s'), d)
  {
    if s == [] {
    } else {
      SortLater(s[1..], s'[1..], d);
      InsertLater(s[0], s'[0], Sort(s[1..]), Sort(s'[1..]), d);
    }
  }

  lemma StepLater(out: seq<Cluster>, out': seq<Cluster>, r: Report, r': Report, epsilon: Micros, d: Micros)
    requires ClustersLater(out, out', d) && Later(r, r', d)
    ensures ClustersLater(Step(out, r, epsilon), Step(out', r', epsilon), d)
  {
    if out != [] {
      var c, c' := out[|out| - 1], out'[|out| - 1];
      assert AllLater(c, c', d);
      assert Later(c[0], c'[0], d) && Later(c[|c| - 1], c'[|c| - 1], d);
      assert AllLater(c + [r], c' + [r'], d);
    }
    assert AllLater([r], [r'], d);
  }

  lemma {:induction false} SweepLater(s: seq<Report>, s': seq<Report>, epsilon: Micros, d: Micros)
    requires AllLater(s, s', d)
    ensures ClustersLater(Sweep(s, epsilon), Sweep(s', epsilon), d)
  {
    if s == [] {
    } else {
      var n := |s| - 1;
      SweepLater(s[..n], s'[..n], epsilon, d);
      StepLater(Sweep(s[..n], epsilon), Sweep(s'[..n], epsilon), s[n], s'[n], epsilon, d);
    }
  }

  // ---------------------------------------------------------------- one cluster

  lemma LogLineLater(c: seq<Report>, c': seq<Report>, d: Micros)
    requires AllLater(c, c', d)
    ensures HasLogLine(c) <==> HasLogLine(c')
    ensures AllLater(LogLines(c), LogLines(c'), d)
  {
    FilterLater((r: Report) => r.source == LogLine, (r: Report) => r.source == LogLine, c, c', d);
    if HasLogLine(c) {
      LogLinesNonempty(c);
      assert LogLines(c')[0] in LogLines(c');
    }
    if HasLogLine(c') {
      LogLinesNonempty(c');
      assert LogLines(c)[0] in LogLines(c);
    }
  }

  lemma EstimateLater(c: Cluster, c': Cluster, d: Micros)
    requires AllLater(c, c', d)
    ensures Estimate(c') == Estimate(c) + d
  {
    LogLineLater(c, c', d);
    assert AllLater(Estimators(c), Estimators(c'), d);
    var m := (|Estimators(c)| - 1) / 2;
    assert Later(Estimators(c)[m], Estimators(c')[m], d);
  }

  lemma {:induction false} ReportersLater(c: seq<Report>, c': seq<Report>, d: Micros)
    requires AllLater(c, c', d)
    ensures Reporters(c) == Reporters(c') && RevokedReporters(c) == RevokedReporters(c')
  {
    if c == [] {
    } else {
      ReportersLater(c[1..], c'[1..], d);
      assert c == [c[0]] + c[1..] && c' == [c'[0]] + c'[1..];
      assert Later(c[0], c'[0], d);
      assert Reporters(c) == {c[0].reporter} + Reporters(c[1..]);
      assert Reporters(c') == {c[0].reporter} + Reporters(c'[1..]);
      var gone: set<Id> := if c[0].revoked then {c[0].reporter} else {};
      assert RevokedReporters(c) == gone + RevokedReporters(c[1..]);
      assert RevokedReporters(c') == gone + RevokedReporters(c'[1..]);
    }
  }

  lemma EvidenceLater(c: Cluster, c': Cluster, d: Micros)
    requires AllLater(c, c', d)
    ensures EvidenceOf(c') == EvidenceOf(c)
    ensures Spread(c') == Spread(c)
  {
    ReportersLater(c, c', d);
    LogLineLater(c, c', d);
    assert Later(c[0], c'[0], d) && Later(c[|c| - 1], c'[|c| - 1], d);
    assert Ids(c) == Ids(c');
  }

  lemma ConfidenceLater(c: Cluster, c': Cluster, died: Micros, died': Micros, d: Micros)
    requires AllLater(c, c', d) && died' == died + d
    ensures ConfidenceOf(c', died') == ConfidenceOf(c, died)
  {
    EvidenceLater(c, c', d);
    ReportersLater(c, c', d);
    LogLineLater(c, c', d);
    FilterLater(
      (r: Report) => Abs(r.diedAt - died) <= SPREAD_TOLERANCE,
      (r: Report) => Abs(r.diedAt - died') <= SPREAD_TOLERANCE, c, c', d);
    LogLineLater(Near(c, died), Near(c', died'), d);
    ReportersLater(Near(c, died), Near(c', died'), d);
  }

  lemma BoundsLater(
    t: Timer, died: Option<Micros>, died': Option<Micros>, now: Micros, later: Micros, upSince: Option<Micros>,
    d: Micros
  )
    requires later == now + d && died' == Move(died, d)
    ensures DeriveStatus(t, died', later, Move(upSince, d)) == DeriveStatus(t, died, now, upSince)
    ensures DeriveWindow(t, died', later) == MoveWindow(DeriveWindow(t, died, now), d)
    ensures died.Some? ==> (WindowStillOpen(t, died'.value, later) <==> WindowStillOpen(t, died.value, now))
  {
  }

  lemma WindowLater(timer: Timer, died: Micros, died': Micros, now: Micros, later: Micros, d: Micros)
    requires later == now + d && died' == died + d
    ensures DeriveWindow(timer, Some(died'), later) == MoveWindow(DeriveWindow(timer, Some(died), now), d)
    ensures WindowStillOpen(timer, died', later) <==> WindowStillOpen(timer, died, now)
  {
    BoundsLater(timer, Some(died), Some(died'), now, later, None, d);
  }

  lemma StatusLater(
    timer: Timer, died: Micros, died': Micros, now: Micros, later: Micros, upSince: Option<Micros>, d: Micros
  )
    requires later == now + d && died' == died + d
    ensures DeriveStatus(timer, Some(died'), later, Move(upSince, d)) == DeriveStatus(timer, Some(died), now, upSince)
  {
    BoundsLater(timer, Some(died), Some(died'), now, later, upSince, d);
  }

  /** Liveness is a question of the estimate alone. */
  lemma LiveByEstimate(c: Cluster, c': Cluster, timer: Timer, now: Micros, later: Micros, d: Micros)
    requires later == now + d && Estimate(c') == Estimate(c) + d
    ensures Live(c', timer, later) <==> Live(c, timer, now)
  {
    WindowLater(timer, Estimate(c), Estimate(c'), now, later, d);
  }

  lemma LiveLater(c: Cluster, c': Cluster, timer: Timer, now: Micros, later: Micros, d: Micros)
    requires later == now + d && AllLater(c, c', d)
    ensures Live(c', timer, later) <==> Live(c, timer, now)
  {
    EstimateLater(c, c', d);
    LiveByEstimate(c, c', timer, now, later, d);
  }

  /** What a rendering is made of. */
  lemma RenderByParts(
    c: Cluster, c': Cluster, died: Micros, died': Micros, timer: Timer, now: Micros, later: Micros, d: Micros
  )
    requires died == Estimate(c) && died' == Estimate(c') && died' == died + d
    requires DeriveWindow(timer, Some(died'), later) == MoveWindow(DeriveWindow(timer, Some(died), now), d)
    requires |c'| == |c| && |Reporters(c')| == |Reporters(c)| && Ids(c') == Ids(c)
    requires ConfidenceOf(c', died') == ConfidenceOf(c, died)
    ensures RenderAlternative(c', timer, later) == MoveAlternative(RenderAlternative(c, timer, now), d)
  {
  }

  lemma RenderLater(c: Cluster, c': Cluster, timer: Timer, now: Micros, later: Micros, d: Micros)
    requires later == now + d && AllLater(c, c', d)
    ensures RenderAlternative(c', timer, later) == MoveAlternative(RenderAlternative(c, timer, now), d)
  {
    EstimateLater(c, c', d);
    ReportersLater(c, c', d);
    ConfidenceLater(c, c', Estimate(c), Estimate(c'), d);
    SameIds(c, c', d);
    WindowLater(timer, Estimate(c), Estimate(c'), now, later, d);
    RenderByParts(c, c', Estimate(c), Estimate(c'), timer, now, later, d);
  }

  lemma SameIds(c: Cluster, c': Cluster, d: Micros)
    requires AllLater(c, c', d)
    ensures Ids(c) == Ids(c')
  {
    EvidenceLater(c, c', d);
    assert EvidenceOf(c).reportIds == Ids(c) && EvidenceOf(c').reportIds == Ids(c');
  }

  // ---------------------------------------------------------------- between clusters

  /** The two clusters at `j` outweigh alike. */
  ghost predicate WeighAlike(
    cs: seq<Cluster>, cs': seq<Cluster>, j: nat, thin: nat, timer: Timer, now: Micros, later: Micros
  )
    requires j < |cs| == |cs'|
  {
    Outweighs(cs'[j], thin, timer, later) == Outweighs(cs[j], thin, timer, now)
  }

  lemma {:induction false} HoldersAlike(
    cs: seq<Cluster>, cs': seq<Cluster>, n: nat, thin: nat, timer: Timer, now: Micros, later: Micros
  )
    requires n <= |cs| == |cs'| && forall j :: 0 <= j < n ==> WeighAlike(cs, cs', j, thin, timer, now, later)
    ensures Holder(cs', n, thin, timer, later) == Holder(cs, n, thin, timer, now)
  {
    if n == 0 {
    } else {
      assert WeighAlike(cs, cs', n - 1, thin, timer, now, later);
      HoldersAlike(cs, cs', n - 1, thin, timer, now, later);
    }
  }

  lemma HolderLater(
    cs: seq<Cluster>, cs': seq<Cluster>, n: nat, thin: nat, timer: Timer, now: Micros, later: Micros, d: Micros
  )
    requires later == now + d && ClustersLater(cs, cs', d) && n <= |cs|
    ensures Holder(cs', n, thin, timer, later) == Holder(cs, n, thin, timer, now)
  {
    forall j | 0 <= j < n ensures WeighAlike(cs, cs', j, thin, timer, now, later) {
      OutweighsLater(cs[j], cs'[j], thin, timer, now, later, d);
    }
    HoldersAlike(cs, cs', n, thin, timer, now, later);
  }

  lemma OutweighsLater(c: Cluster, c': Cluster, thin: nat, timer: Timer, now: Micros, later: Micros, d: Micros)
    requires later == now + d && AllLater(c, c', d)
    ensures Outweighs(c', thin, timer, later) == Outweighs(c, thin, timer, now)
  {
    LiveLater(c, c', timer, now, later, d);
    ReportersLater(c, c', d);
  }

  lemma ChoiceLater(
    cs: seq<Cluster>, cs': seq<Cluster>, timer: Timer, now: Micros, later: Micros, cfg: CircleConfig, d: Micros
  )
    requires later == now + d && ClustersLater(cs, cs', d) && cs != []
    ensures SelectCurrent(cs', timer, later, cfg) == SelectCurrent(cs, timer, now, cfg)
  {
    var latest := |cs| - 1;
    ReportersLater(cs[latest], cs'[latest], d);
    HolderLater(cs, cs', latest, |Reporters(cs[latest])|, timer, now, later, d);
  }

  lemma ContradictsLater(c: Cluster, c': Cluster, current: Cluster, current': Cluster, timer: Timer, d: Micros)
    requires AllLater(c, c', d) && AllLater(current, current', d)
    ensures Contradicts(c', current', timer) <==> Contradicts(c, current, timer)
    ensures Ids(c') == Ids(c)
  {
    EstimateLater(c, c', d);
    EstimateLater(current, current', d);
    EvidenceLater(c, c', d);
    assert Ids(c) == EvidenceOf(c).reportIds;
  }

  lemma {:induction false} ImplausibleLater(
    cs: seq<Cluster>, cs': seq<Cluster>, n: nat, current: nat, timer: Timer, d: Micros
  )
    requires ClustersLater(cs, cs', d) && current < |cs| && n <= |cs|
    ensures ImplausibleIds(cs', n, current, timer) == ImplausibleIds(cs, n, current, timer)
  {
    if n == 0 {
    } else {
      ContradictsLater(cs[n - 1], cs'[n - 1], cs[current], cs'[current], timer, d);
      ImplausibleLater(cs, cs', n - 1, current, timer, d);
    }
  }

  lemma OneMoreLater(c: Cluster, c': Cluster, cs: seq<Cluster>, cs': seq<Cluster>, d: Micros)
    requires AllLater(c, c', d) && ClustersLater(cs, cs', d)
    ensures ClustersLater([c] + cs, [c'] + cs', d)
  {
  }

  /** The two clusters at `j` are the same one later, live alike. */
  ghost predicate LiveAlike(
    cs: seq<Cluster>, cs': seq<Cluster>, j: nat, timer: Timer, now: Micros, later: Micros, d: Micros
  )
    requires j < |cs| == |cs'|
  {
    AllLater(cs[j], cs'[j], d) && Live(cs'[j], timer, later) == Live(cs[j], timer, now)
  }

  lemma {:induction false} RivalsAlike(
    cs: seq<Cluster>, cs': seq<Cluster>, n: nat, current: nat, timer: Timer, now: Micros, later: Micros, d: Micros
  )
    requires n <= |cs| == |cs'| && forall j :: 0 <= j < n ==> LiveAlike(cs, cs', j, timer, now, later, d)
    ensures ClustersLater(Rivals(cs, n, current, timer, now), Rivals(cs', n, current, timer, later), d)
  {
    if n == 0 {
    } else {
      var older, older' := Rivals(cs, n - 1, current, timer, now), Rivals(cs', n - 1, current, timer, later);
      RivalsAlike(cs, cs', n - 1, current, timer, now, later, d);
      assert LiveAlike(cs, cs', n - 1, timer, now, later, d);
      OneMoreLater(cs[n - 1], cs'[n - 1], older, older', d);
    }
  }

  lemma RivalsLater(
    cs: seq<Cluster>, cs': seq<Cluster>, current: nat, timer: Timer, now: Micros, later: Micros, d: Micros
  )
    requires later == now + d && ClustersLater(cs, cs', d)
    ensures ClustersLater(Rivals(cs, |cs|, current, timer, now), Rivals(cs', |cs'|, current, timer, later), d)
  {
    forall j | 0 <= j < |cs| ensures LiveAlike(cs, cs', j, timer, now, later, d) {
      LiveLater(cs[j], cs'[j], timer, now, later, d);
    }
    RivalsAlike(cs, cs', |cs|, current, timer, now, later, d);
  }

  lemma RenderAllLater(rivals: seq<Cluster>, rivals': seq<Cluster>, timer: Timer, now: Micros, later: Micros, d: Micros)
    requires later == now + d && ClustersLater(rivals, rivals', d)
    ensures RenderAll(rivals', timer, later) == MoveAlternatives(RenderAll(rivals, timer, now), d)
  {
    forall i | 0 <= i < |rivals|
      ensures RenderAll(rivals', timer, later)[i] == MoveAlternatives(RenderAll(rivals, timer, now), d)[i]
    {
      RenderLater(rivals[i], rivals'[i], timer, now, later, d);
    }
  }

  lemma CappedMoves(s: seq<Alternative>, d: Micros)
    ensures Capped(MoveAlternatives(s, d)) == MoveAlternatives(Capped(s), d)
  {
  }

  lemma ThinlyAlike(
    cs: seq<Cluster>, cs': seq<Cluster>, current: nat, thin: nat, timer: Timer, now: Micros, later: Micros
  )
    requires current < |cs| == |cs'| && thin == |Reporters(cs[current])| == |Reporters(cs'[current])|
    requires forall j :: 0 <= j < current ==> WeighAlike(cs, cs', j, thin, timer, now, later)
    ensures ThinlySuperseded(cs', current, timer, later) <==> ThinlySuperseded(cs, current, timer, now)
  {
    forall j | 0 <= j < current ensures Outweighs(cs'[j], thin, timer, later) == Outweighs(cs[j], thin, timer, now) {
      assert WeighAlike(cs, cs', j, thin, timer, now, later);
    }
  }

  lemma ThinlyLater(
    cs: seq<Cluster>, cs': seq<Cluster>, current: nat, timer: Timer, now: Micros, later: Micros, d: Micros
  )
    requires later == now + d && ClustersLater(cs, cs', d) && current < |cs|
    ensures ThinlySuperseded(cs', current, timer, later) <==> ThinlySuperseded(cs, current, timer, now)
  {
    ReportersLater(cs[current], cs'[current], d);
    var thin := |Reporters(cs[current])|;
    forall j | 0 <= j < current ensures WeighAlike(cs, cs', j, thin, timer, now, later) {
      OutweighsLater(cs[j], cs'[j], thin, timer, now, later, d);
    }
    ThinlyAlike(cs, cs', current, thin, timer, now, later);
  }

  lemma ContestLater(
    cs: seq<Cluster>, cs': seq<Cluster>, choice: Choice, timer: Timer, now: Micros, later: Micros, ids: seq<Id>,
    d: Micros
  )
    requires later == now + d && ClustersLater(cs, cs', d) && choice.index < |cs|
    ensures ContestReasonOf(cs', choice, timer, later, ids) == ContestReasonOf(cs, choice, timer, now, ids)
  {
    ThinlyLater(cs, cs', choice.index, timer, now, later, d);
    EvidenceLater(cs[choice.index], cs'[choice.index], d);
  }

  lemma OthersLater(
    cs: seq<Cluster>, cs': seq<Cluster>, choice: Choice, timer: Timer, now: Micros, later: Micros, d: Micros
  )
    requires later == now + d && ClustersLater(cs, cs', d) && choice.index < |cs|
    ensures
      var ids := ImplausibleIds(cs, |cs|, choice.index, timer);
      && ImplausibleIds(cs', |cs'|, choice.index, timer) == ids
      && ContestReasonOf(cs', choice, timer, later, ids) == ContestReasonOf(cs, choice, timer, now, ids)
    ensures
      var rivals := Rivals(cs, |cs|, choice.index, timer, now);
      var rivals' := Rivals(cs', |cs'|, choice.index, timer, later);
      && |rivals'| == |rivals|
      && Capped(RenderAll(rivals', timer, later)) == MoveAlternatives(Capped(RenderAll(rivals, timer, now)), d)
  {
    ImplausibleLater(cs, cs', |cs|, choice.index, timer, d);
    ContestLater(cs, cs', choice, timer, now, later, ImplausibleIds(cs, |cs|, choice.index, timer), d);
    var rivals := Rivals(cs, |cs|, choice.index, timer, now);
    var rivals' := Rivals(cs', |cs'|, choice.index, timer, later);
    RivalsLater(cs, cs', choice.index, timer, now, later, d);
    RenderAllLater(rivals, rivals', timer, now, later, d);
    CappedMoves(RenderAll(rivals, timer, now), d);
  }

  /** What an answer says of the current cluster: its estimate, how far to trust it, and what is behind it. */
  ghost predicate Says(
    s: State, timer: Timer, died: Micros, now: Micros, upSince: Option<Micros>, sure: Confidence, ev: Evidence
  ) {
    && s.status == DeriveStatus(timer, Some(died), now, upSince)
    && s.diedAt == Some(died)
    && s.window == DeriveWindow(timer, Some(died), now)
    && s.confidence == sure
    && s.evidence == ev
  }

  lemma AnswerSays(cs: seq<Cluster>, choice: Choice, timer: Timer, now: Micros, upSince: Option<Micros>, s: State)
    requires choice.index < |cs| && s == StateFor(cs, choice, timer, now, upSince)
    ensures
      var c := cs[choice.index];
      Says(s, timer, Estimate(c), now, upSince, ConfidenceOf(c, Estimate(c)), EvidenceOf(c))
  {
  }

  /** The same of the current cluster, the instants aside. */
  ghost predicate CurrentMoved(s: State, s': State, d: Micros) {
    && s'.status == s.status
    && s'.diedAt == Move(s.diedAt, d)
    && s'.window == MoveWindow(s.window, d)
    && s'.confidence == s.confidence
    && s'.evidence == s.evidence
  }

  lemma SaidLater(
    s: State, s': State, timer: Timer, died: Micros, died': Micros, now: Micros, later: Micros,
    upSince: Option<Micros>, sure: Confidence, ev: Evidence, d: Micros
  )
    requires later == now + d && died' == died + d
    requires Says(s, timer, died, now, upSince, sure, ev) && Says(s', timer, died', later, Move(upSince, d), sure, ev)
    ensures CurrentMoved(s, s', d)
  {
    WindowLater(timer, died, died', now, later, d);
    StatusLater(timer, died, died', now, later, upSince, d);
  }

  lemma CurrentLater(
    cs: seq<Cluster>, cs': seq<Cluster>, choice: Choice, timer: Timer, now: Micros, later: Micros,
    upSince: Option<Micros>, d: Micros, s: State, s': State
  )
    requires later == now + d && ClustersLater(cs, cs', d) && choice.index < |cs|
    requires s == StateFor(cs, choice, timer, now, upSince)
    requires s' == StateFor(cs', choice, timer, later, Move(upSince, d))
    ensures CurrentMoved(s, s', d)
  {
    var c, c' := cs[choice.index], cs'[choice.index];
    assert AllLater(c, c', d);
    var died, died' := Estimate(c), Estimate(c');
    EstimateLater(c, c', d);
    ConfidenceLater(c, c', died, died', d);
    EvidenceLater(c, c', d);
    AnswerSays(cs, choice, timer, now, upSince, s);
    AnswerSays(cs', choice, timer, later, Move(upSince, d), s');
    SaidLater(s, s', timer, died, died', now, later, upSince, ConfidenceOf(c, died), EvidenceOf(c), d);
  }

  lemma StateForLater(
    cs: seq<Cluster>, cs': seq<Cluster>, choice: Choice, timer: Timer, now: Micros, later: Micros,
    upSince: Option<Micros>, d: Micros
  )
    requires later == now + d && ClustersLater(cs, cs', d) && choice.index < |cs|
    ensures StateFor(cs', choice, timer, later, Move(upSince, d)) ==
            MoveState(StateFor(cs, choice, timer, now, upSince), d)
  {
    var s, s' := StateFor(cs, choice, timer, now, upSince), StateFor(cs', choice, timer, later, Move(upSince, d));
    CurrentLater(cs, cs', choice, timer, now, later, upSince, d, s, s');
    OthersLater(cs, cs', choice, timer, now, later, d);
  }

  lemma StateLater(
    cs: seq<Cluster>, cs': seq<Cluster>, timer: Timer, now: Micros, later: Micros, cfg: CircleConfig,
    upSince: Option<Micros>,
    d: Micros
  )
    requires later == now + d && ClustersLater(cs, cs', d)
    ensures StateFrom(cs', timer, later, cfg, Move(upSince, d)) ==
            MoveState(StateFrom(cs, timer, now, cfg, upSince), d)
  {
    if cs == [] {
      BoundsLater(timer, None, None, now, later, upSince, d);
    } else {
      ChoiceLater(cs, cs', timer, now, later, cfg, d);
      StateForLater(cs, cs', SelectCurrent(cs, timer, now, cfg), timer, now, later, upSince, d);
    }
  }

  /**
   * Moving every died_at, every quake and `now` by one amount, and changing every reported_at at
   * will, moves every instant of the answer by that amount and changes nothing else.
   */
  lemma DeriveMovesWithTime(
    log: seq<Report>, log': seq<Report>, quakes: seq<Quake>, quakes': seq<Quake>,
    timer: Timer, now: Micros, later: Micros, cfg: CircleConfig, d: Micros
  )
    requires AllLater(log, log', d) && QuakesLater(quakes, quakes', d) && later == now + d
    ensures Derive(log', quakes', timer, later, cfg) == MoveState(Derive(log, quakes, timer, now, cfg), d)
  {
    var s, s' := Considered(log, quakes, timer), Considered(log', quakes', timer);
    ConsideredLater(log, log', quakes, quakes', timer, d);
    SortLater(s, s', d);
    SweepLater(Sort(s), Sort(s'), Epsilon(timer), d);
    StateLater(
      KillEvents(log, quakes, timer), KillEvents(log', quakes', timer),
      timer, now, later, cfg, UpSince(log, quakes, timer), d);
  }

  lemma RestampedLater(log: seq<Report>, log': seq<Report>)
    requires |log| == |log'|
    requires forall i :: 0 <= i < |log| ==> log'[i] == log[i].(reportedAt := log'[i].reportedAt)
    ensures AllLater(log, log', 0)
  {
  }

  /** Arrival times never show: reports may be re-stamped freely. */
  lemma DeriveIgnoresArrival(
    log: seq<Report>, log': seq<Report>, quakes: seq<Quake>, timer: Timer, now: Micros, cfg: CircleConfig
  )
    requires |log| == |log'|
    requires forall i :: 0 <= i < |log| ==> log'[i] == log[i].(reportedAt := log'[i].reportedAt)
    ensures Derive(log', quakes, timer, now, cfg) == Derive(log, quakes, timer, now, cfg)
  {
    RestampedLater(log, log');
    DeriveMovesWithTime(log, log', quakes, quakes, timer, now, now, cfg, 0);
    MoveByNothing(Derive(log, quakes, timer, now, cfg));
  }

  lemma MoveByNothing(state: State)
    ensures MoveState(state, 0) == state
  {
    assert MoveAlternatives(state.alternatives, 0) == state.alternatives;
  }
}
