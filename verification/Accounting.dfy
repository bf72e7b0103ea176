/** Every kill event is accounted for: shown, listed as a rival, counted past the cap, or history. */
module Accounting {
  import opened Core
  import opened ConsensusTypes
  import opened Clusters
  import opened SortProperties
  import opened SweepProperties
  import opened Derivation
  import opened Horizon

  /** The live clusters are exactly those from `first` on. */
  ghost predicate LiveFrom(cs: seq<Cluster>, first: nat, timer: Timer, now: Micros) {
    first <= |cs| && forall i :: 0 <= i < |cs| ==> (Live(cs[i], timer, now) <==> first <= i)
  }

  /** The first live cluster; everything before it is history. */
  function FirstLive(cs: seq<Cluster>, n: nat, timer: Timer, now: Micros): (first: nat)
    requires n <= |cs|
    ensures first <= n
  {
    if n > 0 && Live(cs[n - 1], timer, now) then FirstLive(cs, n - 1, timer, now) else n
  }

  lemma {:induction false} LiveSuffix(cs: seq<Cluster>, n: nat, timer: Timer, now: Micros)
    requires InOrder(cs) && n <= |cs|
    ensures forall i :: 0 <= i < n ==> (Live(cs[i], timer, now) <==> FirstLive(cs, n, timer, now) <= i)
  {
    if n == 0 {
    } else {
      LiveSuffix(cs, n - 1, timer, now);
      if !Live(cs[n - 1], timer, now) {
        forall i: nat | i < n - 1 ensures !Live(cs[i], timer, now) {
          LiveIsUpwardClosed(cs, i, n - 1, timer, now);
        }
      }
    }
  }

  /** Counting back from the newest of `n` clusters and stepping over the current one. */
  function NthNewest(n: nat, current: nat, k: nat): int {
    if n - 1 - k > current || current >= n then n - 1 - k else n - 2 - k
  }

  /** Rivals by position alone: the suffix from `first`, newest first, less the current cluster. */
  function Suffix(cs: seq<Cluster>, n: nat, current: nat, first: nat): seq<Cluster>
    requires n <= |cs|
  {
    if n <= first then []
    else
      var older := Suffix(cs, n - 1, current, first);
      if n - 1 != current then [cs[n - 1]] + older else older
  }

  lemma {:induction false} RivalsAreSuffix(
    cs: seq<Cluster>, n: nat, current: nat, first: nat, timer: Timer, now: Micros
  )
    requires n <= |cs| && LiveFrom(cs, first, timer, now)
    ensures Rivals(cs, n, current, timer, now) == Suffix(cs, n, current, first)
  {
    if n == 0 {
    } else {
      RivalsAreSuffix(cs, n - 1, current, first, timer, now);
      assert Live(cs[n - 1], timer, now) <==> first <= n - 1;
    }
  }

  lemma {:induction false} SuffixCount(cs: seq<Cluster>, n: nat, current: nat, first: nat)
    requires first <= n <= |cs|
    ensures |Suffix(cs, n, current, first)| == n - first - (if first <= current < n then 1 else 0)
  {
    if first == n {
    } else {
      SuffixCount(cs, n - 1, current, first);
    }
  }

  lemma {:induction false} SuffixNth(cs: seq<Cluster>, n: nat, current: nat, first: nat, k: nat)
    requires n <= |cs| && k < |Suffix(cs, n, current, first)|
    ensures
      var i := NthNewest(n, current, k);
      first <= i < n && i != current && Suffix(cs, n, current, first)[k] == cs[i]
  {
    var older := Suffix(cs, n - 1, current, first);
    if n - 1 == current {
      assert Suffix(cs, n, current, first) == older;
      SuffixNth(cs, n - 1, current, first, k);
    } else {
      assert Suffix(cs, n, current, first) == [cs[n - 1]] + older;
      if k > 0 {
        assert ([cs[n - 1]] + older)[k] == older[k - 1];
        SuffixNth(cs, n - 1, current, first, k - 1);
      }
    }
  }

  /** The rivals are the live suffix, newest first, less the current cluster. */
  lemma RivalNth(cs: seq<Cluster>, current: nat, first: nat, timer: Timer, now: Micros, k: nat)
    requires LiveFrom(cs, first, timer, now)
    requires k < |Rivals(cs, |cs|, current, timer, now)|
    ensures
      var i := NthNewest(|cs|, current, k);
      first <= i < |cs| && i != current && Rivals(cs, |cs|, current, timer, now)[k] == cs[i]
  {
    RivalsAreSuffix(cs, |cs|, current, first, timer, now);
    SuffixNth(cs, |cs|, current, first, k);
  }

  /** What of the answer follows from the rivals alone. */
  lemma Listed(
    log: seq<Report>, quakes: seq<Quake>, timer: Timer, now: Micros, cfg: CircleConfig, cs: seq<Cluster>, current: nat
  )
    requires cs == KillEvents(log, quakes, timer) && cs != []
    requires current == SelectCurrent(cs, timer, now, cfg).index
    ensures
      var state, rivals := Derive(log, quakes, timer, now, cfg), Rivals(cs, |cs|, current, timer, now);
      && state.alternativesTotal == |rivals|
      && |state.alternatives| == Min(MAX_ALTERNATIVES, |rivals|)
      && (forall k :: 0 <= k < |state.alternatives| ==>
            state.alternatives[k] == RenderAlternative(rivals[k], timer, now))
      && state.evidence == EvidenceOf(cs[current])
      && state.implausibleReportIds == ImplausibleIds(cs, |cs|, current, timer)
  {
  }

  /**
   * Nothing is hidden silently: the live clusters are a suffix, each one is the current cluster or is
   * counted, and the alternatives on screen are the newest of them up to the cap.
   */
  lemma RivalsAccountedFor(
    log: seq<Report>, quakes: seq<Quake>, timer: Timer, now: Micros, cfg: CircleConfig, cs: seq<Cluster>, current: nat
  )
    requires cs == KillEvents(log, quakes, timer) && cs != []
    requires current == SelectCurrent(cs, timer, now, cfg).index
    ensures
      var state, first := Derive(log, quakes, timer, now, cfg), FirstLive(cs, |cs|, timer, now);
      && LiveFrom(cs, first, timer, now)
      && state.alternativesTotal + (if Live(cs[current], timer, now) then 1 else 0) == |cs| - first
      && |state.alternatives| == Min(MAX_ALTERNATIVES, state.alternativesTotal)
      && forall k :: 0 <= k < |state.alternatives| ==>
           && 0 <= NthNewest(|cs|, current, k) < |cs|
           && NthNewest(|cs|, current, k) != current
           && state.alternatives[k] == RenderAlternative(cs[NthNewest(|cs|, current, k)], timer, now)
  {
    GroupShape(Considered(log, quakes, timer), Epsilon(timer));
    Listed(log, quakes, timer, now, cfg, cs, current);
    var state := Derive(log, quakes, timer, now, cfg);
    SuffixShown(cs, current, timer, now, Rivals(cs, |cs|, current, timer, now), state.alternatives);
  }

  /** The same, of any clusters in order and any list that shows their rivals. */
  lemma SuffixShown(
    cs: seq<Cluster>, current: nat, timer: Timer, now: Micros, rivals: seq<Cluster>, shown: seq<Alternative>
  )
    requires InOrder(cs) && current < |cs| && rivals == Rivals(cs, |cs|, current, timer, now)
    requires |shown| == Min(MAX_ALTERNATIVES, |rivals|)
    requires forall k :: 0 <= k < |shown| ==> shown[k] == RenderAlternative(rivals[k], timer, now)
    ensures
      var first := FirstLive(cs, |cs|, timer, now);
      && LiveFrom(cs, first, timer, now)
      && |rivals| + (if Live(cs[current], timer, now) then 1 else 0) == |cs| - first
      && forall k :: 0 <= k < |shown| ==>
           && 0 <= NthNewest(|cs|, current, k) < |cs|
           && NthNewest(|cs|, current, k) != current
           && shown[k] == RenderAlternative(cs[NthNewest(|cs|, current, k)], timer, now)
  {
    var first := FirstLive(cs, |cs|, timer, now);
    LiveSuffix(cs, |cs|, timer, now);
    RivalsAreSuffix(cs, |cs|, current, first, timer, now);
    SuffixCount(cs, |cs|, current, first);
    forall k | 0 <= k < |shown|
      ensures 0 <= NthNewest(|cs|, current, k) < |cs| && NthNewest(|cs|, current, k) != current
      ensures shown[k] == RenderAlternative(cs[NthNewest(|cs|, current, k)], timer, now)
    {
      RivalNth(cs, current, first, timer, now, k);
    }
  }

  // ---------------------------------------------------------------- whose reports

  ghost predicate Disjoint(a: seq<Id>, b: seq<Id>) {
    forall id :: id in a ==> id !in b
  }

  /** Two kill events share no report id. */
  lemma ClustersDisjoint(cs: seq<Cluster>, reports: seq<Report>, i: nat, j: nat)
    requires InOrder(cs) && DrawnFrom(cs, reports) && KeyedById(reports)
    requires i < |cs| && j < |cs| && i != j
    ensures Disjoint(Ids(cs[i]), Ids(cs[j]))
  {
    assert Earlier(cs[Min(i, j)], cs[Max(i, j)]);
    assert cs[i] in cs && cs[j] in cs;
    forall a, b | a in cs[i] && b in cs[j] ensures a.id != b.id {
      assert a.diedAt != b.diedAt;
    }
  }

  /** Does this cluster put `id` among the contradictions? */
  ghost predicate NamedBy(cs: seq<Cluster>, i: nat, current: nat, timer: Timer, id: Id)
    requires i < |cs| && current < |cs|
  {
    i != current && Contradicts(cs[i], cs[current], timer) && id in Ids(cs[i])
  }

  lemma NamedOneMore(cs: seq<Cluster>, n: nat, current: nat, timer: Timer, id: Id)
    requires current < |cs| && 0 < n <= |cs|
    ensures id in ImplausibleIds(cs, n, current, timer)
            <==> id in ImplausibleIds(cs, n - 1, current, timer) || NamedBy(cs, n - 1, current, timer, id)
  {
  }

  /** Some cluster put each contradiction there. */
  lemma {:induction false} ImplausibleOrigin(cs: seq<Cluster>, n: nat, current: nat, timer: Timer, id: Id)
    returns (i: nat)
    requires current < |cs| && n <= |cs| && id in ImplausibleIds(cs, n, current, timer)
    ensures i < n && NamedBy(cs, i, current, timer, id)
  {
    NamedOneMore(cs, n, current, timer, id);
    if NamedBy(cs, n - 1, current, timer, id) {
      i := n - 1;
    } else {
      i := ImplausibleOrigin(cs, n - 1, current, timer, id);
    }
  }

  ghost predicate NamesOnly(ids: seq<Id>, reports: seq<Report>) {
    forall id :: id in ids ==> exists r :: r in reports && r.id == id
  }

  lemma ClusterNames(cs: seq<Cluster>, reports: seq<Report>, i: nat)
    requires DrawnFrom(cs, reports) && i < |cs|
    ensures NamesOnly(Ids(cs[i]), reports)
  {
    forall id | id in Ids(cs[i]) ensures exists r :: r in reports && r.id == id {
      var x :| 0 <= x < |cs[i]| && cs[i][x].id == id;
      assert cs[i] in cs && cs[i][x] in cs[i];
    }
  }

  /** No report is both the evidence and a contradiction of it, or listed under two rivals. */
  ghost predicate NamedOnce(state: State, kills: seq<Report>) {
    && NamesOnly(state.evidence.reportIds, kills)
    && NamesOnly(state.implausibleReportIds, kills)
    && Disjoint(state.implausibleReportIds, state.evidence.reportIds)
    && (forall k :: 0 <= k < |state.alternatives| ==>
          && NamesOnly(state.alternatives[k].reportIds, kills)
          && Disjoint(state.alternatives[k].reportIds, state.evidence.reportIds))
    && forall k, l :: 0 <= k < l < |state.alternatives| ==>
         Disjoint(state.alternatives[k].reportIds, state.alternatives[l].reportIds)
  }

  lemma ReportsNamedOnce(log: seq<Report>, quakes: seq<Quake>, timer: Timer, now: Micros, cfg: CircleConfig)
    requires KeyedById(log)
    ensures NamedOnce(Derive(log, quakes, timer, now, cfg), Considered(log, quakes, timer))
  {
    var kills, cs := Considered(log, quakes, timer), KillEvents(log, quakes, timer);
    if cs != [] {
      var state, current := Derive(log, quakes, timer, now, cfg), SelectCurrent(cs, timer, now, cfg).index;
      GroupShape(kills, Epsilon(timer));
      Listed(log, quakes, timer, now, cfg, cs, current);
      ClustersNamedOnce(cs, kills, current, timer, now);
      NamedAsClustersAre(
        state, kills, Ids(cs[current]), ImplausibleIds(cs, |cs|, current, timer),
        Rivals(cs, |cs|, current, timer, now));
    }
  }

  lemma ClustersNamedOnce(cs: seq<Cluster>, kills: seq<Report>, current: nat, timer: Timer, now: Micros)
    requires InOrder(cs) && DrawnFrom(cs, kills) && KeyedById(kills) && current < |cs|
    ensures
      var rivals, implausible := Rivals(cs, |cs|, current, timer, now), ImplausibleIds(cs, |cs|, current, timer);
      && NamesOnly(Ids(cs[current]), kills)
      && NamesOnly(implausible, kills) && Disjoint(implausible, Ids(cs[current]))
      && (forall k :: 0 <= k < |rivals| ==>
            NamesOnly(Ids(rivals[k]), kills) && Disjoint(Ids(rivals[k]), Ids(cs[current])))
      && forall k, l :: 0 <= k < l < |rivals| ==> Disjoint(Ids(rivals[k]), Ids(rivals[l]))
  {
    LiveSuffix(cs, |cs|, timer, now);
    ClusterNames(cs, kills, current);
    ImplausibleNamedOnce(cs, kills, current, timer);
    RivalsNamedOnce(cs, kills, current, FirstLive(cs, |cs|, timer, now), timer, now);
  }

  lemma NamedAsClustersAre(
    state: State, kills: seq<Report>, evidence: seq<Id>, implausible: seq<Id>, rivals: seq<Cluster>
  )
    requires state.evidence.reportIds == evidence && state.implausibleReportIds == implausible
    requires |state.alternatives| <= |rivals|
    requires forall k :: 0 <= k < |state.alternatives| ==> state.alternatives[k].reportIds == Ids(rivals[k])
    requires NamesOnly(evidence, kills) && NamesOnly(implausible, kills) && Disjoint(implausible, evidence)
    requires forall k :: 0 <= k < |rivals| ==> NamesOnly(Ids(rivals[k]), kills) && Disjoint(Ids(rivals[k]), evidence)
    requires forall k, l :: 0 <= k < l < |rivals| ==> Disjoint(Ids(rivals[k]), Ids(rivals[l]))
    ensures NamedOnce(state, kills)
  {
  }

  lemma RivalsNamedOnce(
    cs: seq<Cluster>, kills: seq<Report>, current: nat, first: nat, timer: Timer, now: Micros
  )
    requires InOrder(cs) && DrawnFrom(cs, kills) && KeyedById(kills) && current < |cs|
    requires LiveFrom(cs, first, timer, now)
    ensures
      var rivals := Rivals(cs, |cs|, current, timer, now);
      && (forall k :: 0 <= k < |rivals| ==>
            NamesOnly(Ids(rivals[k]), kills) && Disjoint(Ids(rivals[k]), Ids(cs[current])))
      && forall k, l :: 0 <= k < l < |rivals| ==> Disjoint(Ids(rivals[k]), Ids(rivals[l]))
  {
    var rivals := Rivals(cs, |cs|, current, timer, now);
    forall k | 0 <= k < |rivals|
      ensures NamesOnly(Ids(rivals[k]), kills) && Disjoint(Ids(rivals[k]), Ids(cs[current]))
    {
      RivalNth(cs, current, first, timer, now, k);
      ClusterNames(cs, kills, NthNewest(|cs|, current, k));
      ClustersDisjoint(cs, kills, NthNewest(|cs|, current, k), current);
    }
    forall k, l | 0 <= k < l < |rivals|
      ensures Disjoint(Ids(rivals[k]), Ids(rivals[l]))
    {
      RivalNth(cs, current, first, timer, now, k);
      RivalNth(cs, current, first, timer, now, l);
      ClustersDisjoint(cs, kills, NthNewest(|cs|, current, k), NthNewest(|cs|, current, l));
    }
  }

  lemma ImplausibleNamedOnce(cs: seq<Cluster>, kills: seq<Report>, current: nat, timer: Timer)
    requires InOrder(cs) && DrawnFrom(cs, kills) && KeyedById(kills) && current < |cs|
    ensures
      var ids := ImplausibleIds(cs, |cs|, current, timer);
      NamesOnly(ids, kills) && Disjoint(ids, Ids(cs[current]))
  {
    var ids := ImplausibleIds(cs, |cs|, current, timer);
    forall id | id in ids
      ensures id !in Ids(cs[current]) && exists r :: r in kills && r.id == id
    {
      var i := ImplausibleOrigin(cs, |cs|, current, timer, id);
      ClusterNames(cs, kills, i);
      ClustersDisjoint(cs, kills, i, current);
    }
  }

  /**
   * A pending supersede holds the newest live cluster with strictly more reporters than the latest,
   * which is itself under the threshold; what it holds is never overdue.
   */
  lemma PendingHoldsTheBetterCluster(
    log: seq<Report>, quakes: seq<Quake>, timer: Timer, now: Micros, cfg: CircleConfig, cs: seq<Cluster>
  )
    requires cs == KillEvents(log, quakes, timer) && cs != []
    ensures
      var state, choice, latest := Derive(log, quakes, timer, now, cfg), SelectCurrent(cs, timer, now, cfg), |cs| - 1;
      var thin := |Reporters(cs[latest])|;
      && (choice.pending <==>
            thin < cfg.minReportersToSupersede && exists i :: 0 <= i < latest && Outweighs(cs[i], thin, timer, now))
      && (choice.pending ==>
            && Outweighs(cs[choice.index], thin, timer, now)
            && (forall i :: choice.index < i < latest ==> !Outweighs(cs[i], thin, timer, now))
            && state.status != Overdue)
      && (!choice.pending ==> choice.index == latest)
      && (state.contestReason == Some(PendingSupersede) ==> choice.pending)
      && (choice.pending ==>
            state.contestReason == Some(PendingSupersede) || state.contestReason == Some(ImplausibleOrdering))
  {
    PendingExactly(cs, timer, now, cfg);
    Shown(log, quakes, timer, now, cfg);
  }

  /** The choice on its own. */
  lemma PendingExactly(cs: seq<Cluster>, timer: Timer, now: Micros, cfg: CircleConfig)
    requires cs != [] && cs[|cs| - 1] != []
    ensures
      var choice, latest := SelectCurrent(cs, timer, now, cfg), |cs| - 1;
      var thin := |Reporters(cs[latest])|;
      && (choice.pending <==>
            thin < cfg.minReportersToSupersede && exists i :: 0 <= i < latest && Outweighs(cs[i], thin, timer, now))
      && (choice.pending ==>
            && Outweighs(cs[choice.index], thin, timer, now)
            && forall i :: choice.index < i < latest ==> !Outweighs(cs[i], thin, timer, now))
      && (!choice.pending ==> choice.index == latest)
  {
    var latest := |cs| - 1;
    var r := cs[latest][0];
    assert r.reporter in Reporters(cs[latest]);
    HolderIsNewest(cs, latest, |Reporters(cs[latest])|, timer, now);
  }
}
