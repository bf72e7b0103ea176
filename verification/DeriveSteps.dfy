/** The derivation as it runs: loops over maps and slices, each proved to compute its specification. */
module DeriveSteps {
  import opened Core
  import opened ConsensusTypes
  import opened Windows
  import opened Clusters
  import opened SortProperties
  import opened Derivation

  /** The ids retractions name, less those known to be retractions themselves. */
  function Named(s: seq<Report>, kinds: map<Id, ReportKind>): set<Id> {
    set q | q in s && q.kind == Retraction && q.retracts.Some?
            && !(q.retracts.value in kinds && kinds[q.retracts.value] != Kill) :: q.retracts.value
  }

  lemma NamedKills(log: seq<Report>, kinds: map<Id, ReportKind>)
    requires KeyedById(log)
    requires forall id :: id in kinds ==> exists r :: r in log && r.id == id && r.kind == kinds[id]
    ensures forall r :: r in log && r.kind == Kill ==> (r.id in Named(log, kinds) <==> IsRetracted(r.id, log))
  {
    forall r | r in log && r.kind == Kill
      ensures r.id in Named(log, kinds) <==> IsRetracted(r.id, log)
    {
      if IsRetracted(r.id, log) {
        var q :| q in log && q.kind == Retraction && q.retracts == Some(r.id);
        assert q.retracts.value == r.id;
      }
    }
  }

  /** Which row each id names. */
  method KindsOf(reports: seq<Report>) returns (kinds: map<Id, ReportKind>)
    ensures forall id :: id in kinds ==> exists r :: r in reports && r.id == id && r.kind == kinds[id]
    ensures forall r :: r in reports ==> r.id in kinds
  {
    kinds := map[];
    for i := 0 to |reports|
      invariant forall id :: id in kinds ==> exists r :: r in reports && r.id == id && r.kind == kinds[id]
      invariant forall r :: r in reports[..i] ==> r.id in kinds
    {
      kinds := kinds[reports[i].id := reports[i].kind];
    }
    assert reports[..|reports|] == reports;
  }

  method RetractedIds(reports: seq<Report>, kinds: map<Id, ReportKind>) returns (retracted: set<Id>)
    ensures retracted == Named(reports, kinds)
  {
    retracted := {};
    for i := 0 to |reports|
      invariant retracted == Named(reports[..i], kinds)
    {
      var r := reports[i];
      assert reports[..i + 1] == reports[..i] + [r];
      if r.kind != Retraction || r.retracts.None? {
        continue;
      }
      var target := r.retracts.value;
      if target in kinds && kinds[target] != Kill {
        continue;
      }
      retracted := retracted + {target};
    }
    assert reports[..|reports|] == reports;
  }

  /** The kills nothing retracts, in the order of the log. */
  method StandingKills(reports: seq<Report>, retracted: set<Id>) returns (kills: seq<Report>)
    requires forall r :: r in reports && r.kind == Kill ==> (r.id in retracted <==> IsRetracted(r.id, reports))
    ensures kills == Retained(reports)
  {
    kills := [];
    for i := 0 to |reports|
      invariant kills == Filter((r: Report) => Stands(r, reports), reports[..i])
    {
      var r := reports[i];
      assert reports[..i + 1] == reports[..i] + [r];
      FilterAppend((r: Report) => Stands(r, reports), reports[..i], [r]);
      if r.kind != Kill || r.id in retracted {
        continue;
      }
      kills := kills + [r];
    }
    assert reports[..|reports|] == reports;
  }

  method FoldRetractions(reports: seq<Report>) returns (kills: seq<Report>)
    requires KeyedById(reports)
    ensures kills == Retained(reports)
  {
    var kinds := KindsOf(reports);
    var retracted := RetractedIds(reports, kinds);
    NamedKills(reports, kinds);
    kills := StandingKills(reports, retracted);
  }

  method TruncateAtQuake(kills: seq<Report>, quakes: seq<Quake>, timer: Timer)
    returns (after: seq<Report>, upSince: Option<Micros>)
    ensures after == AfterQuake(kills, quakes, timer)
    ensures upSince == if QuakeApplies(quakes, timer) && after == [] then Some(LatestQuake(quakes)) else None
  {
    if !timer.isQuakeTarget || |quakes| == 0 {
      return kills, None;
    }
    var latest := quakes[0].occurredAt;
    for i := 1 to |quakes|
      invariant latest == LatestQuake(quakes[..i])
    {
      assert quakes[..i + 1][..i] == quakes[..i];
      if quakes[i].occurredAt > latest {
        latest := quakes[i].occurredAt;
      }
    }
    assert quakes[..|quakes|] == quakes;
    after := [];
    for i := 0 to |kills|
      invariant after == Filter((r: Report) => r.diedAt >= LatestQuake(quakes), kills[..i])
    {
      assert kills[..i + 1] == kills[..i] + [kills[i]];
      FilterAppend((r: Report) => r.diedAt >= LatestQuake(quakes), kills[..i], [kills[i]]);
      if kills[i].diedAt >= latest {
        after := after + [kills[i]];
      }
    }
    assert kills[..|kills|] == kills;
    upSince := if |after| == 0 then Some(latest) else None;
  }

  method DistinctReporters(members: seq<Report>) returns (n: nat)
    ensures n == |Reporters(members)|
  {
    var reporters: set<Id> := {};
    for i := 0 to |members|
      invariant reporters == Reporters(members[..i])
    {
      reporters := reporters + {members[i].reporter};
      assert members[..i + 1] == members[..i] + [members[i]];
    }
    assert members[..|members|] == members;
    n := |reporters|;
  }

  /** The two tests every scan of older clusters makes: still live, and strictly more reporters. */
  method IsHeavier(c: Cluster, thin: nat, timer: Timer, now: Micros) returns (heavier: bool)
    ensures heavier == Outweighs(c, thin, timer, now)
  {
    var died := EstimateCluster(c);
    if !WindowStillOpen(timer, died, now) {
      return false;
    }
    var reporters := DistinctReporters(c);
    return reporters > thin;
  }

  method SelectCurrentCluster(cs: seq<Cluster>, timer: Timer, now: Micros, cfg: CircleConfig) returns (choice: Choice)
    requires cs != []
    ensures choice == SelectCurrent(cs, timer, now, cfg)
  {
    var latest := |cs| - 1;
    if cfg.minReportersToSupersede <= 1 {
      return Choice(latest, false);
    }
    var thin := DistinctReporters(cs[latest]);
    if thin >= cfg.minReportersToSupersede {
      return Choice(latest, false);
    }
    var i := latest;
    while i > 0
      invariant 0 <= i <= latest
      invariant Holder(cs, latest, thin, timer, now) == Holder(cs, i, thin, timer, now)
    {
      i := i - 1;
      var heavier := IsHeavier(cs[i], thin, timer, now);
      if heavier {
        return Choice(i, true);
      }
    }
    return Choice(latest, false);
  }

  method IsThinlySuperseded(cs: seq<Cluster>, current: nat, timer: Timer, now: Micros) returns (thinly: bool)
    requires current < |cs|
    ensures thinly == ThinlySuperseded(cs, current, timer, now)
  {
    var thin := DistinctReporters(cs[current]);
    for i := 0 to current
      invariant forall j :: 0 <= j < i ==> !Outweighs(cs[j], thin, timer, now)
    {
      var heavier := IsHeavier(cs[i], thin, timer, now);
      if heavier {
        return true;
      }
    }
    return false;
  }

  method CollectIds(members: seq<Report>) returns (ids: seq<Id>)
    ensures ids == Ids(members)
  {
    ids := [];
    for j := 0 to |members|
      invariant ids == Ids(members)[..j]
    {
      ids := ids + [members[j].id];
    }
  }

  method ImplausibleReportIds(cs: seq<Cluster>, current: nat, timer: Timer) returns (out: seq<Id>)
    requires current < |cs|
    ensures out == ImplausibleIds(cs, |cs|, current, timer)
  {
    out := [];
    if timer.kind == Unknown || timer.openOffset.None? {
      NothingImplausible(cs, |cs|, current, timer);
      return;
    }
    var respawn := timer.openOffset.value * MICROS_PER_SECOND;
    var shown := EstimateCluster(cs[current]);
    for i := 0 to |cs|
      invariant out == ImplausibleIds(cs, i, current, timer)
    {
      if i == current {
        continue;
      }
      var died := EstimateCluster(cs[i]);
      assert Contradicts(cs[i], cs[current], timer) == (Abs(died - shown) < respawn);
      if Abs(died - shown) >= respawn {
        continue;
      }
      var ids := CollectIds(cs[i]);
      out := out + ids;
    }
  }

  lemma RenderOneMore(cs: seq<Cluster>, c: Cluster, timer: Timer, now: Micros)
    ensures RenderAll(cs + [c], timer, now) == RenderAll(cs, timer, now) + [RenderAlternative(c, timer, now)]
  {
  }

  lemma EvidenceOneMore(members: Cluster, i: nat)
    requires i < |members|
    ensures
      var r, before, after := members[i], members[..i], members[..i + 1];
      && Ids(members)[..i + 1] == Ids(members)[..i] + [r.id]
      && Reporters(after) == Reporters(before) + {r.reporter}
      && RevokedReporters(after) == RevokedReporters(before) + (if r.revoked then {r.reporter} else {})
      && |LogLines(after)| == |LogLines(before)| + (if r.source == LogLine then 1 else 0)
  {
    assert members[..i + 1] == members[..i] + [members[i]];
    PeopleOneMore(members[..i], members[i]);
    FilterAppend((r: Report) => r.source == LogLine, members[..i], [members[i]]);
  }

  lemma PeopleOneMore(before: seq<Report>, r: Report)
    ensures Reporters(before + [r]) == Reporters(before) + {r.reporter}
    ensures RevokedReporters(before + [r]) == RevokedReporters(before) + (if r.revoked then {r.reporter} else {})
  {
  }

  method CountEvidence(members: Cluster) returns (ev: Evidence)
    ensures ev == EvidenceOf(members)
  {
    var ids: seq<Id> := [];
    var reporters: set<Id> := {};
    var revoked: set<Id> := {};
    var logLines := 0;
    for i := 0 to |members|
      invariant ids == Ids(members)[..i]
      invariant reporters == Reporters(members[..i])
      invariant revoked == RevokedReporters(members[..i])
      invariant logLines == |LogLines(members[..i])|
    {
      var r := members[i];
      EvidenceOneMore(members, i);
      ids := ids + [r.id];
      reporters := reporters + {r.reporter};
      if r.revoked {
        revoked := revoked + {r.reporter};
      }
      if r.source == LogLine {
        logLines := logLines + 1;
      }
    }
    assert members[..|members|] == members;
    var spread := members[|members| - 1].diedAt - members[0].diedAt;
    ev := Evidence(|members|, |reporters|, logLines, TruncDiv(spread, MICROS_PER_SECOND), |revoked|, ids);
  }

  lemma NearOneMore(members: seq<Report>, i: nat, died: Micros)
    requires i < |members|
    ensures
      var r, before, after := members[i], Near(members[..i], died), Near(members[..i + 1], died);
      after == if Abs(r.diedAt - died) <= SPREAD_TOLERANCE then before + [r] else before
  {
    assert members[..i + 1] == members[..i] + [members[i]];
    FilterAppend((r: Report) => Abs(r.diedAt - died) <= SPREAD_TOLERANCE, members[..i], [members[i]]);
  }

  method IsCorroborated(members: seq<Report>, died: Micros) returns (yes: bool)
    ensures yes == Corroborated(members, died)
  {
    var near: set<Id> := {};
    var logLineOnEstimate := false;
    for i := 0 to |members|
      invariant near == Reporters(Near(members[..i], died))
      invariant logLineOnEstimate == HasLogLine(Near(members[..i], died))
    {
      var r := members[i];
      NearOneMore(members, i, died);
      if Abs(r.diedAt - died) > SPREAD_TOLERANCE {
        continue;
      }
      near := near + {r.reporter};
      if r.source == LogLine {
        logLineOnEstimate := true;
      }
    }
    assert members[..|members|] == members;
    yes := logLineOnEstimate && |near| > 1;
  }

  method Confide(members: Cluster, died: Micros) returns (c: Confidence)
    ensures c == ConfidenceOf(members, died)
  {
    var reporters: set<Id> := {};
    var anyLogLine := false;
    for i := 0 to |members|
      invariant reporters == Reporters(members[..i])
      invariant anyLogLine == HasLogLine(members[..i])
    {
      assert members[..i + 1] == members[..i] + [members[i]];
      reporters := reporters + {members[i].reporter};
      anyLogLine := anyLogLine || members[i].source == LogLine;
    }
    assert members[..|members|] == members;
    if |reporters| == 1 {
      return if anyLogLine then Medium else Low;
    }
    if Spread(members) <= SPREAD_TOLERANCE {
      return High;
    }
    var corroborated := IsCorroborated(members, died);
    return if corroborated then High else Medium;
  }

  /** One more cluster considered, going back in time. */
  lemma SplitRival(
    whole: seq<Cluster>, newer: seq<Cluster>, cs: seq<Cluster>, i: nat, current: nat, timer: Timer, now: Micros,
    skip: bool
  )
    requires i < |cs| && skip == (i == current || !Live(cs[i], timer, now))
    requires whole == newer + Rivals(cs, i + 1, current, timer, now)
    ensures whole == (if skip then newer else newer + [cs[i]]) + Rivals(cs, i, current, timer, now)
  {
    if !skip {
      var older := Rivals(cs, i, current, timer, now);
      assert newer + ([cs[i]] + older) == (newer + [cs[i]]) + older;
    }
  }

  /** Is this one passed over: the current cluster, or one whose window is long past? */
  method Skipped(cs: seq<Cluster>, i: nat, current: nat, timer: Timer, now: Micros) returns (skip: bool)
    requires i < |cs|
    ensures skip == (i == current || !Live(cs[i], timer, now))
  {
    if i == current {
      return true;
    }
    var died := EstimateCluster(cs[i]);
    return !WindowStillOpen(timer, died, now);
  }

  method Render(c: Cluster, timer: Timer, now: Micros) returns (a: Alternative)
    ensures a == RenderAlternative(c, timer, now)
  {
    var died := EstimateCluster(c);
    var ev := CountEvidence(c);
    var confidence := Confide(c, died);
    a := Alternative(
      died, ev.reportCount, ev.distinctReporterCount, confidence,
      DeriveWindow(timer, Some(died), now), ev.reportIds);
  }

  /** Newest first, before the cap. */
  method LiveAlternatives(cs: seq<Cluster>, current: nat, timer: Timer, now: Micros) returns (live: seq<Alternative>)
    requires current < |cs|
    ensures live == RenderAll(Rivals(cs, |cs|, current, timer, now), timer, now)
  {
    live := [];
    ghost var whole := Rivals(cs, |cs|, current, timer, now);
    ghost var rivals: seq<Cluster> := [];
    var i := |cs|;
    while i > 0
      invariant 0 <= i <= |cs|
      invariant whole == rivals + Rivals(cs, i, current, timer, now)
      invariant live == RenderAll(rivals, timer, now)
    {
      i := i - 1;
      var skip := Skipped(cs, i, current, timer, now);
      SplitRival(whole, rivals, cs, i, current, timer, now, skip);
      if !skip {
        var rendered := Render(cs[i], timer, now);
        RenderOneMore(rivals, cs[i], timer, now);
        live := live + [rendered];
        rivals := rivals + [cs[i]];
      }
    }
  }

  method AlternativesOf(cs: seq<Cluster>, current: nat, timer: Timer, now: Micros)
    returns (live: seq<Alternative>, total: nat)
    requires current < |cs|
    ensures live == Capped(RenderAll(Rivals(cs, |cs|, current, timer, now), timer, now))
    ensures total == |Rivals(cs, |cs|, current, timer, now)|
  {
    live := LiveAlternatives(cs, current, timer, now);
    total := |live|;
    if total > MAX_ALTERNATIVES {
      live := live[..MAX_ALTERNATIVES];
    }
  }

  method Contest(cs: seq<Cluster>, choice: Choice, timer: Timer, now: Micros, implausible: seq<Id>)
    returns (reason: Option<ContestReason>)
    requires choice.index < |cs|
    ensures reason == ContestReasonOf(cs, choice, timer, now, implausible)
  {
    if |implausible| > 0 {
      return Some(ImplausibleOrdering);
    }
    if choice.pending {
      return Some(PendingSupersede);
    }
    var thinly := IsThinlySuperseded(cs, choice.index, timer, now);
    if thinly {
      return Some(ThinSupersede);
    }
    if Spread(cs[choice.index]) > SPREAD_TOLERANCE {
      return Some(WideSpread);
    }
    return None;
  }

  /** The whole run: every field is assigned as the steps produce it. */
  method Run(reports: seq<Report>, quakes: seq<Quake>, timer: Timer, now: Micros, cfg: CircleConfig)
    returns (state: State)
    requires KeyedById(reports)
    ensures state == Derive(reports, quakes, timer, now, cfg)
  {
    state := State(
      StatusUnknown, None, None, DeriveWindow(timer, None, now), ConfidenceUnknown, None, [], 0, NO_EVIDENCE, [], now);
    var kills := FoldRetractions(reports);
    var upSince;
    kills, upSince := TruncateAtQuake(kills, quakes, timer);
    state := state.(upSince := upSince);
    var clusters := ClusterReports(kills, Epsilon(timer));
    if |clusters| == 0 {
      return state.(status := DeriveStatus(timer, None, now, upSince));
    }
    var choice := SelectCurrentCluster(clusters, timer, now, cfg);
    var current := clusters[choice.index];
    var died := EstimateCluster(current);
    state := state.(diedAt := Some(died));
    state := state.(status := DeriveStatus(timer, Some(died), now, upSince));
    state := state.(window := DeriveWindow(timer, Some(died), now));
    var confidence := Confide(current, died);
    var evidence := CountEvidence(current);
    var implausible := ImplausibleReportIds(clusters, choice.index, timer);
    var alternatives, total := AlternativesOf(clusters, choice.index, timer, now);
    var reason := Contest(clusters, choice, timer, now, implausible);
    state := state.(
      confidence := confidence, evidence := evidence, implausibleReportIds := implausible,
      alternatives := alternatives, alternativesTotal := total, contestReason := reason);
  }
}
