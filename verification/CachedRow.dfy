/** What of a cached row a later derivation still gives, and when its contest reason is out of date. */
module CachedRow {
  import opened Core
  import opened ConsensusTypes
  import opened Windows
  import opened Clusters
  import opened SortProperties
  import opened SweepProperties
  import opened EstimateProperties
  import opened Derivation
  import opened Horizon

  /** The cluster shown at `now` is the one shown later: it was not held, or its window is still open. */
  predicate StillShown(
    log: seq<Report>, quakes: seq<Quake>, timer: Timer, cfg: CircleConfig, now: Micros, later: Micros
  ) {
    var cs := KillEvents(log, quakes, timer);
    Pending(log, quakes, timer, now, cfg) ==> Live(cs[SelectCurrent(cs, timer, now, cfg).index], timer, later)
  }

  /** The fields that are of the chosen cluster alone. */
  lemma ShownFields(cs: seq<Cluster>, choice: Choice, timer: Timer, now: Micros, upSince: Option<Micros>, s: State)
    requires choice.index < |cs| && s == StateFor(cs, choice, timer, now, upSince)
    ensures
      var c := cs[choice.index];
      && s.diedAt == Some(Estimate(c)) && s.confidence == ConfidenceOf(c, Estimate(c)) && s.evidence == EvidenceOf(c)
      && s.implausibleReportIds == ImplausibleIds(cs, |cs|, choice.index, timer)
      && s.contestReason == ContestReasonOf(cs, choice, timer, now, s.implausibleReportIds)
  {
  }

  /**
   * The estimate of a cached row is a later derivation's exactly while the same cluster is shown, and until then so
   * are its confidence, its evidence and the reports it contradicts.
   */
  lemma CachedFieldsHold(
    log: seq<Report>, quakes: seq<Quake>, timer: Timer, cfg: CircleConfig, now: Micros, later: Micros
  )
    requires now <= later
    ensures
      var cached, derived := Derive(log, quakes, timer, now, cfg), Derive(log, quakes, timer, later, cfg);
      && (derived.diedAt == cached.diedAt <==> StillShown(log, quakes, timer, cfg, now, later))
      && (StillShown(log, quakes, timer, cfg, now, later) ==>
            && derived.confidence == cached.confidence && derived.evidence == cached.evidence
            && derived.implausibleReportIds == cached.implausibleReportIds)
  {
    var cs, upSince := KillEvents(log, quakes, timer), UpSince(log, quakes, timer);
    if cs != [] {
      GroupShape(Considered(log, quakes, timer), Epsilon(timer));
      var before, after := SelectCurrent(cs, timer, now, cfg), SelectCurrent(cs, timer, later, cfg);
      ChoiceOverTime(cs, timer, cfg, now, later);
      ShownFields(cs, before, timer, now, upSince, Derive(log, quakes, timer, now, cfg));
      ShownFields(cs, after, timer, later, upSince, Derive(log, quakes, timer, later, cfg));
      if before.index < after.index {
        EstimatesIncrease(cs, before.index, after.index);
      }
    }
  }

  // ---------------------------------------------------------------- the contest reason

  /** Some older cluster with more reporters than the newest has its window open. */
  predicate HeavierLive(cs: seq<Cluster>, timer: Timer, now: Micros) {
    cs != [] && ThinlySuperseded(cs, |cs| - 1, timer, now)
  }

  /** Some older cluster is closer to the newest than one respawn. */
  predicate NewestContradicted(cs: seq<Cluster>, timer: Timer) {
    cs != [] && exists i | 0 <= i < |cs| - 1 :: Contradicts(cs[i], cs[|cs| - 1], timer)
  }

  lemma {:induction false} ContradictionIsNamed(cs: seq<Cluster>, n: nat, current: nat, timer: Timer, i: nat)
    requires i < n <= |cs| && current < |cs| && i != current && Contradicts(cs[i], cs[current], timer)
    ensures ImplausibleIds(cs, n, current, timer) != []
  {
    if i == n - 1 {
      assert |Ids(cs[i])| > 0;
    } else {
      ContradictionIsNamed(cs, n - 1, current, timer, i);
    }
  }

  lemma NamedExactly(cs: seq<Cluster>, timer: Timer)
    requires cs != []
    ensures ImplausibleIds(cs, |cs|, |cs| - 1, timer) != [] <==> NewestContradicted(cs, timer)
  {
    var latest := |cs| - 1;
    if NewestContradicted(cs, timer) {
      var i :| 0 <= i < latest && Contradicts(cs[i], cs[latest], timer);
      ContradictionIsNamed(cs, |cs|, latest, timer, i);
    } else {
      NothingImplausible(cs, |cs|, latest, timer);
    }
  }

  /** Of one and the same cluster only one reason depends on the instant. */
  lemma ReasonOverTime(cs: seq<Cluster>, choice: Choice, timer: Timer, now: Micros, later: Micros, ids: seq<Id>)
    requires choice.index < |cs| && InOrder(cs) && now <= later && (!choice.pending ==> choice.index == |cs| - 1)
    ensures
      var was, reason := ContestReasonOf(cs, choice, timer, now, ids), ContestReasonOf(cs, choice, timer, later, ids);
      reason == was <==> (was == Some(ThinSupersede) ==> HeavierLive(cs, timer, later))
  {
    var thin := |Reporters(cs[choice.index])|;
    if ThinlySuperseded(cs, choice.index, timer, later) {
      var i :| 0 <= i < choice.index && Outweighs(cs[i], thin, timer, later);
      LiveBefore(cs[i], timer, now, later);
      assert Outweighs(cs[i], thin, timer, now);
    }
  }

  lemma LiveBefore(c: Cluster, timer: Timer, now: Micros, later: Micros)
    requires now <= later && Live(c, timer, later)
    ensures Live(c, timer, now)
  {
  }

  /**
   * While the same cluster is shown, a cached contest reason is a later derivation's exactly unless it was that the
   * cluster superseded a better-attested one, and none such has its window open any more.
   */
  lemma ReasonWhileShown(
    log: seq<Report>, quakes: seq<Quake>, timer: Timer, cfg: CircleConfig, now: Micros, later: Micros
  )
    requires now <= later && StillShown(log, quakes, timer, cfg, now, later)
    ensures
      var cached, derived := Derive(log, quakes, timer, now, cfg), Derive(log, quakes, timer, later, cfg);
      derived.contestReason == cached.contestReason <==>
        (cached.contestReason == Some(ThinSupersede) ==> HeavierLive(KillEvents(log, quakes, timer), timer, later))
  {
    var cs, upSince := KillEvents(log, quakes, timer), UpSince(log, quakes, timer);
    var cached, derived := Derive(log, quakes, timer, now, cfg), Derive(log, quakes, timer, later, cfg);
    if cs != [] {
      var choice := SelectCurrent(cs, timer, now, cfg);
      GroupShape(Considered(log, quakes, timer), Epsilon(timer));
      ChoiceOverTime(cs, timer, cfg, now, later);
      ShownFields(cs, choice, timer, now, upSince, cached);
      ShownFields(cs, choice, timer, later, upSince, derived);
      ReasonOverTime(cs, choice, timer, now, later, cached.implausibleReportIds);
    }
  }

  /** Once a held cluster has given way it is so only if that one and the newest both contradict others. */
  lemma ReasonAfterHolding(
    log: seq<Report>, quakes: seq<Quake>, timer: Timer, cfg: CircleConfig, now: Micros, later: Micros
  )
    requires now <= later && !StillShown(log, quakes, timer, cfg, now, later)
    ensures
      var cached, derived := Derive(log, quakes, timer, now, cfg), Derive(log, quakes, timer, later, cfg);
      derived.contestReason == cached.contestReason <==>
        cached.contestReason == Some(ImplausibleOrdering) && NewestContradicted(KillEvents(log, quakes, timer), timer)
  {
    var cs, upSince := KillEvents(log, quakes, timer), UpSince(log, quakes, timer);
    var cached, derived := Derive(log, quakes, timer, now, cfg), Derive(log, quakes, timer, later, cfg);
    var held := SelectCurrent(cs, timer, now, cfg);
    GroupShape(Considered(log, quakes, timer), Epsilon(timer));
    ChoiceOverTime(cs, timer, cfg, now, later);
    ReasonGivesWay(cs, held, timer, now, later, upSince, cached, derived);
  }

  lemma ReasonGivesWay(
    cs: seq<Cluster>, held: Choice, timer: Timer, now: Micros, later: Micros, upSince: Option<Micros>,
    cached: State, derived: State
  )
    requires cs != [] && held.index < |cs| && held.pending
    requires cached == StateFor(cs, held, timer, now, upSince)
    requires derived == StateFor(cs, Choice(|cs| - 1, false), timer, later, upSince)
    ensures derived.contestReason == cached.contestReason <==>
              cached.contestReason == Some(ImplausibleOrdering) && NewestContradicted(cs, timer)
  {
    ShownFields(cs, held, timer, now, upSince, cached);
    ShownFields(cs, Choice(|cs| - 1, false), timer, later, upSince, derived);
    GivesWay(cs, held, timer, now, later, cached.implausibleReportIds, derived.implausibleReportIds);
  }

  /** Once the held cluster has given way, only a contradiction on both sides leaves the reason as it was. */
  lemma GivesWay(
    cs: seq<Cluster>, held: Choice, timer: Timer, now: Micros, later: Micros, ids: seq<Id>, ids': seq<Id>
  )
    requires cs != [] && held.index < |cs| && held.pending && ids' == ImplausibleIds(cs, |cs|, |cs| - 1, timer)
    ensures
      var was := ContestReasonOf(cs, held, timer, now, ids);
      ContestReasonOf(cs, Choice(|cs| - 1, false), timer, later, ids') == was
      <==> was == Some(ImplausibleOrdering) && NewestContradicted(cs, timer)
  {
    NamedExactly(cs, timer);
  }

  /** Three people and two kills: contested while the better-attested one could still spawn, and cached so for good. */
  lemma ContestOutlivesItsReason(cfg: CircleConfig, now: Micros, later: Micros)
    requires cfg == CircleConfig(1) && now == 2500 * SECOND && later == 4000 * SECOND
    ensures Derive(LATE_KILL, [], BAND, now, cfg).contestReason == Some(ThinSupersede)
    ensures Derive(LATE_KILL, [], BAND, later, cfg).contestReason != Some(ThinSupersede)
  {
    var cs := KillEvents(LATE_KILL, [], BAND);
    LateKillEvents();
    ThinOnlyAtFirst(cs, now, later);
    ReasonByDefault(LATE_KILL, [], BAND, now, cfg, cs);
    ReasonByDefault(LATE_KILL, [], BAND, later, cfg, cs);
  }

  /** At the default threshold the newest cluster is shown, and the reason is one for it. */
  lemma ReasonByDefault(
    log: seq<Report>, quakes: seq<Quake>, timer: Timer, now: Micros, cfg: CircleConfig, cs: seq<Cluster>
  )
    requires cs == KillEvents(log, quakes, timer) && cs != [] && cfg.minReportersToSupersede <= 1
    ensures
      var latest := |cs| - 1;
      Derive(log, quakes, timer, now, cfg).contestReason
      == ContestReasonOf(cs, Choice(latest, false), timer, now, ImplausibleIds(cs, |cs|, latest, timer))
  {
    var s := Derive(log, quakes, timer, now, cfg);
    ShownFields(cs, SelectCurrent(cs, timer, now, cfg), timer, now, UpSince(log, quakes, timer), s);
  }

  lemma ThinOnlyAtFirst(cs: seq<Cluster>, now: Micros, later: Micros)
    requires cs == [[KillAt(1, 1, 0), KillAt(2, 2, 0)], [KillAt(3, 3, 2000)]]
    requires now == 2500 * SECOND && later == 4000 * SECOND
    ensures ImplausibleIds(cs, |cs|, 1, BAND) == []
    ensures ThinlySuperseded(cs, 1, BAND, now) && !ThinlySuperseded(cs, 1, BAND, later)
  {
    HeldUntilClosed(cs, CircleConfig(2), now, later);
    NothingImplausible(cs, |cs|, 1, BAND);
    assert Reporters(cs[1]) == {3};
    TwoReporters(cs[0]);
    assert Outweighs(cs[0], 1, BAND, now);
    assert !Live(cs[0], BAND, later);
  }
}
