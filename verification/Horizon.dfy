/** What the derivation does as `now` advances, and exactly how long a cached estimate stays right. */
module Horizon {
  import opened Core
  import opened ConsensusTypes
  import opened Windows
  import opened Clusters
  import opened SortProperties
  import opened SweepProperties
  import opened EstimateProperties
  import opened Derivation

  /** Kill events in order: each ordered inside, each strictly before the next. */
  ghost predicate InOrder(cs: seq<Cluster>) {
    Separated(cs) && forall c :: c in cs ==> Ordered(c)
  }

  lemma GroupShape(reports: seq<Report>, epsilon: Micros)
    requires epsilon >= 0
    ensures InOrder(Group(reports, epsilon))
    ensures DrawnFrom(Group(reports, epsilon), reports)
    ensures forall r :: r in reports ==>
            exists i :: 0 <= i < |Group(reports, epsilon)| && r in Group(reports, epsilon)[i]
  {
    var s := Sort(reports);
    SortOrdered(reports);
    SweepSeparates(s, epsilon);
    SweepDrawn(s, epsilon);
    SweepDivides(s, epsilon);
    forall r | r in reports
      ensures exists i :: 0 <= i < |Group(reports, epsilon)| && r in Group(reports, epsilon)[i]
    {
      FlattenMember(Group(reports, epsilon), r);
    }
  }

  /** A cluster that is live keeps every later cluster live: live clusters form a suffix. */
  lemma LiveIsUpwardClosed(cs: seq<Cluster>, i: nat, j: nat, timer: Timer, now: Micros)
    requires InOrder(cs) && i < j < |cs|
    ensures Live(cs[i], timer, now) ==> Live(cs[j], timer, now)
  {
    EstimatesIncrease(cs, i, j);
  }

  lemma NoneBelow(cs: seq<Cluster>, n: nat, thin: nat, timer: Timer, now: Micros)
    requires InOrder(cs) && n < |cs| && !Live(cs[n], timer, now)
    ensures Holder(cs, n, thin, timer, now) == None
  {
    HolderIsNewest(cs, n, thin, timer, now);
    var h := Holder(cs, n, thin, timer, now);
    if h.Some? {
      LiveIsUpwardClosed(cs, h.value, n, timer, now);
    }
  }

  /** As time passes a held cluster keeps the board until its window closes, and nothing replaces it. */
  lemma {:induction false} HolderOverTime(cs: seq<Cluster>, n: nat, thin: nat, timer: Timer, now: Micros, later: Micros)
    requires InOrder(cs) && n <= |cs| && now <= later
    ensures
      var h := Holder(cs, n, thin, timer, now);
      && (h.Some? ==> h.value < n)
      && Holder(cs, n, thin, timer, later) ==
         if h.Some? && Live(cs[h.value], timer, later) then h else None
  {
    if n == 0 {
    } else {
      HolderOverTime(cs, n - 1, thin, timer, now, later);
      if !Live(cs[n - 1], timer, later) {
        NoneBelow(cs, n - 1, thin, timer, later);
      }
      if !Live(cs[n - 1], timer, now) {
        NoneBelow(cs, n - 1, thin, timer, now);
      }
    }
  }

  /** Is the shown answer one that `min_reporters_to_supersede` is holding in place? */
  predicate Pending(log: seq<Report>, quakes: seq<Quake>, timer: Timer, now: Micros, cfg: CircleConfig) {
    var cs := KillEvents(log, quakes, timer);
    cs != [] && SelectCurrent(cs, timer, now, cfg).pending
  }

  lemma ChoiceOverTime(cs: seq<Cluster>, timer: Timer, cfg: CircleConfig, now: Micros, later: Micros)
    requires cs != [] && InOrder(cs) && now <= later
    ensures
      var before, after := SelectCurrent(cs, timer, now, cfg), SelectCurrent(cs, timer, later, cfg);
      after == if before.pending && Live(cs[before.index], timer, later) then before else Choice(|cs| - 1, false)
  {
    var latest := |cs| - 1;
    HolderOverTime(cs, latest, |Reporters(cs[latest])|, timer, now, later);
  }

  /** What of the answer follows from the chosen cluster alone. */
  lemma Shown(log: seq<Report>, quakes: seq<Quake>, timer: Timer, now: Micros, cfg: CircleConfig)
    requires KillEvents(log, quakes, timer) != []
    ensures
      var cs, state := KillEvents(log, quakes, timer), Derive(log, quakes, timer, now, cfg);
      var died := Estimate(cs[SelectCurrent(cs, timer, now, cfg).index]);
      && state.diedAt == Some(died)
      && state.upSince == UpSince(log, quakes, timer)
      && (state.status, state.window) == Project(timer, Some(died), state.upSince, now)
  {
  }

  lemma WindowsDiffer(timer: Timer, upSince: Option<Micros>, died: Micros, died': Micros, now: Micros)
    requires died != died' && ResolveBounds(timer, died).Some?
    ensures Project(timer, Some(died), upSince, now) != Project(timer, Some(died'), upSince, now)
  {
    assert DeriveWindow(timer, Some(died), now).openAt != DeriveWindow(timer, Some(died'), now).openAt;
  }

  /**
   * The horizon of the cache. Re-rendering a stored estimate at a later instant gives the status and
   * the window a fresh derivation would give, exactly until a held cluster's window has closed.
   */
  lemma ProjectHorizon(
    log: seq<Report>, quakes: seq<Quake>, timer: Timer, cfg: CircleConfig, now: Micros, later: Micros
  )
    requires now <= later
    ensures
      var cached, derived := Derive(log, quakes, timer, now, cfg), Derive(log, quakes, timer, later, cfg);
      Project(timer, cached.diedAt, cached.upSince, later) == (derived.status, derived.window)
      <==> !Pending(log, quakes, timer, now, cfg) || WindowStillOpen(timer, cached.diedAt.value, later)
  {
    var cs := KillEvents(log, quakes, timer);
    if cs != [] {
      GroupShape(Considered(log, quakes, timer), Epsilon(timer));
      ChoiceOverTime(cs, timer, cfg, now, later);
      Shown(log, quakes, timer, now, cfg);
      Shown(log, quakes, timer, later, cfg);
      var held, latest := SelectCurrent(cs, timer, now, cfg), |cs| - 1;
      if held.pending && !Live(cs[held.index], timer, later) {
        EstimatesIncrease(cs, held.index, latest);
        WindowsDiffer(timer, UpSince(log, quakes, timer), Estimate(cs[held.index]), Estimate(cs[latest]), later);
      }
    }
  }

  /** A circle that has not raised its threshold never has a stale estimate. */
  lemma ProjectNeverStaleByDefault(
    log: seq<Report>, quakes: seq<Quake>, timer: Timer, cfg: CircleConfig, now: Micros, later: Micros
  )
    requires now <= later && cfg.minReportersToSupersede <= 1
    ensures
      var cached, derived := Derive(log, quakes, timer, now, cfg), Derive(log, quakes, timer, later, cfg);
      Project(timer, cached.diedAt, cached.upSince, later) == (derived.status, derived.window)
  {
    ProjectHorizon(log, quakes, timer, cfg, now, later);
  }

  /** With no new rows the estimate never moves back, and moves at most once. */
  lemma EstimateMovesOnce(
    log: seq<Report>, quakes: seq<Quake>, timer: Timer, cfg: CircleConfig, t0: Micros, t1: Micros, t2: Micros
  )
    requires t0 <= t1 <= t2
    ensures
      var d0 := Derive(log, quakes, timer, t0, cfg).diedAt;
      var d1 := Derive(log, quakes, timer, t1, cfg).diedAt;
      var d2 := Derive(log, quakes, timer, t2, cfg).diedAt;
      && (d0.Some? <==> d1.Some?)
      && (d0.Some? ==> d0.value <= d1.value)
      && (d0 != d1 ==> d2 == d1)
      && (d0 != d1 ==> Pending(log, quakes, timer, t0, cfg) && !WindowStillOpen(timer, d0.value, t1))
  {
    var cs := KillEvents(log, quakes, timer);
    if cs != [] {
      GroupShape(Considered(log, quakes, timer), Epsilon(timer));
      ChoiceOverTime(cs, timer, cfg, t0, t1);
      ChoiceOverTime(cs, timer, cfg, t1, t2);
      Shown(log, quakes, timer, t0, cfg);
      Shown(log, quakes, timer, t1, cfg);
      Shown(log, quakes, timer, t2, cfg);
      var held, latest := SelectCurrent(cs, timer, t0, cfg).index, |cs| - 1;
      if held < latest {
        EstimatesIncrease(cs, held, latest);
      }
    }
  }

  // ---------------------------------------------------------------- a cache past its horizon

  const SECOND: Micros := MICROS_PER_SECOND

  function KillAt(id: Id, reporter: Id, second: int): Report {
    Report(id, Kill, second * SECOND, second * SECOND, reporter, false, Manual, None)
  }

  /** Two people report a death, and one person another two thousand seconds later. */
  const LATE_KILL: seq<Report> := [KillAt(1, 1, 0), KillAt(2, 2, 0), KillAt(3, 3, 2000)]

  const BAND := Timer(Variance, Some(1200), Some(3600), 0, None, false)

  lemma LateKillEvents()
    ensures KillEvents(LATE_KILL, [], BAND) == [[KillAt(1, 1, 0), KillAt(2, 2, 0)], [KillAt(3, 3, 2000)]]
  {
    var a, b, c := KillAt(1, 1, 0), KillAt(2, 2, 0), KillAt(3, 3, 2000);
    assert LATE_KILL == [a, b, c] && [a, b, c][1..] == [b, c] && [b, c][1..] == [c];
    FilterAll((r: Report) => Stands(r, LATE_KILL), LATE_KILL);
    assert Sort([c]) == [c];
    assert Sort([b, c]) == [b, c];
    assert Sort([a, b, c]) == [a, b, c];
    LateKillSweep(a, b, c, Epsilon(BAND));
  }

  lemma LateKillSweep(a: Report, b: Report, c: Report, e: Micros)
    requires a == KillAt(1, 1, 0) && b == KillAt(2, 2, 0) && c == KillAt(3, 3, 2000) && e == 300 * SECOND
    ensures Sweep([a, b, c], e) == [[a, b], [c]]
  {
    assert [a, b, c][..2] == [a, b] && [a, b][..1] == [a] && [a][..0] == [];
    assert Sweep([a], e) == [[a]];
    assert [a] + [b] == [a, b];
    assert Sweep([a, b], e) == [[a, b]];
  }

  /** The first kill is held while its window is open, so a row cached then is wrong once it has closed. */
  lemma HorizonPassed(cfg: CircleConfig, now: Micros, later: Micros)
    requires cfg == CircleConfig(2) && now == 2500 * SECOND && later == 4000 * SECOND
    ensures
      var cached, derived := Derive(LATE_KILL, [], BAND, now, cfg), Derive(LATE_KILL, [], BAND, later, cfg);
      && Pending(LATE_KILL, [], BAND, now, cfg)
      && cached.diedAt == Some(0) && derived.diedAt == Some(2000 * SECOND)
      && Project(BAND, cached.diedAt, cached.upSince, later) != (derived.status, derived.window)
  {
    var cs := KillEvents(LATE_KILL, [], BAND);
    LateKillEvents();
    HeldUntilClosed(cs, cfg, now, later);
    Shown(LATE_KILL, [], BAND, now, cfg);
    Shown(LATE_KILL, [], BAND, later, cfg);
    ProjectHorizon(LATE_KILL, [], BAND, cfg, now, later);
  }

  lemma HeldUntilClosed(cs: seq<Cluster>, cfg: CircleConfig, now: Micros, later: Micros)
    requires cs == [[KillAt(1, 1, 0), KillAt(2, 2, 0)], [KillAt(3, 3, 2000)]]
    requires cfg == CircleConfig(2) && now == 2500 * SECOND && later == 4000 * SECOND
    ensures SelectCurrent(cs, BAND, now, cfg) == Choice(0, true)
    ensures SelectCurrent(cs, BAND, later, cfg) == Choice(1, false)
    ensures Estimate(cs[0]) == 0 && Estimate(cs[1]) == 2000 * SECOND
    ensures !WindowStillOpen(BAND, Estimate(cs[0]), later)
  {
    TwoReporters(cs[0]);
    assert Reporters(cs[1]) == {3};
    assert Holder(cs, 1, 1, BAND, now) == Some(0);
    assert Holder(cs, 0, 1, BAND, later) == None;
  }

  lemma TwoReporters(c: Cluster)
    requires c == [KillAt(1, 1, 0), KillAt(2, 2, 0)]
    ensures |Reporters(c)| == 2 && !HasLogLine(c)
  {
    assert c[0] in c && c[1] in c;
    assert Reporters(c) == {1, 2};
  }
}
