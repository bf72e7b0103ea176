/** What is shown, what stands against it, and why it is called contested, said of the reports themselves. */
module ContestProperties {
  import opened Core
  import opened ConsensusTypes
  import opened Windows
  import opened WindowProperties
  import opened Clusters
  import opened SortProperties
  import opened SweepProperties
  import opened EstimateProperties
  import opened Derivation
  import opened Horizon
  import opened Accounting
  import opened LogAlgebra

  /** The different people behind a kill event. */
  function People(c: seq<Report>): set<Id> {
    set r | r in c :: r.reporter
  }

  /** Still in play: no window, or one not closed. */
  predicate InPlay(c: Cluster, t: Timer, now: Micros) {
    !HasWindow(t) || now <= ClosesAt(t, Estimate(c))
  }

  /** Still in play, and more people behind it than behind `than`. */
  predicate Heavier(c: Cluster, than: Cluster, t: Timer, now: Micros) {
    InPlay(c, t, now) && |People(c)| > |People(than)|
  }

  lemma HeavierIsOutweighing(c: Cluster, than: Cluster, t: Timer, now: Micros)
    ensures Outweighs(c, |Reporters(than)|, t, now) <==> Heavier(c, than, t, now)
  {
    OpenExactly(t, Estimate(c), now);
    assert People(c) == Reporters(c) && People(than) == Reporters(than);
  }

  // ---------------------------------------------------------------- which one is shown

  /**
   * The newest event is shown, unless the circle asks for more people than it has behind it and an older one in play
   * has more: then the newest such.
   */
  ghost predicate IsShown(cs: seq<Cluster>, i: nat, t: Timer, now: Micros, cfg: CircleConfig) {
    && i < |cs|
    && var newest := cs[|cs| - 1];
       if cfg.minReportersToSupersede > 1 && |People(newest)| < cfg.minReportersToSupersede
          && exists j :: 0 <= j < |cs| - 1 && Heavier(cs[j], newest, t, now)
       then
         && i < |cs| - 1 && Heavier(cs[i], newest, t, now)
         && forall j :: i < j < |cs| - 1 ==> !Heavier(cs[j], newest, t, now)
       else i == |cs| - 1
  }

  lemma ShownExactly(cs: seq<Cluster>, t: Timer, now: Micros, cfg: CircleConfig)
    requires cs != []
    ensures IsShown(cs, SelectCurrent(cs, t, now, cfg).index, t, now, cfg)
    ensures SelectCurrent(cs, t, now, cfg).pending <==> SelectCurrent(cs, t, now, cfg).index < |cs| - 1
  {
    var latest := |cs| - 1;
    assert People(cs[latest]) == Reporters(cs[latest]);
    PendingExactly(cs, t, now, cfg);
    forall j | 0 <= j < latest
      ensures Outweighs(cs[j], |Reporters(cs[latest])|, t, now) <==> Heavier(cs[j], cs[latest], t, now)
    {
      HeavierIsOutweighing(cs[j], cs[latest], t, now);
    }
  }

  // ---------------------------------------------------------------- contradictions

  /** A report of an event, other than the one shown at `died`, dated less than a respawn from it. */
  ghost predicate Contradicting(cs: seq<Cluster>, t: Timer, died: Micros, id: Id) {
    && t.kind != Unknown && t.openOffset.Some?
    && exists i :: 0 <= i < |cs| && Contradicted(cs[i], t, died, id)
  }

  ghost predicate Contradicted(c: Cluster, t: Timer, died: Micros, id: Id)
    requires t.openOffset.Some?
  {
    && Estimate(c) != died
    && died - t.openOffset.value * 1_000_000 < Estimate(c) < died + t.openOffset.value * 1_000_000
    && exists r :: r in c && r.id == id
  }

  /** Is this id flagged once `n` events have been looked at? */
  predicate FlaggedBy(cs: seq<Cluster>, current: nat, timer: Timer, id: Id, n: nat) {
    n <= |cs| && current < |cs| && id in ImplausibleIds(cs, n, current, timer)
  }

  lemma FlaggedStays(cs: seq<Cluster>, current: nat, timer: Timer, id: Id, n: nat)
    requires current < |cs| && n < |cs|
    ensures FlaggedBy(cs, current, timer, id, n) || NamedBy(cs, n, current, timer, id)
            ==> FlaggedBy(cs, current, timer, id, n + 1)
  {
    NamedOneMore(cs, n + 1, current, timer, id);
  }

  predicate PassesOn(p: nat -> bool, k: nat) {
    p(k) ==> p(k + 1)
  }

  /** What holds at `m` and passes from each to the next holds at `n`. */
  lemma {:induction false} HoldsOn(p: nat -> bool, m: nat, n: nat)
    requires m <= n && p(m) && forall k | m <= k < n :: PassesOn(p, k)
    ensures p(n)
    decreases n
  {
    if m < n {
      HoldsOn(p, m, n - 1);
      assert PassesOn(p, n - 1);
    }
  }

  /** What is flagged stays flagged as newer events are looked at. */
  lemma {:induction false} FlaggedToTheEnd(
    cs: seq<Cluster>, current: nat, timer: Timer, id: Id, first: nat, p: nat -> bool
  )
    requires current < |cs| && first <= |cs| && forall n :: p(n) <==> FlaggedBy(cs, current, timer, id, n)
    requires p(first)
    ensures p(|cs|)
  {
    forall k | first <= k < |cs| ensures PassesOn(p, k) {
      FlaggedStays(cs, current, timer, id, k);
    }
    HoldsOn(p, first, |cs|);
  }

  lemma {:induction false} NamedStays(cs: seq<Cluster>, i: nat, current: nat, timer: Timer, id: Id)
    requires current < |cs| && i < |cs| && NamedBy(cs, i, current, timer, id)
    ensures FlaggedBy(cs, current, timer, id, |cs|)
  {
    FlaggedStays(cs, current, timer, id, i);
    FlaggedToTheEnd(cs, current, timer, id, i + 1, (n: nat) => FlaggedBy(cs, current, timer, id, n));
  }

  lemma IdIsOfAReport(c: Cluster, id: Id)
    ensures id in Ids(c) <==> exists r :: r in c && r.id == id
  {
    if id in Ids(c) {
      var x :| 0 <= x < |c| && Ids(c)[x] == id;
      assert c[x] in c;
    }
    if r :| r in c && r.id == id {
      var x :| 0 <= x < |c| && c[x] == r;
      assert Ids(c)[x] == id;
    }
  }

  /** One event names one id exactly so. */
  lemma NamedExactly(cs: seq<Cluster>, i: nat, current: nat, t: Timer, id: Id)
    requires InOrder(cs) && i < |cs| && current < |cs| && t.kind != Unknown && t.openOffset.Some?
    ensures NamedBy(cs, i, current, t, id) <==> Contradicted(cs[i], t, Estimate(cs[current]), id)
  {
    if i != current {
      EstimatesIncrease(cs, Min(i, current), Max(i, current));
    }
    IdIsOfAReport(cs[i], id);
  }

  lemma FlaggedIsContradicting(cs: seq<Cluster>, current: nat, t: Timer, id: Id)
    requires InOrder(cs) && current < |cs| && t.kind != Unknown && t.openOffset.Some?
    requires id in ImplausibleIds(cs, |cs|, current, t)
    ensures Contradicting(cs, t, Estimate(cs[current]), id)
  {
    var i := ImplausibleOrigin(cs, |cs|, current, t, id);
    NamedExactly(cs, i, current, t, id);
  }

  lemma ContradictingIsFlagged(cs: seq<Cluster>, i: nat, current: nat, t: Timer, id: Id)
    requires InOrder(cs) && i < |cs| && current < |cs| && t.kind != Unknown && t.openOffset.Some?
    requires Contradicted(cs[i], t, Estimate(cs[current]), id)
    ensures id in ImplausibleIds(cs, |cs|, current, t)
  {
    NamedExactly(cs, i, current, t, id);
    NamedStays(cs, i, current, t, id);
  }

  lemma ImplausibleIn(cs: seq<Cluster>, current: nat, t: Timer, id: Id)
    requires InOrder(cs) && current < |cs|
    ensures id in ImplausibleIds(cs, |cs|, current, t) <==> Contradicting(cs, t, Estimate(cs[current]), id)
  {
    if t.kind == Unknown || t.openOffset.None? {
      NothingImplausible(cs, |cs|, current, t);
    } else if id in ImplausibleIds(cs, |cs|, current, t) {
      FlaggedIsContradicting(cs, current, t, id);
    } else if Contradicting(cs, t, Estimate(cs[current]), id) {
      var i :| 0 <= i < |cs| && Contradicted(cs[i], t, Estimate(cs[current]), id);
      ContradictingIsFlagged(cs, i, current, t, id);
    }
  }

  /**
   * A report is flagged exactly when it is of another kill event dated less than one respawn from the answer, and
   * none is without a timer; and the answer is contested as implausible exactly when some report is.
   */
  lemma ImplausibleExactly(log: seq<Report>, quakes: seq<Quake>, t: Timer, now: Micros, cfg: CircleConfig)
    ensures
      var state, cs := Derive(log, quakes, t, now, cfg), KillEvents(log, quakes, t);
      && (state.diedAt.Some? <==> cs != [])
      && (forall id :: id in state.implausibleReportIds <==>
            state.diedAt.Some? && Contradicting(cs, t, state.diedAt.value, id))
      && (state.contestReason == Some(ImplausibleOrdering) <==> exists id :: id in state.implausibleReportIds)
  {
    var state, cs := Derive(log, quakes, t, now, cfg), KillEvents(log, quakes, t);
    if cs != [] {
      GroupShape(Considered(log, quakes, t), Epsilon(t));
      var choice := SelectCurrent(cs, t, now, cfg);
      FlaggedExactly(cs, choice, t, now, UpSince(log, quakes, t), state);
    }
  }

  lemma FlaggedExactly(
    cs: seq<Cluster>, choice: Choice, t: Timer, now: Micros, upSince: Option<Micros>, state: State
  )
    requires InOrder(cs) && choice.index < |cs| && state == StateFor(cs, choice, t, now, upSince)
    ensures state.diedAt == Some(Estimate(cs[choice.index]))
    ensures forall id :: id in state.implausibleReportIds <==> Contradicting(cs, t, state.diedAt.value, id)
    ensures state.contestReason == Some(ImplausibleOrdering) <==> exists id :: id in state.implausibleReportIds
  {
    forall id ensures id in state.implausibleReportIds <==> Contradicting(cs, t, state.diedAt.value, id) {
      ImplausibleIn(cs, choice.index, t, id);
    }
    var ids := state.implausibleReportIds;
    assert ids != [] ==> ids[0] in ids;
  }

  // ---------------------------------------------------------------- the other reasons

  /** Between the first and the last of an event's reports. */
  function Apart(c: Cluster): Micros {
    c[|c| - 1].diedAt - c[0].diedAt
  }

  /** Why an answer with an event to show is contested, in order: the first of these that holds. */
  ghost predicate IsReason(
    reason: Option<ContestReason>, cs: seq<Cluster>, i: nat, t: Timer, now: Micros, flagged: bool
  )
    requires i < |cs|
  {
    if flagged then reason == Some(ImplausibleOrdering)
    else if i < |cs| - 1 then reason == Some(PendingSupersede)
    else if exists j :: 0 <= j < i && Heavier(cs[j], cs[i], t, now) then reason == Some(ThinSupersede)
    else reason == if Apart(cs[i]) > 300_000_000 then Some(WideSpread) else None
  }

  lemma ThinlyExactly(cs: seq<Cluster>, current: nat, t: Timer, now: Micros)
    requires current < |cs|
    ensures ThinlySuperseded(cs, current, t, now)
            <==> exists j :: 0 <= j < current && Heavier(cs[j], cs[current], t, now)
  {
    forall j | 0 <= j < current
      ensures Outweighs(cs[j], |Reporters(cs[current])|, t, now) <==> Heavier(cs[j], cs[current], t, now)
    {
      HeavierIsOutweighing(cs[j], cs[current], t, now);
    }
  }

  lemma ReasonFor(
    cs: seq<Cluster>, choice: Choice, t: Timer, now: Micros, upSince: Option<Micros>, state: State
  )
    requires choice.index < |cs| && (choice.pending <==> choice.index < |cs| - 1)
    requires state == StateFor(cs, choice, t, now, upSince)
    ensures IsReason(state.contestReason, cs, choice.index, t, now, state.implausibleReportIds != [])
  {
    ThinlyExactly(cs, choice.index, t, now);
  }

  /**
   * The whole of the contest: the event shown is the one the circle's threshold chooses, and the reason is the first
   * that holds of contradicted, held, outweighed by an older one still in play, and reports over five minutes apart.
   */
  lemma ContestExactly(log: seq<Report>, quakes: seq<Quake>, t: Timer, now: Micros, cfg: CircleConfig) returns (i: nat)
    requires KillEvents(log, quakes, t) != []
    ensures
      var state, cs := Derive(log, quakes, t, now, cfg), KillEvents(log, quakes, t);
      && IsShown(cs, i, t, now, cfg) && state.diedAt == Some(Estimate(cs[i]))
      && state.confidence == ConfidenceOf(cs[i], Estimate(cs[i])) && state.evidence == EvidenceOf(cs[i])
      && state.upSince == None && (state.status, state.window) == Project(t, state.diedAt, None, now)
      && state.asOf == now
      && IsReason(state.contestReason, cs, i, t, now, state.implausibleReportIds != [])
  {
    var state, cs := Derive(log, quakes, t, now, cfg), KillEvents(log, quakes, t);
    var choice := SelectCurrent(cs, t, now, cfg);
    i := choice.index;
    ShownExactly(cs, t, now, cfg);
    Shown(log, quakes, t, now, cfg);
    ReasonFor(cs, choice, t, now, UpSince(log, quakes, t), state);
    EmptySweep(Epsilon(t));
  }

  lemma EmptySweep(epsilon: Micros)
    ensures Group([], epsilon) == []
  {
  }

  /** With no report that counts there is nothing but the timer's kind, and whether a quake made the target up. */
  lemma NothingToShow(log: seq<Report>, quakes: seq<Quake>, t: Timer, now: Micros, cfg: CircleConfig)
    requires Considered(log, quakes, t) == []
    ensures
      var up := t.isQuakeTarget && quakes != [];
      var s := Derive(log, quakes, t, now, cfg);
      && s.status == (if up then Up else StatusUnknown) && s.upSince.Some? == up && s.diedAt == None
      && s.window == Window(t.kind, None, None, None, None, None, None) && s.asOf == now
      && s.confidence == ConfidenceUnknown && s.contestReason == None && s.evidence == Evidence(0, 0, 0, 0, 0, [])
      && s.alternatives == [] && s.alternativesTotal == 0 && s.implausibleReportIds == []
  {
    EmptySweep(Epsilon(t));
  }

  // ---------------------------------------------------------------- what is listed beside it

  /** One line of the alternatives is of this event. */
  ghost predicate Renders(a: Alternative, c: Cluster, t: Timer, now: Micros) {
    && a.diedAt == Estimate(c) && a.reportCount == |c| && a.distinctReporterCount == |People(c)|
    && a.window == Project(t, Some(a.diedAt), None, now).1 && a.confidence == ConfidenceOf(c, a.diedAt)
    && |a.reportIds| == |c| && forall x :: 0 <= x < |c| ==> a.reportIds[x] == c[x].id
  }

  lemma RendersExactly(c: Cluster, t: Timer, now: Micros)
    ensures Renders(RenderAlternative(c, t, now), c, t, now)
  {
    assert People(c) == Reporters(c);
  }

  function Range(first: nat, n: nat): (s: set<nat>)
    requires first <= n
    ensures forall i :: i in s <==> first <= i < n
    ensures |s| == n - first
  {
    if first == n then {} else Range(first, n - 1) + {n - 1}
  }

  /** The events in play beside the one shown. */
  function Others(cs: seq<Cluster>, current: nat, t: Timer, now: Micros): set<nat> {
    set i: nat | i < |cs| && i != current && InPlay(cs[i], t, now)
  }

  lemma OthersCounted(cs: seq<Cluster>, current: nat, first: nat, t: Timer, now: Micros)
    requires current < |cs| && LiveFrom(cs, first, t, now)
    ensures |Others(cs, current, t, now)| + (if Live(cs[current], t, now) then 1 else 0) == |cs| - first
  {
    forall i | 0 <= i < |cs| ensures InPlay(cs[i], t, now) <==> first <= i {
      OpenExactly(t, Estimate(cs[i]), now);
    }
    var inPlay := Range(first, |cs|);
    assert Others(cs, current, t, now) == inPlay - {current};
  }

  /** Every other event in play is counted, and three of them at most are listed, newest first, each as it is. */
  lemma AlternativesExactly(
    log: seq<Report>, quakes: seq<Quake>, t: Timer, now: Micros, cfg: CircleConfig, cs: seq<Cluster>, k: nat
  )
    requires cs == KillEvents(log, quakes, t) && cs != []
    ensures
      var state := Derive(log, quakes, t, now, cfg);
      var current := SelectCurrent(cs, t, now, cfg).index;
      && state.alternativesTotal == |Others(cs, current, t, now)|
      && |state.alternatives| == Min(3, state.alternativesTotal)
      && (k < |state.alternatives| ==>
            var i := NthNewest(|cs|, current, k);
            0 <= i < |cs| && i != current && Renders(state.alternatives[k], cs[i], t, now))
  {
    var current := SelectCurrent(cs, t, now, cfg).index;
    RivalsAccountedFor(log, quakes, t, now, cfg, cs, current);
    OthersCounted(cs, current, FirstLive(cs, |cs|, t, now), t, now);
    if k < |Derive(log, quakes, t, now, cfg).alternatives| {
      RendersExactly(cs[NthNewest(|cs|, current, k)], t, now);
    }
  }

  // ---------------------------------------------------------------- the evidence

  /** The places in the event a log line takes. */
  function LogLinePlaces(c: seq<Report>): set<nat> {
    set x | 0 <= x < |c| && c[x].source == LogLine
  }

  lemma {:induction false} OneMorePlace(front: seq<Report>, r: Report)
    ensures |LogLinePlaces(front + [r])| == |LogLinePlaces(front)| + (if r.source == LogLine then 1 else 0)
  {
    assert LogLinePlaces(front + [r]) == LogLinePlaces(front) + (if r.source == LogLine then {|front|} else {});
  }

  lemma {:induction false} OneMoreLine(front: seq<Report>, r: Report)
    ensures |LogLines(front + [r])| == |LogLines(front)| + (if r.source == LogLine then 1 else 0)
  {
    FilterAppend((x: Report) => x.source == LogLine, front, [r]);
  }

  lemma {:induction false} LogLinesCounted(c: seq<Report>)
    ensures |LogLines(c)| == |LogLinePlaces(c)|
  {
    if c == [] {
      assert LogLinePlaces(c) == {};
    } else {
      var front, r := c[..|c| - 1], c[|c| - 1];
      assert c == front + [r];
      LogLinesCounted(front);
      OneMorePlace(front, r);
      OneMoreLine(front, r);
    }
  }

  /** What the evidence says of the event behind it: how many reports, people, log lines and revoked, how far apart. */
  lemma EvidenceExactly(c: Cluster)
    requires Ordered(c)
    ensures
      var ev := EvidenceOf(c);
      && ev.reportCount == |c| && ev.distinctReporterCount == |People(c)|
      && ev.logLineCount == |LogLinePlaces(c)|
      && ev.revokedReporterCount == |set r | r in c && r.revoked :: r.reporter|
      && WholeSeconds(ev.spreadSeconds, Apart(c))
      && |ev.reportIds| == |c| && forall x :: 0 <= x < |c| ==> ev.reportIds[x] == c[x].id
  {
    LogLinesCounted(c);
    assert People(c) == Reporters(c);
    assert (set r | r in c && r.revoked :: r.reporter) == RevokedReporters(c);
  }

  // ---------------------------------------------------------------- which reports count

  /**
   * The reports an answer is built from: the kills no retraction names and, for a target quakes repop, none before
   * any quake.
   */
  lemma ConsideredExactly(log: seq<Report>, quakes: seq<Quake>, t: Timer, r: Report)
    ensures r in Considered(log, quakes, t) <==>
              && r in log && r.kind == Kill
              && !(exists q :: q in log && q.kind == Retraction && q.retracts == Some(r.id))
              && (t.isQuakeTarget ==> forall q :: q in quakes ==> q.occurredAt <= r.diedAt)
  {
    if QuakeApplies(quakes, t) {
      LatestQuakeIsMaximum(quakes);
    }
  }

  /** Within an event reports stand by the instant of death and, at one instant, by id. */
  lemma EventsInOrder(log: seq<Report>, quakes: seq<Quake>, t: Timer, i: nat, x: nat, y: nat)
    requires
      var cs := KillEvents(log, quakes, t);
      i < |cs| && x < y < |cs[i]|
    ensures
      var c := KillEvents(log, quakes, t)[i];
      c[x].diedAt < c[y].diedAt || (c[x].diedAt == c[y].diedAt && c[x].id <= c[y].id)
  {
    GroupShape(Considered(log, quakes, t), Epsilon(t));
    var c := KillEvents(log, quakes, t)[i];
    assert Ordered(c) && NotAfter(c[x], c[y]);
  }
}
