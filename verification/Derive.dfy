/** The derivation, as functions of the report log: what each of its steps must compute. */
module Derivation {
  import opened Core
  import opened ConsensusTypes
  import opened Windows
  import opened Clusters

  const SPREAD_TOLERANCE: Micros := 5 * 60 * MICROS_PER_SECOND

  const MAX_ALTERNATIVES: nat := 3

  // ---------------------------------------------------------------- which kills count

  predicate IsRetracted(id: Id, log: seq<Report>) {
    exists q | q in log :: q.kind == Retraction && q.retracts == Some(id)
  }

  predicate Stands(r: Report, log: seq<Report>) {
    r.kind == Kill && !IsRetracted(r.id, log)
  }

  /** The kills no retraction names. */
  function Retained(log: seq<Report>): seq<Report> {
    Filter((r: Report) => Stands(r, log), log)
  }

  function LatestQuake(quakes: seq<Quake>): Micros
    requires quakes != []
  {
    if |quakes| == 1 then quakes[0].occurredAt
    else Max(LatestQuake(quakes[..|quakes| - 1]), quakes[|quakes| - 1].occurredAt)
  }

  predicate QuakeApplies(quakes: seq<Quake>, timer: Timer) {
    timer.isQuakeTarget && quakes != []
  }

  function AfterQuake(kills: seq<Report>, quakes: seq<Quake>, timer: Timer): seq<Report> {
    if QuakeApplies(quakes, timer)
    then Filter((r: Report) => r.diedAt >= LatestQuake(quakes), kills)
    else kills
  }

  /** The kills the current answer may be built from. */
  function Considered(log: seq<Report>, quakes: seq<Quake>, timer: Timer): seq<Report> {
    AfterQuake(Retained(log), quakes, timer)
  }

  function UpSince(log: seq<Report>, quakes: seq<Quake>, timer: Timer): Option<Micros> {
    if QuakeApplies(quakes, timer) && Considered(log, quakes, timer) == []
    then Some(LatestQuake(quakes))
    else None
  }

  function KillEvents(log: seq<Report>, quakes: seq<Quake>, timer: Timer): seq<Cluster> {
    Group(Considered(log, quakes, timer), Epsilon(timer))
  }

  // ---------------------------------------------------------------- one cluster

  function Reporters(members: seq<Report>): set<Id> {
    set r | r in members :: r.reporter
  }

  function RevokedReporters(members: seq<Report>): set<Id> {
    set r | r in members && r.revoked :: r.reporter
  }

  function Ids(members: seq<Report>): (ids: seq<Id>)
    ensures |ids| == |members|
  {
    seq(|members|, i requires 0 <= i < |members| => members[i].id)
  }

  function Spread(members: Cluster): Micros {
    members[|members| - 1].diedAt - members[0].diedAt
  }

  function EvidenceOf(members: Cluster): Evidence {
    Evidence(
      |members|,
      |Reporters(members)|,
      |LogLines(members)|,
      TruncDiv(Spread(members), MICROS_PER_SECOND),
      |RevokedReporters(members)|,
      Ids(members))
  }

  /** The reports within five minutes of the estimate. */
  function Near(members: seq<Report>, died: Micros): seq<Report> {
    Filter((r: Report) => Abs(r.diedAt - died) <= SPREAD_TOLERANCE, members)
  }

  predicate Corroborated(members: seq<Report>, died: Micros) {
    HasLogLine(Near(members, died)) && |Reporters(Near(members, died))| > 1
  }

  function ConfidenceOf(members: Cluster, died: Micros): Confidence {
    if |Reporters(members)| == 1 then (if HasLogLine(members) then Medium else Low)
    else if Spread(members) <= SPREAD_TOLERANCE || Corroborated(members, died) then High
    else Medium
  }

  // ---------------------------------------------------------------- between clusters

  predicate Live(c: Cluster, timer: Timer, now: Micros) {
    WindowStillOpen(timer, Estimate(c), now)
  }

  /** A live cluster with strictly more reporters than `thin`. */
  predicate Outweighs(c: Cluster, thin: nat, timer: Timer, now: Micros) {
    Live(c, timer, now) && |Reporters(c)| > thin
  }

  /** The newest of the first `n` clusters that outweighs `thin`. */
  function Holder(cs: seq<Cluster>, n: nat, thin: nat, timer: Timer, now: Micros): Option<nat>
    requires n <= |cs|
  {
    if n == 0 then None
    else if Outweighs(cs[n - 1], thin, timer, now) then Some(n - 1)
    else Holder(cs, n - 1, thin, timer, now)
  }

  datatype Choice = Choice(index: nat, pending: bool)

  function SelectCurrent(cs: seq<Cluster>, timer: Timer, now: Micros, cfg: CircleConfig): (c: Choice)
    requires cs != []
    ensures c.index < |cs|
    ensures !c.pending ==> c.index == |cs| - 1
    ensures c.pending ==> c.index < |cs| - 1
  {
    var latest := |cs| - 1;
    var thin := |Reporters(cs[latest])|;
    if cfg.minReportersToSupersede <= 1 || thin >= cfg.minReportersToSupersede then Choice(latest, false)
    else
      HolderIsNewest(cs, latest, thin, timer, now);
      match Holder(cs, latest, thin, timer, now)
      case Some(i) => Choice(i, true)
      case None => Choice(latest, false)
  }

  lemma {:induction false} HolderIsNewest(cs: seq<Cluster>, n: nat, thin: nat, timer: Timer, now: Micros)
    requires n <= |cs|
    ensures
      var h := Holder(cs, n, thin, timer, now);
      && (h.Some? ==> h.value < n && Outweighs(cs[h.value], thin, timer, now))
      && forall j :: (if h.Some? then h.value else -1) < j < n ==> !Outweighs(cs[j], thin, timer, now)
  {
    if n == 0 || Outweighs(cs[n - 1], thin, timer, now) {
    } else {
      HolderIsNewest(cs, n - 1, thin, timer, now);
    }
  }

  predicate ThinlySuperseded(cs: seq<Cluster>, current: nat, timer: Timer, now: Micros)
    requires current < |cs|
  {
    exists i | 0 <= i < current :: Outweighs(cs[i], |Reporters(cs[current])|, timer, now)
  }

  /** Closer to the current answer than one respawn, so the two cannot both be true. */
  predicate Contradicts(c: Cluster, current: Cluster, timer: Timer) {
    && timer.kind != Unknown
    && timer.openOffset.Some?
    && Abs(Estimate(c) - Estimate(current)) < timer.openOffset.value * MICROS_PER_SECOND
  }

  /** The reports of those of the first `n` clusters that contradict the current one, oldest first. */
  function ImplausibleIds(cs: seq<Cluster>, n: nat, current: nat, timer: Timer): seq<Id>
    requires current < |cs| && n <= |cs|
  {
    if n == 0 then []
    else
      var before := ImplausibleIds(cs, n - 1, current, timer);
      if n - 1 != current && Contradicts(cs[n - 1], cs[current], timer) then before + Ids(cs[n - 1]) else before
  }

  lemma {:induction false} NothingImplausible(cs: seq<Cluster>, n: nat, current: nat, timer: Timer)
    requires n <= |cs| && current < |cs|
    requires forall i :: 0 <= i < |cs| && i != current ==> !Contradicts(cs[i], cs[current], timer)
    ensures ImplausibleIds(cs, n, current, timer) == []
  {
    if n == 0 {
    } else {
      NothingImplausible(cs, n - 1, current, timer);
    }
  }

  function RenderAlternative(c: Cluster, timer: Timer, now: Micros): Alternative {
    var died := Estimate(c);
    Alternative(
      died,
      |c|,
      |Reporters(c)|,
      ConfidenceOf(c, died),
      DeriveWindow(timer, Some(died), now),
      Ids(c))
  }

  /** The live ones of the first `n` clusters, the current one aside, newest first. */
  function Rivals(cs: seq<Cluster>, n: nat, current: nat, timer: Timer, now: Micros): seq<Cluster>
    requires n <= |cs|
  {
    if n == 0 then []
    else
      var older := Rivals(cs, n - 1, current, timer, now);
      if n - 1 != current && Live(cs[n - 1], timer, now) then [cs[n - 1]] + older else older
  }

  function RenderAll(cs: seq<Cluster>, timer: Timer, now: Micros): (r: seq<Alternative>)
    ensures |r| == |cs|
  {
    seq(|cs|, i requires 0 <= i < |cs| => RenderAlternative(cs[i], timer, now))
  }

  function Capped<T>(s: seq<T>): seq<T> {
    if |s| > MAX_ALTERNATIVES then s[..MAX_ALTERNATIVES] else s
  }

  function ContestReasonOf(
    cs: seq<Cluster>, choice: Choice, timer: Timer, now: Micros, implausible: seq<Id>
  ): Option<ContestReason>
    requires choice.index < |cs|
  {
    if |implausible| > 0 then Some(ImplausibleOrdering)
    else if choice.pending then Some(PendingSupersede)
    else if ThinlySuperseded(cs, choice.index, timer, now) then Some(ThinSupersede)
    else if Spread(cs[choice.index]) > SPREAD_TOLERANCE then Some(WideSpread)
    else None
  }

  // ---------------------------------------------------------------- the whole answer

  const NO_EVIDENCE := Evidence(0, 0, 0, 0, 0, [])

  /** The answer with no cluster to anchor it. */
  function EmptyState(timer: Timer, now: Micros, upSince: Option<Micros>): State {
    State(
      DeriveStatus(timer, None, now, upSince), None, upSince, DeriveWindow(timer, None, now),
      ConfidenceUnknown, None, [], 0, NO_EVIDENCE, [], now)
  }

  /** The answer anchored on the chosen cluster. */
  function StateFor(cs: seq<Cluster>, choice: Choice, timer: Timer, now: Micros, upSince: Option<Micros>): State
    requires choice.index < |cs|
  {
    var current := cs[choice.index];
    var died := Estimate(current);
    var implausible := ImplausibleIds(cs, |cs|, choice.index, timer);
    var rivals := Rivals(cs, |cs|, choice.index, timer, now);
    State(
      DeriveStatus(timer, Some(died), now, upSince),
      Some(died),
      upSince,
      DeriveWindow(timer, Some(died), now),
      ConfidenceOf(current, died),
      ContestReasonOf(cs, choice, timer, now, implausible),
      Capped(RenderAll(rivals, timer, now)),
      |rivals|,
      EvidenceOf(current),
      implausible,
      now)
  }

  function StateFrom(
    cs: seq<Cluster>, timer: Timer, now: Micros, cfg: CircleConfig, upSince: Option<Micros>
  ): State {
    if cs == [] then EmptyState(timer, now, upSince)
    else StateFor(cs, SelectCurrent(cs, timer, now, cfg), timer, now, upSince)
  }

  function Derive(log: seq<Report>, quakes: seq<Quake>, timer: Timer, now: Micros, cfg: CircleConfig): State {
    StateFrom(KillEvents(log, quakes, timer), timer, now, cfg, UpSince(log, quakes, timer))
  }
}
