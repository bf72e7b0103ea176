/** What appending a row to the log does to the answer, and what it cannot do. */
module LogAlgebra {
  import opened Core
  import opened ConsensusTypes
  import opened Derivation

  function Without(log: seq<Report>, id: Id): seq<Report> {
    Filter((r: Report) => r.id != id, log)
  }

  /** The answer depends on the rows only through the kills it considers and the instant of a quake. */
  lemma OnlyConsideredMatters(
    a: seq<Report>, b: seq<Report>, quakes: seq<Quake>, quakes': seq<Quake>,
    timer: Timer, now: Micros, cfg: CircleConfig
  )
    requires Considered(a, quakes, timer) == Considered(b, quakes', timer)
    requires QuakeApplies(quakes, timer) <==> QuakeApplies(quakes', timer)
    requires QuakeApplies(quakes, timer) ==> LatestQuake(quakes) == LatestQuake(quakes')
    ensures Derive(a, quakes, timer, now, cfg) == Derive(b, quakes', timer, now, cfg)
  {
  }

  /** Appending a retraction removes the kills it names and nothing else. */
  lemma RetractionFilters(log: seq<Report>, q: Report)
    requires q.kind == Retraction
    ensures Retained(log + [q]) == Filter((r: Report) => Stands(r, log) && q.retracts != Some(r.id), log)
  {
    FilterAppend((r: Report) => Stands(r, log + [q]), log, [q]);
    FilterCongruence(
      (r: Report) => Stands(r, log + [q]), (r: Report) => Stands(r, log) && q.retracts != Some(r.id), log);
  }

  /** Appending a kill adds that kill, unless it is already retracted, and nothing else. */
  lemma KillAppends(log: seq<Report>, k: Report)
    requires k.kind == Kill
    ensures Retained(log + [k]) == Retained(log) + if IsRetracted(k.id, log) then [] else [k]
  {
    FilterAppend((r: Report) => Stands(r, log + [k]), log, [k]);
    FilterCongruence((r: Report) => Stands(r, log + [k]), (r: Report) => Stands(r, log), log);
  }

  lemma RetractionDeletesKill(log: seq<Report>, q: Report)
    requires q.kind == Retraction && q.retracts.Some?
    requires forall r :: r in log && r.id == q.retracts.value ==> r.kind == Kill
    ensures Retained(log + [q]) == Retained(Without(log, q.retracts.value))
  {
    var id := q.retracts.value;
    var left := Without(log, id);
    RetractionFilters(log, q);
    FilterTwice(
      (r: Report) => Stands(r, left), (r: Report) => r.id != id,
      (r: Report) => Stands(r, log) && q.retracts != Some(r.id), log);
  }

  /** Retracting a kill is deleting it. */
  lemma RetractionDeletes(
    log: seq<Report>, q: Report, quakes: seq<Quake>, timer: Timer, now: Micros, cfg: CircleConfig
  )
    requires q.kind == Retraction && q.retracts.Some?
    requires forall r :: r in log && r.id == q.retracts.value ==> r.kind == Kill
    ensures Derive(log + [q], quakes, timer, now, cfg)
         == Derive(Without(log, q.retracts.value), quakes, timer, now, cfg)
  {
    RetractionDeletesKill(log, q);
    OnlyConsideredMatters(log + [q], Without(log, q.retracts.value), quakes, quakes, timer, now, cfg);
  }

  /** Reporting a kill and withdrawing it leaves no trace in the answer. */
  lemma ReportThenRetract(
    log: seq<Report>, k: Report, q: Report, quakes: seq<Quake>, timer: Timer, now: Micros, cfg: CircleConfig
  )
    requires k.kind == Kill && forall r :: r in log ==> r.id != k.id
    requires q.kind == Retraction && q.retracts == Some(k.id)
    ensures Derive(log + [k] + [q], quakes, timer, now, cfg) == Derive(log, quakes, timer, now, cfg)
  {
    RetractionDeletesKill(log + [k], q);
    WithoutAbsent(log, k);
    OnlyConsideredMatters(log + [k] + [q], log, quakes, quakes, timer, now, cfg);
  }

  lemma WithoutAbsent(log: seq<Report>, k: Report)
    requires forall r :: r in log ==> r.id != k.id
    ensures Without(log + [k], k.id) == log
  {
    FilterAppend((r: Report) => r.id != k.id, log, [k]);
    FilterCongruence((r: Report) => r.id != k.id, (r: Report) => true, log);
    FilterAll((r: Report) => true, log);
  }

  /**
   * A retraction changes the retained kills exactly when it names one. So a repeated retraction, a
   * retraction of a retraction and a retraction of an unknown report all change nothing.
   */
  lemma RetractionEffect(
    log: seq<Report>, q: Report, quakes: seq<Quake>, timer: Timer, now: Micros, cfg: CircleConfig
  )
    requires q.kind == Retraction
    ensures Retained(log + [q]) == Retained(log) <==> forall r :: r in Retained(log) ==> q.retracts != Some(r.id)
    ensures (forall r :: r in Retained(log) ==> q.retracts != Some(r.id))
            ==> Derive(log + [q], quakes, timer, now, cfg) == Derive(log, quakes, timer, now, cfg)
  {
    RetractionFilters(log, q);
    if forall r :: r in Retained(log) ==> q.retracts != Some(r.id) {
      FilterCongruence(
        (r: Report) => Stands(r, log) && q.retracts != Some(r.id), (r: Report) => Stands(r, log), log);
      OnlyConsideredMatters(log + [q], log, quakes, quakes, timer, now, cfg);
    } else {
      var r :| r in Retained(log) && q.retracts == Some(r.id);
      assert r !in Retained(log + [q]);
    }
  }

  lemma RepeatedRetraction(
    log: seq<Report>, q: Report, again: Report, quakes: seq<Quake>, timer: Timer, now: Micros, cfg: CircleConfig
  )
    requires q in log && q.kind == Retraction && again.kind == Retraction && again.retracts == q.retracts
    ensures Derive(log + [again], quakes, timer, now, cfg) == Derive(log, quakes, timer, now, cfg)
  {
    RetractionEffect(log, again, quakes, timer, now, cfg);
  }

  lemma RetractedRetraction(
    log: seq<Report>, q: Report, undo: Report, quakes: seq<Quake>, timer: Timer, now: Micros, cfg: CircleConfig
  )
    requires q in log && q.kind == Retraction && undo.kind == Retraction && undo.retracts == Some(q.id)
    requires forall r :: r in log && r.id == q.id ==> r == q
    ensures Derive(log + [undo], quakes, timer, now, cfg) == Derive(log, quakes, timer, now, cfg)
  {
    RetractionEffect(log, undo, quakes, timer, now, cfg);
  }

  // ---------------------------------------------------------------- quakes

  lemma {:induction false} LatestQuakeIsMaximum(quakes: seq<Quake>)
    requires quakes != []
    ensures forall q :: q in quakes ==> q.occurredAt <= LatestQuake(quakes)
    ensures exists q :: q in quakes && q.occurredAt == LatestQuake(quakes)
  {
    var n := |quakes| - 1;
    if n > 0 {
      LatestQuakeIsMaximum(quakes[..n]);
      assert quakes == quakes[..n] + [quakes[n]];
      if quakes[n].occurredAt >= LatestQuake(quakes[..n]) {
        assert quakes[n] in quakes;
      } else {
        var q :| q in quakes[..n] && q.occurredAt == LatestQuake(quakes[..n]);
        assert q in quakes;
      }
    } else {
      assert quakes[0] in quakes;
    }
  }

  /** A quake at or before the latest one is a no-op. */
  lemma OlderQuake(
    log: seq<Report>, quakes: seq<Quake>, older: Quake, timer: Timer, now: Micros, cfg: CircleConfig
  )
    requires quakes != [] && older.occurredAt <= LatestQuake(quakes)
    ensures Derive(log, quakes + [older], timer, now, cfg) == Derive(log, quakes, timer, now, cfg)
  {
    assert (quakes + [older])[..|quakes|] == quakes;
    FilterCongruence(
      (r: Report) => r.diedAt >= LatestQuake(quakes + [older]), (r: Report) => r.diedAt >= LatestQuake(quakes),
      Retained(log));
    OnlyConsideredMatters(log, log, quakes + [older], quakes, timer, now, cfg);
  }

  /** For a quake target, a kill before the latest quake is history however late it is reported. */
  lemma KillBeforeQuake(
    log: seq<Report>, k: Report, quakes: seq<Quake>, timer: Timer, now: Micros, cfg: CircleConfig
  )
    requires QuakeApplies(quakes, timer) && k.kind == Kill && k.diedAt < LatestQuake(quakes)
    ensures Derive(log + [k], quakes, timer, now, cfg) == Derive(log, quakes, timer, now, cfg)
  {
    KillAppends(log, k);
    FilterAppend(
      (r: Report) => r.diedAt >= LatestQuake(quakes), Retained(log), if IsRetracted(k.id, log) then [] else [k]);
    OnlyConsideredMatters(log + [k], log, quakes, quakes, timer, now, cfg);
  }

  /** Up exactly when a quake applies and no retained kill is at or after the latest one. */
  lemma UpExactly(log: seq<Report>, quakes: seq<Quake>, timer: Timer, now: Micros, cfg: CircleConfig)
    ensures
      var state := Derive(log, quakes, timer, now, cfg);
      && (state.status == Up <==>
            QuakeApplies(quakes, timer) && forall r :: r in Retained(log) ==> r.diedAt < LatestQuake(quakes))
      && (state.status == Up ==> state.upSince == Some(LatestQuake(quakes)) && state.diedAt.None?)
      && (state.status != Up ==> state.upSince.None?)
  {
    var kept := Considered(log, quakes, timer);
    if QuakeApplies(quakes, timer) {
      if kept != [] {
        assert kept[0] in kept;
      } else {
        forall r | r in Retained(log) ensures r.diedAt < LatestQuake(quakes) {
          assert r !in kept;
        }
      }
    }
  }
}
