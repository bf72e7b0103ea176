/** The writes that move a timer, each recomputing the boards it moved before it commits. */
module TimerService {
  import opened Core
  import opened ConsensusTypes
  import opened Windows
  import opened CatalogueTypes
  import opened TimerCatalogue
  import Namespace
  import NamespaceProperties
  import NameTables
  import Resolve
  import TargetSeed

  /** The audit row a write leaves in its own transaction. */
  datatype Mark = OverrideSet(circle: CircleId, target: TargetId) | OverrideCleared(circle: CircleId, target: TargetId)

  /** What became of one circle's recomputation. */
  datatype Outcome = Moved | Skipped | Failed

  // ---------------------------------------------------------------- what the writes promise of boards

  /** Every stale board was stale already. */
  ghost predicate StalesNothing(before: World, after: World) {
    forall c, t :: Stale(after.targets, after.db, c, t) ==> Stale(before.targets, before.db, c, t)
  }

  lemma WriteStalesNothing(w: World, write: TimerWrite)
    requires WellFormed(w.targets, w.db)
    ensures StalesNothing(w, TimerStep(w, write))
  {
    var after := TimerStep(w, write);
    StepKeepsCircles(w, write);
    StepStaysWellFormed(w, write);
    forall c, t | Stale(after.targets, after.db, c, t) ensures Stale(w.targets, w.db, c, t) {
      if t in w.targets {
        WritesStaleNothing(w, write, c, t);
      } else {
        NewcomersHaveNoBoard(w, write, c, t);
      }
    }
  }

  /** Targets and aliases added move no timer. */
  lemma GrowingStalesNothing(before: Names, after: Names, db: Tables)
    requires Resolve.Grows(before, after) && WellFormed(before.targets, db)
    ensures WellFormed(after.targets, db)
    ensures StalesNothing(World(before.targets, db), World(after.targets, db))
  {
  }

  /** Rewriting a target's row takes no foreign key away. */
  lemma RewrittenIsWellFormed(before: Targets, targets: Targets, db: Tables)
    requires WellFormed(before, db) && before.Keys <= targets.Keys
    ensures WellFormed(targets, db)
  {
  }

  // ---------------------------------------------------------------- the fan-out's loop

  function TouchedAmong(db: Tables, circles: set<CircleId>, target: TargetId, skipOverridden: bool): set<CircleId> {
    set c | c in circles && Touched(db, circles, skipOverridden, target, c)
  }

  lemma TouchedOneMore(db: Tables, done: set<CircleId>, c: CircleId, target: TargetId, skipOverridden: bool)
    requires c !in done
    ensures
      var sofar := TouchedAmong(db, done, target, skipOverridden);
      var more := TouchedAmong(db, done + {c}, target, skipOverridden);
      more == (if Touched(db, {c}, skipOverridden, target, c) then sofar + {c} else sofar) && c !in sofar
  {
  }

  /** Where the loop stands once the circles in `done` have been attempted. */
  ghost predicate Fanned(
    targets: Targets, before: Tables, db: Tables, done: set<CircleId>, target: TargetId, skipOverridden: bool,
    broken: set<CircleId>, recomputed: nat, skipped: nat, failed: set<CircleId>
  )
    requires target in targets && done <= before.circles.Keys
  {
    var touched := TouchedAmong(before, done, target, skipOverridden);
    && failed == touched * broken
    && db == Pushed(targets, before, done - failed, target, skipOverridden)
    && recomputed + |failed| == |touched| && recomputed + skipped + |failed| == |done|
  }

  lemma FannedNone(targets: Targets, db: Tables, target: TargetId, skipOverridden: bool, broken: set<CircleId>)
    requires target in targets
    ensures Fanned(targets, db, db, {}, target, skipOverridden, broken, 0, 0, {})
  {
    assert db == Pushed(targets, db, {}, target, skipOverridden);
  }

  /** What one circle's turn finds. */
  lemma FanFinds(
    targets: Targets, before: Tables, db: Tables, done: set<CircleId>, c: CircleId, target: TargetId,
    skipOverridden: bool
  )
    requires WellFormed(targets, before) && target in targets && done <= before.circles.Keys && c in before.circles
    requires db == Pushed(targets, before, done, target, skipOverridden)
    ensures WellFormed(targets, db) && db.circles == before.circles
    ensures Touched(db, {c}, skipOverridden, target, c) == Touched(before, {c}, skipOverridden, target, c)
  {
    PushStaysWellFormed(targets, before, done, target, skipOverridden);
  }

  /** And what it leaves. */
  lemma LeftOut(done: set<CircleId>, failed: set<CircleId>, c: CircleId)
    requires c !in done
    ensures done + {c} - (failed + {c}) == done - failed
  {
  }

  lemma FannedOneMore(
    targets: Targets, before: Tables, db: Tables, done: set<CircleId>, target: TargetId, skipOverridden: bool,
    broken: set<CircleId>, recomputed: nat, skipped: nat, failed: set<CircleId>, c: CircleId, after: Tables,
    outcome: Outcome
  )
    requires target in targets && done <= before.circles.Keys && c in before.circles && c !in done
    requires Fanned(targets, before, db, done, target, skipOverridden, broken, recomputed, skipped, failed)
    requires outcome == if !Touched(before, {c}, skipOverridden, target, c) then Skipped
             else if c in broken then Failed else Moved
    requires after == if outcome == Failed then db else Pushed(targets, db, {c}, target, skipOverridden)
    ensures Fanned(targets, before, after, done + {c}, target, skipOverridden, broken,
                   if outcome == Moved then recomputed + 1 else recomputed,
                   if outcome == Skipped then skipped + 1 else skipped,
                   if outcome == Failed then failed + {c} else failed)
  {
    TouchedOneMore(before, done, c, target, skipOverridden);
    if outcome == Failed {
      LeftOut(done, failed, c);
    } else {
      PushOneMore(targets, before, done - failed, c, target, skipOverridden);
      assert done + {c} - failed == done - failed + {c};
    }
  }

  // ---------------------------------------------------------------- the service

  class Instance {
    const catalogue: Namespace.Catalogue
    var db: Tables
    var audited: seq<Mark>

    /** Boards need not be right: one rebuilt meanwhile may be stale. */
    ghost predicate Valid()
      reads this, catalogue
    {
      catalogue.Valid() && WellFormed(catalogue.names.targets, db)
    }

    function Seen(): World
      reads this, catalogue
    {
      World(catalogue.names.targets, db)
    }

    constructor (catalogue: Namespace.Catalogue, circles: map<CircleId, Circle>)
      requires catalogue.Valid() && forall c :: c in circles ==> circles[c].server in SERVERS
      ensures Valid() && this.catalogue == catalogue && db == Tables(map[], map[], circles, {}, map[]) && audited == []
    {
      this.catalogue := catalogue;
      this.db := Tables(map[], map[], circles, {}, map[]);
      this.audited := [];
    }

    // -------------------------------------------------------------- reads

    /** One target, read rung by rung. */
    method ResolveTimer(circle: CircleId, target: TargetId, server: string) returns (r: Result<Resolved, Failure>)
      requires catalogue.Valid()
      ensures r == if server !in SERVERS then Err(BadServer)
                   else if target !in catalogue.names.targets then Err(NoSuchTarget)
                   else Ok(Effective(db, circle, server, target, catalogue.names.targets[target].isQuakeTarget))
    {
      if server !in SERVERS {
        return Err(BadServer);
      }
      if target !in catalogue.names.targets {
        return Err(NoSuchTarget);
      }
      var t := catalogue.names.targets[target];
      if (circle, target) in db.overrides {
        return Ok(Resolved(FromOverride, TimerOf(db.overrides[(circle, target)], t.isQuakeTarget)));
      }
      if (target, server) in db.timers {
        return Ok(Resolved(FromCatalogue, TimerOf(db.timers[(target, server)], t.isQuakeTarget)));
      }
      return Ok(Resolved(FromNowhere, UnknownTimer(t.isQuakeTarget)));
    }

    /** The whole board at once: three reads, grouped by target, then the shared precedence. It answers alike. */
    method ResolveTimers(circle: CircleId, server: string) returns (r: Result<map<TargetId, Resolved>, Failure>)
      requires catalogue.Valid()
      ensures server !in SERVERS ==> r == Err(BadServer)
      ensures server in SERVERS ==> r.Ok? && r.value.Keys == catalogue.names.targets.Keys
      ensures server in SERVERS ==> forall t :: t in r.value ==>
                r.value[t] == Effective(db, circle, server, t, catalogue.names.targets[t].isQuakeTarget)
    {
      if server !in SERVERS {
        return Err(BadServer);
      }
      var targets := catalogue.names.targets;
      var overrides: map<TargetId, Stored> := map[];
      var rows := set k | k in db.overrides && k.0 == circle;
      while rows != {}
        invariant forall k :: k in rows ==> k in db.overrides && k.0 == circle
        invariant forall t :: t in overrides <==> (circle, t) in db.overrides && (circle, t) !in rows
        invariant forall t :: t in overrides ==> overrides[t] == db.overrides[(circle, t)]
        decreases rows
      {
        var k :| k in rows;
        rows := rows - {k};
        overrides := overrides[k.1 := db.overrides[k]];
      }
      var timers: map<TargetId, Stored> := map[];
      var timerRows := set k | k in db.timers && k.1 == server;
      while timerRows != {}
        invariant forall k :: k in timerRows ==> k in db.timers && k.1 == server
        invariant forall t :: t in timers <==> (t, server) in db.timers && (t, server) !in timerRows
        invariant forall t :: t in timers ==> timers[t] == db.timers[(t, server)]
        decreases timerRows
      {
        var k :| k in timerRows;
        timerRows := timerRows - {k};
        timers := timers[k.0 := db.timers[k]];
      }
      var out: map<TargetId, Resolved> := map[];
      var ids := targets.Keys;
      while ids != {}
        invariant ids <= targets.Keys
        invariant out.Keys == targets.Keys - ids
        invariant forall t :: t in out ==> out[t] == Effective(db, circle, server, t, targets[t].isQuakeTarget)
        decreases ids
      {
        var id :| id in ids;
        ids := ids - {id};
        out := out[id := ResolveTimerFrom(targets[id], overrides, timers)];
      }
      return Ok(out);
    }

    // -------------------------------------------------------------- the push

    /** One circle's worth of a recomputation; `fails` is whether the store refuses it. */
    method Recompute(circle: CircleId, target: TargetId, skipOverridden: bool, fails: bool) returns (outcome: Outcome)
      requires Valid() && circle in db.circles && target in catalogue.names.targets
      modifies this`db
      ensures outcome == if !Touched(old(db), {circle}, skipOverridden, target, circle) then Skipped
                         else if fails then Failed else Moved
      ensures db == if outcome == Failed then old(db)
                    else Pushed(catalogue.names.targets, old(db), {circle}, target, skipOverridden)
    {
      RecomputedIsPushed(catalogue.names.targets, db, circle, target, skipOverridden);
      var resolved := ResolveTimer(circle, target, db.circles[circle].server);
      if skipOverridden && resolved.value.source == FromOverride {
        return Skipped;
      }
      if fails {
        return Failed;
      }
      db := StoredOrDropped(db, circle, target, resolved.value.timer, (circle, target) in db.reported);
      return Moved;
    }

    /** Every circle is attempted even after one fails. */
    method AttemptAll(circles: set<CircleId>, target: TargetId, skipOverridden: bool, broken: set<CircleId>)
      returns (recomputed: nat, skipped: nat, failed: set<CircleId>)
      requires Valid() && circles <= db.circles.Keys && target in catalogue.names.targets
      modifies this`db
      ensures Fanned(
                catalogue.names.targets, old(db), db, circles, target, skipOverridden, broken, recomputed, skipped,
                failed)
    {
      recomputed, skipped, failed := 0, 0, {};
      var todo := circles;
      ghost var done: set<CircleId> := {};
      ghost var targets, before := catalogue.names.targets, db;
      FannedNone(targets, before, target, skipOverridden, broken);
      while todo != {}
        invariant todo <= circles && done == circles - todo
        invariant todo == {} ==> done == circles
        invariant Fanned(targets, before, db, done, target, skipOverridden, broken, recomputed, skipped, failed)
        decreases todo
      {
        var c :| c in todo;
        recomputed, skipped, failed :=
          AttemptOne(c, target, skipOverridden, broken, recomputed, skipped, failed, before, done);
        todo, done := todo - {c}, done + {c};
        assert todo == {} ==> done == circles;
      }
    }

    /** One turn of that loop: the circle attempted and counted. */
    method AttemptOne(
      c: CircleId, target: TargetId, skipOverridden: bool, broken: set<CircleId>, recomputed: nat, skipped: nat,
      failed: set<CircleId>, ghost before: Tables, ghost done: set<CircleId>
    ) returns (recomputed': nat, skipped': nat, failed': set<CircleId>)
      requires catalogue.Valid() && WellFormed(catalogue.names.targets, before) && target in catalogue.names.targets
      requires done <= before.circles.Keys && c in before.circles && c !in done
      requires Fanned(
                 catalogue.names.targets, before, db, done, target, skipOverridden, broken, recomputed, skipped,
                 failed)
      modifies this`db
      ensures Fanned(
                catalogue.names.targets, before, db, done + {c}, target, skipOverridden, broken, recomputed',
                skipped', failed')
    {
      ghost var targets, was := catalogue.names.targets, db;
      FanFinds(targets, before, db, done - failed, c, target, skipOverridden);
      var outcome := Recompute(c, target, skipOverridden, c in broken);
      FannedOneMore(
        targets, before, was, done, target, skipOverridden, broken, recomputed, skipped, failed, c, db, outcome);
      recomputed' := if outcome == Moved then recomputed + 1 else recomputed;
      skipped' := if outcome == Skipped then skipped + 1 else skipped;
      failed' := if outcome == Failed then failed + {c} else failed;
    }

    /** The failures are reported together, and then nothing is counted. */
    method FanOut(circles: set<CircleId>, target: TargetId, skipOverridden: bool, broken: set<CircleId>)
      returns (recomputed: nat, skipped: nat, failed: set<CircleId>)
      requires Valid() && circles <= db.circles.Keys && target in catalogue.names.targets
      modifies this`db
      ensures failed == TouchedAmong(old(db), circles, target, skipOverridden) * broken
      ensures db == Pushed(catalogue.names.targets, old(db), circles - failed, target, skipOverridden)
      ensures failed == {} ==>
                recomputed == |TouchedAmong(old(db), circles, target, skipOverridden)|
                  && recomputed + skipped == |circles|
      ensures failed != {} ==> recomputed == 0 && skipped == 0
    {
      recomputed, skipped, failed := AttemptAll(circles, target, skipOverridden, broken);
      if failed != {} {
        recomputed, skipped := 0, 0;
      }
    }

    method OnTimerChange(circle: CircleId, target: TargetId, broken: set<CircleId>) returns (r: Result<(), Failure>)
      requires Valid() && target in catalogue.names.targets
      modifies this`db
      ensures if !LiveCircle(old(db), circle) then r == Err(NoSuchCircle) && db == old(db)
              else if circle in broken then r == Err(PushFailed({circle})) && db == old(db)
              else r == Ok(()) && db == Pushed(catalogue.names.targets, old(db), {circle}, target, false)
    {
      if circle !in db.circles || !db.circles[circle].live {
        return Err(NoSuchCircle);
      }
      var outcome := Recompute(circle, target, false, circle in broken);
      if outcome == Failed {
        return Err(PushFailed({circle}));
      }
      return Ok(());
    }

    method OnCatalogueTimerChange(
      server: string, target: TargetId, broken: set<CircleId>
    ) returns (r: Result<(), Failure>)
      requires Valid() && target in catalogue.names.targets
      modifies this`db
      ensures
        var failed := TouchedAmong(old(db), LiveOn(old(db), server), target, true) * broken;
        if server !in SERVERS then r == Err(BadServer) && db == old(db)
        else if failed != {} then r == Err(PushFailed(failed))
        else r == Ok(()) && db == Pushed(catalogue.names.targets, old(db), LiveOn(old(db), server), target, true)
    {
      if server !in SERVERS {
        return Err(BadServer);
      }
      ghost var circles := LiveOn(db, server);
      var _, _, failed := FanOut(LiveOn(db, server), target, true, broken);
      assert circles - {} == circles;
      if failed != {} {
        return Err(PushFailed(failed));
      }
      return Ok(());
    }

    method OnQuakeTargetChange(target: TargetId, broken: set<CircleId>) returns (failed: set<CircleId>)
      requires Valid() && target in catalogue.names.targets
      modifies this`db
      ensures failed == AllLive(old(db)) * broken
      ensures failed == {} ==> db == Pushed(catalogue.names.targets, old(db), AllLive(old(db)), target, false)
    {
      ghost var everyone := TouchedAmong(db, AllLive(db), target, false);
      assert everyone == AllLive(db);
      var _, _, failures := FanOut(AllLive(db), target, false, broken);
      return failures;
    }

    // -------------------------------------------------------------- the writes

    method PutTimer(target: TargetId, server: string, req: WindowRequest, broken: set<CircleId>)
      returns (r: Result<Stored, Failure>)
      requires Valid()
      modifies this`db
      ensures Valid()
      ensures r.Ok? <==>
              && server in SERVERS && Validate(req).Ok? && target in catalogue.names.targets
              && TouchedAmong(old(db), LiveOn(old(db), server), target, true) * broken == {}
      ensures r.Err? ==> db == old(db)
      ensures r.Ok? ==>
                && r.value == Validate(req).value
                && Seen() == TimerStep(old(Seen()), WriteTimer(target, server, req))
      ensures StalesNothing(old(Seen()), Seen())
    {
      if server !in SERVERS {
        return Err(BadServer);
      }
      var row := Validate(req);
      if row.Err? {
        return Err(BadWindow(row.error));
      }
      if target !in catalogue.names.targets {
        return Err(NoSuchTarget);
      }
      WriteStalesNothing(Seen(), WriteTimer(target, server, req));
      var failed := PutWindow(target, server, [row.value], broken);
      if failed != {} {
        return Err(PushFailed(failed));
      }
      return Ok(row.value);
    }

    /** The rows of one window and the push behind them, in one transaction: a failed push takes the rows with it. */
    method PutWindow(
      target: TargetId, server: string, rows: seq<Stored>, broken: set<CircleId>
    ) returns (failed: set<CircleId>)
      requires Valid() && server in SERVERS && target in catalogue.names.targets && rows != []
      requires forall i :: 0 <= i < |rows| ==> Checks(rows[i])
      modifies this`db
      ensures Valid()
      ensures failed == TouchedAmong(old(db), LiveOn(old(db), server), target, true) * broken
      ensures db == if failed == {} then TimerPut(catalogue.names.targets, old(db), target, server, rows) else old(db)
    {
      var before := db;
      ghost var targets := catalogue.names.targets;
      for i := 0 to |rows|
        invariant db == before.(timers := PutAll(before.timers, target, server, rows, i))
      {
        db := db.(timers := db.timers[(target, server) := rows[i]]);
      }
      LastRowStands(before.timers, target, server, rows, |rows|);
      PutStaysWellFormed(targets, before, target, server, rows);
      assert TouchedAmong(db, LiveOn(db, server), target, true) ==
        TouchedAmong(before, LiveOn(before, server), target, true);
      var pushed := OnCatalogueTimerChange(server, target, broken);
      failed := {};
      if pushed.Err? {
        failed := pushed.error.circles;
        db := before;
      }
    }

    method PutOverride(circle: CircleId, target: TargetId, req: WindowRequest, broken: set<CircleId>)
      returns (r: Result<Stored, Failure>)
      requires Valid()
      modifies this
      ensures Valid()
      ensures r.Ok? <==>
              Validate(req).Ok? && target in catalogue.names.targets && LiveCircle(old(db), circle) && circle !in broken
      ensures r.Err? ==> db == old(db) && audited == old(audited)
      ensures r.Ok? ==>
                && r.value == Validate(req).value
                && Seen() == TimerStep(old(Seen()), WriteOverride(circle, target, req))
                && audited == old(audited) + [OverrideSet(circle, target)]
      ensures StalesNothing(old(Seen()), Seen())
    {
      var row := Validate(req);
      if row.Err? {
        return Err(BadWindow(row.error));
      }
      if target !in catalogue.names.targets {
        return Err(NoSuchTarget);
      }
      WriteStalesNothing(Seen(), WriteOverride(circle, target, req));
      StepStaysWellFormed(Seen(), WriteOverride(circle, target, req));
      var before, marks := db, audited;
      db := db.(overrides := db.overrides[(circle, target) := row.value]);
      audited := audited + [OverrideSet(circle, target)];
      var pushed := OnTimerChange(circle, target, broken);
      if pushed.Err? {
        db, audited := before, marks;
        return Err(pushed.error);
      }
      return Ok(row.value);
    }

    /** Answers with what was removed, and with the catalogue's window back on the board. */
    method DeleteOverride(
      circle: CircleId, target: TargetId, broken: set<CircleId>
    ) returns (r: Result<Stored, Failure>)
      requires Valid()
      modifies this
      ensures Valid()
      ensures r.Ok? <==> (circle, target) in old(db).overrides && LiveCircle(old(db), circle) && circle !in broken
      ensures r.Err? ==> db == old(db) && audited == old(audited)
      ensures r.Ok? ==>
                && r.value == old(db).overrides[(circle, target)]
                && Seen() == TimerStep(old(Seen()), ClearOverride(circle, target))
                && audited == old(audited) + [OverrideCleared(circle, target)]
      ensures StalesNothing(old(Seen()), Seen())
    {
      if (circle, target) !in db.overrides {
        return Err(NoSuchOverride);
      }
      WriteStalesNothing(Seen(), ClearOverride(circle, target));
      StepStaysWellFormed(Seen(), ClearOverride(circle, target));
      var before, marks := db, audited;
      db := db.(overrides := db.overrides - {(circle, target)});
      audited := audited + [OverrideCleared(circle, target)];
      var pushed := OnTimerChange(circle, target, broken);
      if pushed.Err? {
        db, audited := before, marks;
        return Err(pushed.error);
      }
      return Ok(before.overrides[(circle, target)]);
    }

    /** Pushes exactly when the flag moves, judged by the row as it is inside the transaction. */
    method Update(target: TargetId, current: Option<Listed>, req: Namespace.UpdateRequest, broken: set<CircleId>)
      returns (r: Result<(), Failure>)
      requires Valid()
      modifies this`db, catalogue
      ensures Valid()
      ensures r.Ok? <==>
                && Namespace.Admits(catalogue.text, old(catalogue.names), target, current, req)
                && (|| Namespace.PlanUpdate(catalogue.text, target, current.value, req).value.target.isQuakeTarget
                       == old(catalogue.names).targets[target].isQuakeTarget
                    || AllLive(old(db)) * broken == {})
      ensures r.Err? ==> db == old(db) && catalogue.names == old(catalogue.names)
      ensures r.Ok? ==>
                && target in old(catalogue.names).targets && target in catalogue.names.targets
                && current.Some? && Namespace.PlanUpdate(catalogue.text, target, current.value, req).Ok?
                && catalogue.names == Namespace.Rewrite(
                                        catalogue.text, old(catalogue.names),
                                        Namespace.PlanUpdate(catalogue.text, target, current.value, req).value,
                                        req.aliases.Some?)
                && Seen() == TimerStep(old(Seen()), WriteTarget(catalogue.names.targets[target]))
      ensures StalesNothing(old(Seen()), Seen())
    {
      var before := catalogue.names;
      ghost var was := Seen();
      var written := catalogue.Update(target, current, req);
      if written.Err? {
        return Err(NotAdmitted(written.error));
      }
      NamespaceProperties.UpdateRewritesExactly(
        catalogue.text, before, Namespace.PlanUpdate(catalogue.text, target, current.value, req).value,
        req.aliases.Some?);
      WriteStalesNothing(was, WriteTarget(catalogue.names.targets[target]));
      r := PushFlag(target, before, broken);
    }

    /** The end of an update's transaction: the push if the flag moved, and everything undone if the push fails. */
    method PushFlag(target: TargetId, before: Names, broken: set<CircleId>) returns (r: Result<(), Failure>)
      requires catalogue.Valid() && NameTables.Sound(catalogue.text, before) && WellFormed(before.targets, db)
      requires target in before.targets && target in catalogue.names.targets
      requires catalogue.names.targets == before.targets[target := catalogue.names.targets[target]]
      requires catalogue.names.targets[target].id == target
      modifies this`db, catalogue
      ensures Valid()
      ensures r.Ok? <==>
                || before.targets[target].isQuakeTarget == old(catalogue.names).targets[target].isQuakeTarget
                || AllLive(old(db)) * broken == {}
      ensures r.Ok? ==>
                && catalogue.names == old(catalogue.names)
                && Seen() == TimerStep(World(before.targets, old(db)), WriteTarget(catalogue.names.targets[target]))
      ensures r.Err? ==> db == old(db) && catalogue.names == before
    {
      StepStaysWellFormed(World(before.targets, db), WriteTarget(catalogue.names.targets[target]));
      if before.targets[target].isQuakeTarget == catalogue.names.targets[target].isQuakeTarget {
        return Ok(());
      }
      var tables := db;
      RewrittenIsWellFormed(before.targets, catalogue.names.targets, db);
      var failed := OnQuakeTargetChange(target, broken);
      if failed != {} {
        db, catalogue.names := tables, before;
        return Err(PushFailed(failed));
      }
      return Ok(());
    }

    method Create(req: Namespace.CreateRequest) returns (r: Result<TargetId, Failure>)
      requires Valid()
      modifies catalogue
      ensures Valid() && Resolve.Grows(old(catalogue.names), catalogue.names)
      ensures catalogue.names
              == Namespace.NameStep(catalogue.text, old(catalogue.names), Namespace.WriteCreate(req))
      ensures if Namespace.AdmitsNew(catalogue.text, old(catalogue.names), req)
              then r == Ok(old(catalogue.names).nextId) else r.Err? && catalogue.names == old(catalogue.names)
      ensures StalesNothing(old(Seen()), Seen())
    {
      ghost var before := catalogue.names;
      var created := catalogue.Create(req);
      if created.Err? {
        return Err(NotAdmitted(created.error));
      }
      NamespaceProperties.CreateAddsExactly(
        catalogue.text, before, Namespace.PlanCreate(catalogue.text, created.value, req).value);
      GrowingStalesNothing(before, catalogue.names, db);
      return Ok(created.value);
    }

    method SeedTargets(wants: seq<TargetSeed.Embedded>) returns (r: Result<TargetSeed.Report, Failure>)
      requires Valid()
      modifies catalogue
      ensures Valid() && Resolve.Grows(old(catalogue.names), catalogue.names)
      ensures catalogue.names == Namespace.NameStep(catalogue.text, old(catalogue.names), Namespace.WriteSeed(wants))
      ensures
        match TargetSeed.SeedRun(catalogue.text, old(catalogue.names), wants)
        case Ok(s) => r == Ok(s.report)
        case Err(e) => r == Err(NotAdmitted(e))
      ensures StalesNothing(old(Seen()), Seen())
    {
      ghost var before := catalogue.names;
      var seeded := catalogue.SeedTargets(wants);
      if seeded.Err? {
        return Err(NotAdmitted(seeded.error));
      }
      NamespaceProperties.SeedOnlyAdds(
        catalogue.text, TargetSeed.NameIndex(catalogue.text, before), TargetSeed.Begin(catalogue.text, before),
        wants, |wants|,
        TargetSeed.SeedRun(catalogue.text, before, wants).value);
      GrowingStalesNothing(before, catalogue.names, db);
      return Ok(seeded.value);
    }

    /** A report's own transaction drops the row it made out of date. */
    method AppendReport(circle: CircleId, target: TargetId)
      requires Valid() && target in catalogue.names.targets
      modifies this`db
      ensures Valid()
      ensures Seen() == TimerStep(old(Seen()), WriteReport(circle, target))
    {
      db := db.(reported := db.reported + {(circle, target)}, boards := db.boards - {(circle, target)});
    }

    // -------------------------------------------------------------- rebuilding a board

    /** What a rebuild does once it has derived: outside any transaction, under whatever timer its snapshot read. */
    method StoreOrDrop(circle: CircleId, target: TargetId, timer: Timer, sawRows: bool)
      requires Valid() && (sawRows ==> (circle, target) in db.reported)
      modifies this`db
      ensures Valid() && db == StoredOrDropped(old(db), circle, target, timer, sawRows)
    {
      if !sawRows {
        db := db.(boards := db.boards - {(circle, target)});
        return;
      }
      db := db.(boards := db.boards[(circle, target) := timer]);
    }
  }
}
