/**
 * Writes and rebuilds in any order. A rebuild reads in a snapshot, and perhaps the log once more after it, and stores
 * what it derived later, outside any transaction, so a write may commit in between.
 */
module TimerRuns {
  import opened Core
  import opened ConsensusTypes
  import opened Windows
  import opened CatalogueTypes
  import opened TimerCatalogue

  type Cell = (CircleId, TargetId)

  /** What a derivation reads besides the timer: the circle's quakes, threshold and revoked members, the cell's log. */
  datatype Facts = Facts(quakes: nat, threshold: int, rows: nat, revoked: set<nat>)

  /** The tables those are read from. Quakes and reports are only ever added, so their number tells them apart. */
  datatype Rest = Rest(
    quakes: map<CircleId, nat>, thresholds: map<CircleId, int>, rows: map<Cell, nat>, revoked: map<CircleId, set<nat>>)

  datatype Database = Database(world: World, rest: Rest)

  const DEFAULT_THRESHOLD: int := 1

  function RowsOf(rest: Rest, k: Cell): nat {
    if k in rest.rows then rest.rows[k] else 0
  }

  function QuakesOf(rest: Rest, c: CircleId): nat {
    if c in rest.quakes then rest.quakes[c] else 0
  }

  function FactsOf(rest: Rest, k: Cell): Facts {
    Facts(
      QuakesOf(rest, k.0),
      if k.0 in rest.thresholds then rest.thresholds[k.0] else DEFAULT_THRESHOLD,
      RowsOf(rest, k),
      if k.0 in rest.revoked then rest.revoked[k.0] else {})
  }

  /** One board being rebuilt: what it read, when its snapshot was, and when it read the log last. */
  datatype Job = Job(circle: CircleId, target: TargetId, timer: Timer, facts: Facts, at: nat, logAt: nat)

  /** Who wrote a board last: a push at the given moment, or a rebuild that read at the given ones. */
  datatype Origin = FromPush(at: nat) | FromRebuild(at: nat, logAt: nat)

  /** Where a board comes from, and what beside its timer it was derived from. */
  datatype Source = Source(origin: Origin, facts: Facts)

  /** `sources` and `clock` are kept for the statement of properties only. */
  datatype Race = Race(world: World, rest: Rest, jobs: map<nat, Job>, sources: map<Cell, Source>, clock: nat)

  /** Several rebuilds may be pending. */
  datatype Action =
    | Write(write: TimerWrite)
    | Configure(circle: CircleId, threshold: int)
    | Revoke(circle: CircleId, members: set<nat>)
    | Snapshot(job: nat, circle: CircleId, target: TargetId)
    | ReadLog(job: nat)
    | Store(job: nat)

  function SourceOf(s: Race, k: Cell): Source {
    if k in s.sources then s.sources[k] else Source(FromPush(s.clock), FactsOf(s.rest, k))
  }

  function OriginOf(s: Race, k: Cell): Origin { SourceOf(s, k).origin }

  /** What a write adds to the other tables. */
  function RestAfter(rest: Rest, w: World, write: TimerWrite): Rest {
    match write
    case WriteReport(c, t) =>
      if t in w.targets then rest.(rows := rest.rows[(c, t) := RowsOf(rest, (c, t)) + 1]) else rest
    case WriteQuake(c) => rest.(quakes := rest.quakes[c := QuakesOf(rest, c) + 1])
    case _ => rest
  }

  /** What any action leaves of them. A threshold or a revocation touches nothing else. */
  function RestNext(rest: Rest, w: World, a: Action): Rest {
    match a
    case Write(write) => RestAfter(rest, w, write)
    case Configure(c, threshold) => rest.(thresholds := rest.thresholds[c := threshold])
    case Revoke(c, members) => rest.(revoked := rest.revoked[c := members])
    case _ => rest
  }

  predicate PushReaches(w: World, write: TimerWrite, k: Cell) {
    LiveCircle(w.db, k.0) && Reaches(w, write, k.0, k.1)
  }

  function AfterWrite(s: Race, write: TimerWrite): Race {
    var after, rest := TimerStep(s.world, write), RestAfter(s.rest, s.world, write);
    s.(world := after,
       sources := map k | k in after.db.boards ::
         if PushReaches(s.world, write, k) then Source(FromPush(s.clock + 1), FactsOf(rest, k)) else SourceOf(s, k))
  }

  function AfterSnapshot(s: Race, job: nat, c: CircleId, t: TargetId): Race {
    if job !in s.jobs && LiveCircle(s.world.db, c) && t in s.world.targets
    then
      var timer := InForce(s.world.targets, s.world.db, c, t);
      s.(jobs := s.jobs[job := Job(c, t, timer, FactsOf(s.rest, (c, t)), s.clock, s.clock)])
    else s
  }

  /** The log and the memberships read once more, on their own. */
  function AfterReadLog(s: Race, job: nat): Race
    requires job in s.jobs
  {
    var j := s.jobs[job];
    var now := FactsOf(s.rest, (j.circle, j.target));
    s.(jobs := s.jobs[job := j.(facts := j.facts.(rows := now.rows, revoked := now.revoked), logAt := s.clock)])
  }

  function AfterStore(s: Race, job: nat): Race
    requires job in s.jobs
  {
    var j := s.jobs[job];
    s.(world := s.world.(db := StoredOrDropped(s.world.db, j.circle, j.target, j.timer, j.facts.rows > 0)),
       jobs := s.jobs - {job},
       sources := s.sources[(j.circle, j.target) := Source(FromRebuild(j.at, j.logAt), j.facts)])
  }

  /** An action that is not enabled does nothing but pass the time. */
  function Act(s: Race, a: Action): Race {
    var after :=
      match a
      case Write(write) => AfterWrite(s, write)
      case Snapshot(job, c, t) => AfterSnapshot(s, job, c, t)
      case ReadLog(job) => if job in s.jobs then AfterReadLog(s, job) else s
      case Store(job) => if job in s.jobs then AfterStore(s, job) else s
      case _ => s;
    after.(rest := RestNext(s.rest, s.world, a), clock := s.clock + 1)
  }

  /** Nothing pending, and every board there as the last push left it. */
  function Begin(start: Database): Race {
    Race(
      start.world, start.rest, map[],
      map k | k in start.world.db.boards :: Source(FromPush(0), FactsOf(start.rest, k)), 0)
  }

  /** The race after the first `n` actions. */
  function RunTo(start: Database, actions: seq<Action>, n: nat): Race
    requires n <= |actions|
  {
    if n == 0 then Begin(start) else Act(RunTo(start, actions, n - 1), actions[n - 1])
  }

  predicate StaleIn(w: World, c: CircleId, t: TargetId) { Stale(w.targets, w.db, c, t) }

  /** The pairs with a row in the log are those with a positive number of them. */
  ghost predicate Tallied(w: World, rest: Rest) {
    forall k: Cell :: k in w.db.reported <==> RowsOf(rest, k) > 0
  }

  /** A database no run has touched yet: its tables agree, and its boards are right. */
  ghost predicate Settled(start: Database) {
    && WellFormed(start.world.targets, start.world.db)
    && Tallied(start.world, start.rest)
    && Coherent(start.world.targets, start.world.db)
  }

  // ---------------------------------------------------------------- one action, seen from one board

  /** Does this action store a rebuild of this board? */
  predicate Rebuilds(s: Race, a: Action, c: CircleId, t: TargetId) {
    a.Store? && a.job in s.jobs && s.jobs[a.job].circle == c && s.jobs[a.job].target == t
  }

  /** Does it write or drop this board at all? */
  predicate Disturbs(s: Race, a: Action, c: CircleId, t: TargetId)
    requires LiveCircle(s.world.db, c)
  {
    Rebuilds(s, a, c, t) || (a.Write? && (Reaches(s.world, a.write, c, t) || Drops(s.world, a.write, c, t)))
  }

  lemma ActKeepsCell(s: Race, a: Action, c: CircleId, t: TargetId)
    requires LiveCircle(s.world.db, c) && t in s.world.targets
    ensures LiveCircle(Act(s, a).world.db, c) && t in Act(s, a).world.targets
    ensures Act(s, a).world.db.circles == s.world.db.circles
  {
    if a.Write? {
      StepFollows(s.world, a.write, c, t);
    }
  }

  /**
   * A board becomes stale in one way only, by a rebuild stored under a timer no longer in force; and stays so until a
   * push reaches it, a report or a quake drops it, or another rebuild of it is stored.
   */
  lemma StaleExactly(s: Race, a: Action, c: CircleId, t: TargetId)
    requires LiveCircle(s.world.db, c) && t in s.world.targets
    ensures StaleIn(Act(s, a).world, c, t) <==>
              if Rebuilds(s, a, c, t)
              then s.jobs[a.job].facts.rows > 0 && s.jobs[a.job].timer != InForce(s.world.targets, s.world.db, c, t)
              else StaleIn(s.world, c, t) && !Disturbs(s, a, c, t)
  {
    match a
    case Write(write) => WritesStaleNothing(s.world, write, c, t);
    case Store(job) =>
      if job in s.jobs {
        var j := s.jobs[job];
        var after := StoredOrDropped(s.world.db, j.circle, j.target, j.timer, j.facts.rows > 0);
        assert InForce(s.world.targets, after, c, t) == InForce(s.world.targets, s.world.db, c, t);
      }
    case _ =>
  }

  /** No action from `m` on touches this board. */
  ghost predicate Undisturbed(start: Database, actions: seq<Action>, m: nat, n: nat, c: CircleId, t: TargetId)
    requires m <= n <= |actions|
  {
    forall i :: m <= i < n ==> LeavesAlone(start, actions, i, c, t)
  }

  predicate LeavesAlone(start: Database, actions: seq<Action>, i: nat, c: CircleId, t: TargetId)
    requires i < |actions|
  {
    var s := RunTo(start, actions, i);
    LiveCircle(s.world.db, c) && !Disturbs(s, actions[i], c, t)
  }

  /**
   * A stale board lasts through everything that neither reaches nor drops it nor rebuilds it, other
   * windows' writes included.
   */
  lemma {:induction false} StaleLasts(start: Database, actions: seq<Action>, m: nat, n: nat, c: CircleId, t: TargetId)
    requires m <= n <= |actions| && StaleIn(RunTo(start, actions, m).world, c, t)
    requires Undisturbed(start, actions, m, n, c, t)
    ensures StaleIn(RunTo(start, actions, n).world, c, t)
  {
    if n == m {
    } else {
      StaleLasts(start, actions, m, n - 1, c, t);
      assert LeavesAlone(start, actions, n - 1, c, t);
      StaleExactly(RunTo(start, actions, n - 1), actions[n - 1], c, t);
    }
  }

  /** And no longer: the first push that reaches it, or report that drops it, heals it. */
  lemma StaleHeals(s: Race, write: TimerWrite, c: CircleId, t: TargetId)
    requires LiveCircle(s.world.db, c) && t in s.world.targets
    requires Reaches(s.world, write, c, t) || Drops(s.world, write, c, t)
    ensures !StaleIn(Act(s, Write(write)).world, c, t)
  {
    StaleExactly(s, Write(write), c, t);
  }

  // ---------------------------------------------------------------- what a timer is made of

  /** The three things behind one board's timer: its override, its server's catalogue row, its target's flag. */
  datatype Inputs = Inputs(over: Option<Stored>, listed: Option<Stored>, flag: bool)

  function InputsOf(w: World, c: CircleId, t: TargetId): Inputs
    requires c in w.db.circles && t in w.targets
  {
    var server := w.db.circles[c].server;
    Inputs(
      if (c, t) in w.db.overrides then Some(w.db.overrides[(c, t)]) else None,
      if (t, server) in w.db.timers then Some(w.db.timers[(t, server)]) else None,
      w.targets[t].isQuakeTarget)
  }

  function TimerFrom(i: Inputs): Timer {
    if i.over.Some? then TimerOf(i.over.value, i.flag)
    else if i.listed.Some? then TimerOf(i.listed.value, i.flag)
    else UnknownTimer(i.flag)
  }

  /** What one action changes of them, read off the action alone. */
  function Absorb(i: Inputs, a: Action, c: CircleId, t: TargetId, server: string): Inputs {
    match a
    case Write(WriteTimer(u, on, window)) =>
      if u == t && on == server && server in SERVERS && Validate(window).Ok?
      then i.(listed := Some(Validate(window).value)) else i
    case Write(WriteOverride(d, u, window)) =>
      if d == c && u == t && Validate(window).Ok? then i.(over := Some(Validate(window).value)) else i
    case Write(ClearOverride(d, u)) => if d == c && u == t then i.(over := None) else i
    case Write(WriteTarget(row)) => if row.id == t then i.(flag := row.isQuakeTarget) else i
    case _ => i
  }

  /** The actions from `m` up to `n`, absorbed in turn. */
  function AbsorbAll(i: Inputs, actions: seq<Action>, m: nat, n: nat, c: CircleId, t: TargetId, server: string): Inputs
    requires m <= n <= |actions|
  {
    if n == m then i else Absorb(AbsorbAll(i, actions, m, n - 1, c, t, server), actions[n - 1], c, t, server)
  }

  lemma InForceFromInputs(w: World, c: CircleId, t: TargetId)
    requires c in w.db.circles && t in w.targets
    ensures InForce(w.targets, w.db, c, t) == TimerFrom(InputsOf(w, c, t))
  {
  }

  lemma PutInputs(w: World, u: TargetId, server: string, row: Stored, c: CircleId, t: TargetId)
    requires LiveCircle(w.db, c) && t in w.targets && u in w.targets
    ensures
      var after := World(w.targets, TimerPut(w.targets, w.db, u, server, [row]));
      && after.db.circles == w.db.circles
      && InputsOf(after, c, t) ==
         if u == t && w.db.circles[c].server == server
         then InputsOf(w, c, t).(listed := Some(row)) else InputsOf(w, c, t)
  {
    LastRowStands(w.db.timers, u, server, [row], 1);
  }

  lemma OverriddenInputs(
    w: World, overrides: map<(CircleId, TargetId), Stored>, d: CircleId, u: TargetId, c: CircleId, t: TargetId
  )
    requires LiveCircle(w.db, c) && t in w.targets && u in w.targets && LiveCircle(w.db, d)
    requires DiffersOnlyAt(w.db, overrides, d, u)
    ensures
      var after := World(w.targets, Overridden(w.targets, w.db, overrides, d, u));
      && after.db.circles == w.db.circles
      && InputsOf(after, c, t)
         == if d == c && u == t
            then InputsOf(w, c, t).(over := if (c, t) in overrides then Some(overrides[(c, t)]) else None)
            else InputsOf(w, c, t)
  {
  }

  lemma AbsorbsWrite(w: World, write: TimerWrite, c: CircleId, t: TargetId)
    requires LiveCircle(w.db, c) && t in w.targets && c in TimerStep(w, write).db.circles
    requires WellFormed(w.targets, w.db) && t in TimerStep(w, write).targets
    requires TimerStep(w, write).db.circles == w.db.circles
    ensures InputsOf(TimerStep(w, write), c, t)
            == Absorb(InputsOf(w, c, t), Write(write), c, t, w.db.circles[c].server)
  {
    match write
    case WriteTimer(u, server, window) =>
      if server in SERVERS && Validate(window).Ok? && u in w.targets {
        PutInputs(w, u, server, Validate(window).value, c, t);
      }
    case WriteOverride(d, u, window) =>
      if Validate(window).Ok? && u in w.targets && LiveCircle(w.db, d) {
        OverriddenInputs(w, w.db.overrides[(d, u) := Validate(window).value], d, u, c, t);
      }
    case ClearOverride(d, u) =>
      if (d, u) in w.db.overrides && u in w.targets && LiveCircle(w.db, d) {
        OverriddenInputs(w, w.db.overrides - {(d, u)}, d, u, c, t);
      }
    case _ =>
  }

  lemma AbsorbsStep(s: Race, a: Action, after: Race, c: CircleId, t: TargetId)
    requires WellFormed(s.world.targets, s.world.db) && LiveCircle(s.world.db, c) && t in s.world.targets
    requires after == Act(s, a)
    ensures LiveCircle(after.world.db, c) && t in after.world.targets
    ensures after.world.db.circles == s.world.db.circles
    ensures InputsOf(after.world, c, t) == Absorb(InputsOf(s.world, c, t), a, c, t, s.world.db.circles[c].server)
  {
    ActKeepsCell(s, a, c, t);
    if a.Write? {
      AbsorbsWrite(s.world, a.write, c, t);
    }
  }

  /** What a rebuild read is of a known target, and a log with rows when it was read still has them. */
  ghost predicate Reads(w: World, jobs: map<nat, Job>) {
    forall job :: job in jobs ==>
      && jobs[job].target in w.targets
      && (jobs[job].facts.rows > 0 ==> (jobs[job].circle, jobs[job].target) in w.db.reported)
  }

  lemma StepOnlyAdds(w: World, rest: Rest, write: TimerWrite)
    requires Tallied(w, rest)
    ensures
      var after := TimerStep(w, write);
      && w.db.reported <= after.db.reported && w.targets.Keys <= after.targets.Keys
      && Tallied(after, RestAfter(rest, w, write))
  {
  }

  lemma ActStaysSound(s: Race, a: Action)
    requires WellFormed(s.world.targets, s.world.db) && Tallied(s.world, s.rest) && Reads(s.world, s.jobs)
    ensures
      var after := Act(s, a);
      && WellFormed(after.world.targets, after.world.db) && Tallied(after.world, after.rest)
      && Reads(after.world, after.jobs) && after.world.db.circles == s.world.db.circles
  {
    if a.Write? {
      StepStaysWellFormed(s.world, a.write);
      StepKeepsCircles(s.world, a.write);
      StepOnlyAdds(s.world, s.rest, a.write);
    } else {
      assert Tallied(s.world, Act(s, a).rest);
    }
  }

  lemma {:induction false} RunStaysSound(start: Database, actions: seq<Action>, n: nat, s: Race)
    requires n <= |actions| && s == RunTo(start, actions, n) && Settled(start)
    ensures WellFormed(s.world.targets, s.world.db) && Tallied(s.world, s.rest) && Reads(s.world, s.jobs)
    ensures s.clock == n && s.world.db.circles == start.world.db.circles
  {
    if n == 0 {
    } else {
      var before := RunTo(start, actions, n - 1);
      RunStaysSound(start, actions, n - 1, before);
      ActStaysSound(before, actions[n - 1]);
    }
  }

  // ---------------------------------------------------------------- which boards are right

  /** The timer in force for a cell at a moment of the run. */
  ghost predicate ReadAt(start: Database, actions: seq<Action>, at: nat, c: CircleId, t: TargetId, timer: Timer) {
    && at <= |actions|
    && var w := RunTo(start, actions, at).world;
       LiveCircle(w.db, c) && t in w.targets && timer == InForce(w.targets, w.db, c, t)
  }

  /** A job pending after an action was pending before it, with the same timer, or is the snapshot just taken. */
  lemma JobsComeFrom(s: Race, a: Action, job: nat)
    requires job in Act(s, a).jobs
    ensures
      var j := Act(s, a).jobs[job];
      if job in s.jobs
      then j == s.jobs[job].(facts := j.facts, logAt := j.logAt)
      else
        && a.Snapshot? && LiveCircle(s.world.db, a.circle) && a.target in s.world.targets
        && var facts := FactsOf(s.rest, (a.circle, a.target));
           var timer := InForce(s.world.targets, s.world.db, a.circle, a.target);
           j == Job(a.circle, a.target, timer, facts, s.clock, s.clock)
  {
  }

  lemma {:induction false} JobsRemember(start: Database, actions: seq<Action>, n: nat, s: Race, job: nat)
    requires n <= |actions| && Settled(start) && s == RunTo(start, actions, n) && job in s.jobs
    ensures var j := s.jobs[job]; ReadAt(start, actions, j.at, j.circle, j.target, j.timer) && j.at <= n
  {
    if n == 0 {
    } else {
      var before := RunTo(start, actions, n - 1);
      RunStaysSound(start, actions, n - 1, before);
      JobsComeFrom(before, actions[n - 1], job);
      if job in before.jobs {
        JobsRemember(start, actions, n - 1, before, job);
      }
    }
  }

  /** Each board is what its last writer left: pushed and still right, or the timer of its rebuild's snapshot. */
  ghost predicate Accounted(start: Database, actions: seq<Action>, n: nat, s: Race, c: CircleId, t: TargetId) {
    (c, t) in s.world.db.boards ==>
      var origin := OriginOf(s, (c, t));
      if origin.FromPush? then !StaleIn(s.world, c, t)
      else origin.at <= n && ReadAt(start, actions, origin.at, c, t, s.world.db.boards[(c, t)])
  }

  lemma WriteAccounts(
    start: Database, actions: seq<Action>, n: nat, s: Race, write: TimerWrite, c: CircleId, t: TargetId
  )
    requires n < |actions| && actions[n] == Write(write) && s == RunTo(start, actions, n)
    requires LiveCircle(s.world.db, c) && t in s.world.targets && Accounted(start, actions, n, s, c, t)
    ensures Accounted(start, actions, n + 1, Act(s, actions[n]), c, t)
  {
    StepFollows(s.world, write, c, t);
    WritesStaleNothing(s.world, write, c, t);
    var after := AfterWrite(s, write);
    if (c, t) in after.world.db.boards {
      assert after.sources[(c, t)].origin
             == if Reaches(s.world, write, c, t) then FromPush(s.clock + 1) else OriginOf(s, (c, t));
    }
  }

  lemma StoreAccounts(start: Database, actions: seq<Action>, n: nat, s: Race, job: nat, c: CircleId, t: TargetId)
    requires n < |actions| && actions[n] == Store(job) && s == RunTo(start, actions, n)
    requires Settled(start) && job in s.jobs
    requires LiveCircle(s.world.db, c) && t in s.world.targets && Accounted(start, actions, n, s, c, t)
    ensures Accounted(start, actions, n + 1, Act(s, actions[n]), c, t)
  {
    JobsRemember(start, actions, n, s, job);
    StaleExactly(s, actions[n], c, t);
  }

  lemma NewcomerStaysAbsent(s: Race, a: Action, c: CircleId, t: TargetId)
    requires WellFormed(s.world.targets, s.world.db) && t !in s.world.targets
    requires Reads(s.world, s.jobs)
    ensures (c, t) !in Act(s, a).world.db.boards
  {
    assert (c, t) !in s.world.db.boards;
    if a.Write? {
      NewcomersHaveNoBoard(s.world, a.write, c, t);
    }
  }

  lemma OneMoreAccounts(start: Database, actions: seq<Action>, n: nat, s: Race, c: CircleId, t: TargetId)
    requires n < |actions| && s == RunTo(start, actions, n) && Settled(start)
    requires LiveCircle(s.world.db, c) && t in s.world.targets && Accounted(start, actions, n, s, c, t)
    ensures Accounted(start, actions, n + 1, Act(s, actions[n]), c, t)
  {
    var a := actions[n];
    if a.Write? {
      WriteAccounts(start, actions, n, s, a.write, c, t);
    } else if a.Store? && a.job in s.jobs {
      StoreAccounts(start, actions, n, s, a.job, c, t);
    }
  }

  lemma BeginningIsAccounted(start: Database, actions: seq<Action>, c: CircleId, t: TargetId)
    requires Settled(start) && LiveCircle(start.world.db, c)
    ensures Accounted(start, actions, 0, Begin(start), c, t)
  {
  }

  /** One action more, whether or not the target is known yet. */
  lemma ActAccounts(start: Database, actions: seq<Action>, n: nat, s: Race, after: Race, c: CircleId, t: TargetId)
    requires n < |actions| && s == RunTo(start, actions, n) && after == Act(s, actions[n]) && Settled(start)
    requires LiveCircle(s.world.db, c) && Accounted(start, actions, n, s, c, t)
    ensures Accounted(start, actions, n + 1, after, c, t)
  {
    RunStaysSound(start, actions, n, s);
    if t in s.world.targets {
      OneMoreAccounts(start, actions, n, s, c, t);
    } else {
      NewcomerStaysAbsent(s, actions[n], c, t);
    }
  }

  lemma {:induction false} BoardsAreAccounted(
    start: Database, actions: seq<Action>, n: nat, s: Race, c: CircleId, t: TargetId
  )
    requires n <= |actions| && s == RunTo(start, actions, n)
    requires Settled(start) && LiveCircle(start.world.db, c)
    ensures Accounted(start, actions, n, s, c, t)
  {
    if n == 0 {
      BeginningIsAccounted(start, actions, c, t);
    } else {
      var before := RunTo(start, actions, n - 1);
      BoardsAreAccounted(start, actions, n - 1, before, c, t);
      RunStaysSound(start, actions, n - 1, before);
      ActAccounts(start, actions, n - 1, before, s, c, t);
    }
  }

  /** The states a run passes through. */
  ghost function Trace(start: Database, actions: seq<Action>): (states: seq<Race>)
    ensures |states| == |actions| + 1
  {
    seq(|actions| + 1, k requires 0 <= k <= |actions| => RunTo(start, actions, k))
  }

  ghost predicate StepAt(states: seq<Race>, actions: seq<Action>, k: nat)
    requires k < |actions| && |states| == |actions| + 1
  {
    states[k + 1] == Act(states[k], actions[k]) && WellFormed(states[k].world.targets, states[k].world.db)
  }

  lemma TraceSteps(start: Database, actions: seq<Action>)
    requires Settled(start)
    ensures forall k :: 0 <= k < |actions| ==> StepAt(Trace(start, actions), actions, k)
  {
    forall k | 0 <= k < |actions| ensures StepAt(Trace(start, actions), actions, k) {
      RunStaysSound(start, actions, k, RunTo(start, actions, k));
    }
  }

  /** The timer in force later is found from the timer's parts now and the actions in between, without the tables. */
  lemma {:induction false} AbsorbsRun(
    states: seq<Race>, actions: seq<Action>, m: nat, n: nat, c: CircleId, t: TargetId, server: string, read: Inputs
  )
    requires m <= n <= |actions| && |states| == |actions| + 1
    requires forall k :: m <= k < n ==> StepAt(states, actions, k)
    requires LiveCircle(states[m].world.db, c) && t in states[m].world.targets
    requires server == states[m].world.db.circles[c].server && read == InputsOf(states[m].world, c, t)
    ensures
      var w := states[n].world;
      && LiveCircle(w.db, c) && t in w.targets && w.db.circles[c].server == server
      && InputsOf(w, c, t) == AbsorbAll(read, actions, m, n, c, t, server)
  {
    if n == m {
    } else {
      AbsorbsRun(states, actions, m, n - 1, c, t, server, read);
      assert StepAt(states, actions, n - 1);
      AbsorbsStep(states[n - 1], actions[n - 1], states[n], c, t);
    }
  }

  /** Does a rebuild's reading still hold at `n`, judged by the actions since? */
  ghost predicate StillHolds(start: Database, actions: seq<Action>, at: nat, n: nat, c: CircleId, t: TargetId)
    requires at <= n <= |actions|
  {
    var w := RunTo(start, actions, at).world;
    && LiveCircle(w.db, c) && t in w.targets
    && var read := InputsOf(w, c, t);
       TimerFrom(read) == TimerFrom(AbsorbAll(read, actions, at, n, c, t, w.db.circles[c].server))
  }

  /**
   * Which boards are right. After any run of writes and rebuilds, a readable board was derived under the timer in
   * force now exactly when a push wrote it last, or a rebuild did and the writes since its snapshot leave the timer,
   * made of this cell's override, its server's catalogue row and its target's flag, as the snapshot read it.
   */
  lemma RightExactly(start: Database, actions: seq<Action>, n: nat, s: Race, c: CircleId, t: TargetId)
    requires n <= |actions| && s == RunTo(start, actions, n)
    requires Settled(start)
    requires LiveCircle(start.world.db, c) && (c, t) in s.world.db.boards
    ensures
      var origin := OriginOf(s, (c, t));
      if origin.FromPush? then !StaleIn(s.world, c, t)
      else origin.at <= n && (!StaleIn(s.world, c, t) <==> StillHolds(start, actions, origin.at, n, c, t))
  {
    BoardsAreAccounted(start, actions, n, s, c, t);
    RunStaysSound(start, actions, n, s);
    var origin := OriginOf(s, (c, t));
    if origin.FromRebuild? {
      var read := RunTo(start, actions, origin.at);
      TraceSteps(start, actions);
      AbsorbsRun(
        Trace(start, actions), actions, origin.at, n, c, t, read.world.db.circles[c].server,
        InputsOf(read.world, c, t));
      InForceFromInputs(read.world, c, t);
      InForceFromInputs(s.world, c, t);
    }
  }

  /** The writes that can overtake a rebuild of this board. */
  predicate Moves(a: Action, c: CircleId, t: TargetId, server: string) {
    match a
    case Write(WriteTimer(u, on, _)) => u == t && on == server
    case Write(WriteOverride(d, u, _)) => d == c && u == t
    case Write(ClearOverride(d, u)) => d == c && u == t
    case Write(WriteTarget(row)) => row.id == t
    case _ => false
  }

  lemma {:induction false} NothingAbsorbed(
    i: Inputs, actions: seq<Action>, m: nat, n: nat, c: CircleId, t: TargetId, server: string
  )
    requires m <= n <= |actions| && forall k :: m <= k < n ==> !Moves(actions[k], c, t, server)
    ensures AbsorbAll(i, actions, m, n, c, t, server) == i
  {
    if n == m {
    } else {
      NothingAbsorbed(i, actions, m, n - 1, c, t, server);
    }
  }

  /** So a stale board was overtaken: after its rebuild's snapshot came a write to its override, window or target. */
  lemma StaleWasOvertaken(start: Database, actions: seq<Action>, n: nat, s: Race, c: CircleId, t: TargetId)
    requires n <= |actions| && s == RunTo(start, actions, n)
    requires Settled(start) && StaleIn(s.world, c, t)
    ensures
      var origin := OriginOf(s, (c, t));
      && origin.FromRebuild? && origin.at <= n && LiveCircle(start.world.db, c)
      && exists k :: origin.at <= k < n && Moves(actions[k], c, t, start.world.db.circles[c].server)
  {
    RunStaysSound(start, actions, n, s);
    RightExactly(start, actions, n, s, c, t);
    var at := OriginOf(s, (c, t)).at;
    var read := RunTo(start, actions, at);
    RunStaysSound(start, actions, at, read);
    BoardsAreAccounted(start, actions, n, s, c, t);
    if forall k :: at <= k < n ==> !Moves(actions[k], c, t, start.world.db.circles[c].server) {
      NothingAbsorbed(InputsOf(read.world, c, t), actions, at, n, c, t, start.world.db.circles[c].server);
    }
  }

  /** Without rebuilds, targeted recomputation keeps every board right. */
  lemma RunKeeps(start: Database, actions: seq<Action>, n: nat, s: Race)
    requires n <= |actions| && s == RunTo(start, actions, n)
    requires Settled(start)
    requires forall a :: a in actions ==> !a.Store?
    ensures Coherent(s.world.targets, s.world.db)
  {
    var w := s.world;
    RunStaysSound(start, actions, n, s);
    forall c, t | (c, t) in w.db.boards && LiveCircle(w.db, c) && t in w.targets
      ensures w.db.boards[(c, t)] == InForce(w.targets, w.db, c, t)
    {
      RightExactly(start, actions, n, s, c, t);
      OnlyPushes(start, actions, n, s, (c, t));
    }
  }

  /** With no rebuild stored, every board there was pushed. */
  lemma {:induction false} OnlyPushes(start: Database, actions: seq<Action>, n: nat, s: Race, k: Cell)
    requires n <= |actions| && s == RunTo(start, actions, n) && forall a :: a in actions ==> !a.Store?
    ensures OriginOf(s, k).FromPush?
  {
    if n == 0 {
    } else {
      OnlyPushes(start, actions, n - 1, RunTo(start, actions, n - 1), k);
      assert actions[n - 1] in actions;
    }
  }
}
