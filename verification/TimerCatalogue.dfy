/** Windows in three tables, the precedence between them, and the boards derived under the winner. */
module TimerCatalogue {
  import opened Core
  import opened ConsensusTypes
  import opened Windows
  import opened CatalogueTypes
  import Spelling

  type CircleId = nat

  const SERVERS: seq<string> := ["blue", "green", "red"]

  datatype Circle = Circle(server: string, live: bool)

  /**
   * `overrides` and `timers` by their primary keys; `reported`, the pairs with a row in the report log;
   * `boards`, the cached rows, each as the timer it was derived under.
   */
  datatype Tables = Tables(
    overrides: map<(CircleId, TargetId), Stored>,
    timers: map<(TargetId, string), Stored>,
    circles: map<CircleId, Circle>,
    reported: set<(CircleId, TargetId)>,
    boards: map<(CircleId, TargetId), Timer>)

  datatype TimerSource = FromOverride | FromCatalogue | FromNowhere

  datatype Resolved = Resolved(source: TimerSource, timer: Timer)

  datatype Failure =
    | BadServer | BadWindow(why: Refusal) | NoSuchTarget | NoSuchOverride | NoSuchCircle
    | PushFailed(circles: set<CircleId>)
    | NotAdmitted(reason: Spelling.Rejection)

  function UnknownTimer(isQuakeTarget: bool): Timer {
    Timer(Unknown, None, None, DEFAULT_FIXED_GRACE_SECONDS, None, isQuakeTarget)
  }

  /** The precedence over rows already read, as the whole-board path applies it. */
  function ResolveTimerFrom(target: Target, overrides: map<TargetId, Stored>, timers: map<TargetId, Stored>): Resolved {
    if target.id in overrides then Resolved(FromOverride, TimerOf(overrides[target.id], target.isQuakeTarget))
    else if target.id in timers then Resolved(FromCatalogue, TimerOf(timers[target.id], target.isQuakeTarget))
    else Resolved(FromNowhere, UnknownTimer(target.isQuakeTarget))
  }

  /** The precedence itself: this circle's override, then the catalogue on its server, then nothing. */
  function Effective(db: Tables, circle: CircleId, server: string, target: TargetId, isQuakeTarget: bool): Resolved {
    if (circle, target) in db.overrides then
      Resolved(FromOverride, TimerOf(db.overrides[(circle, target)], isQuakeTarget))
    else if (target, server) in db.timers then
      Resolved(FromCatalogue, TimerOf(db.timers[(target, server)], isQuakeTarget))
    else Resolved(FromNowhere, UnknownTimer(isQuakeTarget))
  }

  type Targets = map<TargetId, Target>

  predicate LiveCircle(db: Tables, circle: CircleId) {
    circle in db.circles && db.circles[circle].live
  }

  /** The timer in force for a live circle and a known target. */
  function InForce(targets: Targets, db: Tables, circle: CircleId, target: TargetId): Timer
    requires circle in db.circles && target in targets
  {
    Effective(db, circle, db.circles[circle].server, target, targets[target].isQuakeTarget).timer
  }

  /** A board somebody can read, derived under a timer that is no longer the one in force. */
  predicate Stale(targets: Targets, db: Tables, circle: CircleId, target: TargetId) {
    && (circle, target) in db.boards && LiveCircle(db, circle) && target in targets
    && db.boards[(circle, target)] != InForce(targets, db, circle, target)
  }

  /** Every board a reader can reach was derived under the timer in force now. */
  ghost predicate Coherent(targets: Targets, db: Tables) {
    forall c, t :: (c, t) in db.boards && LiveCircle(db, c) && t in targets ==>
      db.boards[(c, t)] == InForce(targets, db, c, t)
  }

  /** The foreign keys and CHECK constraints, and that only what has been reported is cached. */
  ghost predicate WellFormed(targets: Targets, db: Tables) {
    && (forall c, t :: (c, t) in db.boards ==> (c, t) in db.reported)
    && (forall c, t :: (c, t) in db.reported ==> t in targets)
    && (forall c, t :: (c, t) in db.overrides ==> t in targets && Checks(db.overrides[(c, t)]))
    && (forall t, s :: (t, s) in db.timers ==> t in targets && s in SERVERS && Checks(db.timers[(t, s)]))
    && (forall c :: c in db.circles ==> db.circles[c].server in SERVERS)
  }

  // ---------------------------------------------------------------- the push

  /** Is this circle one the push recomputes? */
  predicate Touched(db: Tables, circles: set<CircleId>, skipOverridden: bool, target: TargetId, c: CircleId) {
    c in circles && !(skipOverridden && (c, target) in db.overrides)
  }

  /** One target recomputed in each of `circles`: stored if it has ever been reported, dropped if not. */
  function Pushed(targets: Targets, db: Tables, circles: set<CircleId>, target: TargetId, skipOverridden: bool): Tables
    requires target in targets && circles <= db.circles.Keys
  {
    db.(boards :=
          map k | k in db.boards.Keys + db.reported
               && (if k.1 == target && Touched(db, circles, skipOverridden, target, k.0)
                   then k in db.reported else k in db.boards)
            :: if k.1 == target && Touched(db, circles, skipOverridden, target, k.0)
               then InForce(targets, db, k.0, target) else db.boards[k])
  }

  function LiveOn(db: Tables, server: string): set<CircleId> {
    set c | c in db.circles && db.circles[c].live && db.circles[c].server == server
  }

  function AllLive(db: Tables): set<CircleId> {
    set c | c in db.circles && db.circles[c].live
  }

  /** A write is followed far enough when every live timer it moved belongs to a cell that was recomputed. */
  lemma PushRestoresCoherence(
    before: Targets, targets: Targets, was: Tables, db: Tables, circles: set<CircleId>, target: TargetId,
    skipOverridden: bool
  )
    requires Coherent(before, was) && target in targets && circles <= db.circles.Keys
    requires db.boards == was.boards && db.circles == was.circles
    requires forall c, t :: (c, t) in db.boards ==> t in before && t in targets
    requires forall c, t :: LiveCircle(db, c) && t in before && t in targets
               && !(t == target && Touched(db, circles, skipOverridden, target, c))
               ==> InForce(targets, db, c, t) == InForce(before, was, c, t)
    ensures Coherent(targets, Pushed(targets, db, circles, target, skipOverridden))
  {
  }

  /** A catalogue timer moves only the circles on its server that have not overridden it. */
  lemma CatalogueWriteMovesOnly(targets: Targets, db: Tables, target: TargetId, server: string, row: Stored)
    requires target in targets
    ensures
      var after := db.(timers := db.timers[(target, server) := row]);
      forall c, t ::
        LiveCircle(db, c) && t in targets && !(t == target && Touched(after, LiveOn(after, server), true, target, c))
        ==> InForce(targets, after, c, t) == InForce(targets, db, c, t)
  {
  }

  /** `overrides` differs from those stored in one cell at most. */
  ghost predicate DiffersOnlyAt(
    db: Tables, overrides: map<(CircleId, TargetId), Stored>, circle: CircleId, target: TargetId
  ) {
    forall c, t :: (c, t) != (circle, target) ==>
      && ((c, t) in overrides <==> (c, t) in db.overrides)
      && ((c, t) in overrides ==> overrides[(c, t)] == db.overrides[(c, t)])
  }

  /** An override is this circle's alone, set or cleared. */
  lemma OverrideMovesOnly(
    targets: Targets, db: Tables, circle: CircleId, target: TargetId, overrides: map<(CircleId, TargetId), Stored>
  )
    requires target in targets && DiffersOnlyAt(db, overrides, circle, target)
    ensures
      var after := db.(overrides := overrides);
      forall c, t :: LiveCircle(db, c) && t in targets && !(t == target && Touched(after, {circle}, false, target, c))
                 ==> InForce(targets, after, c, t) == InForce(targets, db, c, t)
  {
  }

  /**
   * Had the flag's fan-out skipped the circles holding an override, as the catalogue timer's does, it would have
   * left exactly their boards stale: the flag is stamped on every rung.
   */
  lemma FlagPushMustNotSkip(before: Targets, targets: Targets, db: Tables, target: TargetId)
    requires WellFormed(before, db) && Coherent(before, db) && target in before
    requires targets == before[target := before[target].(isQuakeTarget := !before[target].isQuakeTarget)]
    ensures Coherent(targets, Pushed(targets, db, AllLive(db), target, false))
    ensures Coherent(targets, Pushed(targets, db, AllLive(db), target, true))
       <==> forall c: CircleId :: LiveCircle(db, c) && (c, target) in db.overrides ==> (c, target) !in db.boards
  {
    PushRestoresCoherence(before, targets, db, db, AllLive(db), target, false);
    var skipped := Pushed(targets, db, AllLive(db), target, true);
    forall c: CircleId | LiveCircle(db, c) && (c, target) in db.overrides && (c, target) in db.boards
      ensures (c, target) in skipped.boards && skipped.boards[(c, target)] == InForce(before, db, c, target)
           && skipped.boards[(c, target)] != InForce(targets, skipped, c, target)
    {
    }
    if forall c: CircleId :: LiveCircle(db, c) && (c, target) in db.overrides ==> (c, target) !in db.boards {
      forall c, t | (c, t) in skipped.boards && LiveCircle(skipped, c) && t in targets
        ensures skipped.boards[(c, t)] == InForce(targets, skipped, c, t)
      {
      }
    }
  }

  /** What storing a derivation leaves: a row, unless the log it was derived from held none. */
  function StoredOrDropped(db: Tables, circle: CircleId, target: TargetId, timer: Timer, sawRows: bool): Tables {
    if sawRows
    then db.(boards := db.boards[(circle, target) := timer])
    else db.(boards := db.boards - {(circle, target)})
  }

  // ---------------------------------------------------------------- one window's rows

  function PutAll(timers: map<(TargetId, string), Stored>, target: TargetId, server: string, rows: seq<Stored>, n: nat)
    : map<(TargetId, string), Stored>
    requires n <= |rows|
  {
    if n == 0 then timers else PutAll(timers, target, server, rows, n - 1)[(target, server) := rows[n - 1]]
  }

  function TimerPut(targets: Targets, db: Tables, target: TargetId, server: string, rows: seq<Stored>): Tables
    requires target in targets
  {
    var written := db.(timers := PutAll(db.timers, target, server, rows, |rows|));
    Pushed(targets, written, LiveOn(written, server), target, true)
  }

  lemma {:induction false} LastRowStands(
    timers: map<(TargetId, string), Stored>, target: TargetId, server: string, rows: seq<Stored>, n: nat
  )
    requires 0 < n <= |rows|
    ensures PutAll(timers, target, server, rows, n) == timers[(target, server) := rows[n - 1]]
  {
    if n == 1 {
    } else {
      LastRowStands(timers, target, server, rows, n - 1);
    }
  }

  lemma PushStaysWellFormed(
    targets: Targets, db: Tables, circles: set<CircleId>, target: TargetId, skipOverridden: bool
  )
    requires WellFormed(targets, db) && target in targets && circles <= db.circles.Keys
    ensures WellFormed(targets, Pushed(targets, db, circles, target, skipOverridden))
  {
  }

  lemma PutStaysWellFormed(targets: Targets, db: Tables, target: TargetId, server: string, rows: seq<Stored>)
    requires WellFormed(targets, db) && target in targets && server in SERVERS && rows != []
    requires forall i :: 0 <= i < |rows| ==> Checks(rows[i])
    ensures WellFormed(targets, TimerPut(targets, db, target, server, rows))
  {
    LastRowStands(db.timers, target, server, rows, |rows|);
    var written := db.(timers := db.timers[(target, server) := rows[|rows| - 1]]);
    PushStaysWellFormed(targets, written, LiveOn(written, server), target, true);
  }

  lemma RecomputedIsPushed(targets: Targets, db: Tables, circle: CircleId, target: TargetId, skipOverridden: bool)
    requires WellFormed(targets, db) && circle in db.circles && target in targets
    ensures Pushed(targets, db, {circle}, target, skipOverridden) ==
            if Touched(db, {circle}, skipOverridden, target, circle)
            then StoredOrDropped(
                   db, circle, target, InForce(targets, db, circle, target), (circle, target) in db.reported)
            else db
  {
    if Touched(db, {circle}, skipOverridden, target, circle) {
      TouchedIsPushed(targets, db, circle, target, skipOverridden);
    } else {
      assert Pushed(targets, db, {circle}, target, skipOverridden).boards == db.boards;
    }
  }

  lemma TouchedIsPushed(targets: Targets, db: Tables, circle: CircleId, target: TargetId, skipOverridden: bool)
    requires WellFormed(targets, db) && circle in db.circles && target in targets
    requires Touched(db, {circle}, skipOverridden, target, circle)
    ensures Pushed(targets, db, {circle}, target, skipOverridden) ==
            StoredOrDropped(
              db, circle, target, InForce(targets, db, circle, target), (circle, target) in db.reported)
  {
    var stored := StoredOrDropped(
      db, circle, target, InForce(targets, db, circle, target), (circle, target) in db.reported);
    assert Pushed(targets, db, {circle}, target, skipOverridden).boards == stored.boards;
  }

  /** Recomputing one circle more is the push over one circle more. */
  lemma PushOneMore(
    targets: Targets, db: Tables, done: set<CircleId>, c: CircleId, target: TargetId, skipOverridden: bool
  )
    requires target in targets && done <= db.circles.Keys && c in db.circles && c !in done
    ensures
      var sofar := Pushed(targets, db, done, target, skipOverridden);
      && sofar.circles == db.circles
      && Pushed(targets, sofar, {c}, target, skipOverridden) == Pushed(targets, db, done + {c}, target, skipOverridden)
  {
    var sofar := Pushed(targets, db, done, target, skipOverridden);
    var both := Pushed(targets, sofar, {c}, target, skipOverridden);
    var whole := Pushed(targets, db, done + {c}, target, skipOverridden);
    forall k ensures k in both.boards <==> k in whole.boards {
    }
    forall k | k in both.boards ensures both.boards[k] == whole.boards[k] {
    }
    assert both.boards == whole.boards;
  }

  // ---------------------------------------------------------------- one write

  datatype World = World(targets: Targets, db: Tables)

  datatype TimerWrite =
    | WriteTimer(target: TargetId, server: string, window: WindowRequest)
    | WriteOverride(circle: CircleId, target: TargetId, window: WindowRequest)
    | ClearOverride(circle: CircleId, target: TargetId)
    | WriteTarget(row: Target)
    | WriteReport(circle: CircleId, target: TargetId)
    | WriteQuake(circle: CircleId)

  /** An override set or cleared, and its one board. */
  function Overridden(
    targets: Targets, db: Tables, overrides: map<(CircleId, TargetId), Stored>, c: CircleId, t: TargetId
  ): Tables
    requires LiveCircle(db, c) && t in targets
  {
    Pushed(targets, db.(overrides := overrides), {c}, t, false)
  }

  /** What one write, refused or not, makes of tables and boards. */
  function TimerStep(w: World, write: TimerWrite): World {
    var World(targets, db) := w;
    match write
    case WriteTimer(t, server, window) =>
      if server in SERVERS && Validate(window).Ok? && t in targets
      then World(targets, TimerPut(targets, db, t, server, [Validate(window).value])) else w
    case WriteOverride(c, t, window) =>
      if Validate(window).Ok? && t in targets && LiveCircle(db, c)
      then World(targets, Overridden(targets, db, db.overrides[(c, t) := Validate(window).value], c, t)) else w
    case ClearOverride(c, t) =>
      if (c, t) in db.overrides && t in targets && LiveCircle(db, c)
      then World(targets, Overridden(targets, db, db.overrides - {(c, t)}, c, t)) else w
    case WriteTarget(row) =>
      if row.id !in targets then World(targets[row.id := row], db)
      else if targets[row.id].isQuakeTarget == row.isQuakeTarget then World(targets[row.id := row], db)
      else World(targets[row.id := row], Pushed(targets[row.id := row], db, AllLive(db), row.id, false))
    case WriteReport(c, t) =>
      if t in targets
      then World(targets, db.(reported := db.reported + {(c, t)}, boards := db.boards - {(c, t)}))
      else w
    case WriteQuake(c) => World(targets, db.(boards := map k | k in db.boards && k.0 != c :: db.boards[k]))
  }

  // ---------------------------------------------------------------- one write, seen from one board

  /** The write is accepted and recomputes this board. */
  predicate Reaches(w: World, write: TimerWrite, c: CircleId, t: TargetId)
    requires LiveCircle(w.db, c)
  {
    match write
    case WriteTimer(u, server, window) =>
      && u == t && server in SERVERS && Validate(window).Ok? && t in w.targets
      && w.db.circles[c].server == server && (c, t) !in w.db.overrides
    case WriteOverride(d, u, window) => d == c && u == t && Validate(window).Ok? && t in w.targets
    case ClearOverride(d, u) => d == c && u == t && (c, t) in w.db.overrides && t in w.targets
    case WriteTarget(row) => row.id == t && t in w.targets && w.targets[t].isQuakeTarget != row.isQuakeTarget
    case WriteReport(_, _) => false
    case WriteQuake(_) => false
  }

  /** The write is accepted and drops this board. */
  predicate Drops(w: World, write: TimerWrite, c: CircleId, t: TargetId) {
    match write
    case WriteReport(d, u) => d == c && u == t && t in w.targets
    case WriteQuake(d) => d == c
    case _ => false
  }

  /** The board as a recomputation leaves it. */
  ghost predicate Derived(targets: Targets, was: Tables, db: Tables, c: CircleId, t: TargetId)
    requires LiveCircle(db, c) && t in targets
  {
    && ((c, t) in db.boards <==> (c, t) in was.reported)
    && ((c, t) in db.boards ==> db.boards[(c, t)] == InForce(targets, db, c, t))
  }

  ghost predicate SameBoard(was: Tables, db: Tables, c: CircleId, t: TargetId) {
    && ((c, t) in db.boards <==> (c, t) in was.boards)
    && ((c, t) in db.boards ==> db.boards[(c, t)] == was.boards[(c, t)])
  }

  /** What a write does to one board: derive it again, drop it, or leave both it and its timer as they were. */
  ghost predicate Follows(w: World, write: TimerWrite, after: World, c: CircleId, t: TargetId)
    requires LiveCircle(w.db, c) && t in w.targets
  {
    && LiveCircle(after.db, c) && after.db.circles == w.db.circles && t in after.targets
    && (Reaches(w, write, c, t) ==> Derived(after.targets, w.db, after.db, c, t))
    && (!Reaches(w, write, c, t) ==> InForce(after.targets, after.db, c, t) == InForce(w.targets, w.db, c, t))
    && (Drops(w, write, c, t) ==> (c, t) !in after.db.boards)
    && (!Reaches(w, write, c, t) && !Drops(w, write, c, t) ==> SameBoard(w.db, after.db, c, t))
  }

  lemma PutFollows(targets: Targets, db: Tables, u: TargetId, server: string, row: Stored, c: CircleId, t: TargetId)
    requires LiveCircle(db, c) && t in targets && u in targets
    ensures
      var after := TimerPut(targets, db, u, server, [row]);
      && after.circles == db.circles
      && if u == t && db.circles[c].server == server && (c, t) !in db.overrides then Derived(targets, db, after, c, t)
         else InForce(targets, after, c, t) == InForce(targets, db, c, t) && SameBoard(db, after, c, t)
  {
    LastRowStands(db.timers, u, server, [row], 1);
    CatalogueWriteMovesOnly(targets, db, u, server, row);
  }

  lemma OverriddenFollows(
    targets: Targets, db: Tables, overrides: map<(CircleId, TargetId), Stored>, d: CircleId, u: TargetId,
    c: CircleId, t: TargetId
  )
    requires LiveCircle(db, c) && LiveCircle(db, d) && t in targets && u in targets
             && DiffersOnlyAt(db, overrides, d, u)
    ensures
      var after := Overridden(targets, db, overrides, d, u);
      && after.circles == db.circles
      && if d == c && u == t then Derived(targets, db, after, c, t)
         else InForce(targets, after, c, t) == InForce(targets, db, c, t) && SameBoard(db, after, c, t)
  {
    OverrideMovesOnly(targets, db, d, u, overrides);
  }

  lemma StepFollows(w: World, write: TimerWrite, c: CircleId, t: TargetId)
    requires LiveCircle(w.db, c) && t in w.targets
    ensures Follows(w, write, TimerStep(w, write), c, t)
  {
    match write
    case WriteTimer(u, server, window) =>
      if server in SERVERS && Validate(window).Ok? && u in w.targets {
        PutFollows(w.targets, w.db, u, server, Validate(window).value, c, t);
      }
    case WriteOverride(d, u, window) =>
      if Validate(window).Ok? && u in w.targets && LiveCircle(w.db, d) {
        OverriddenFollows(w.targets, w.db, w.db.overrides[(d, u) := Validate(window).value], d, u, c, t);
      }
    case ClearOverride(d, u) =>
      if (d, u) in w.db.overrides && u in w.targets && LiveCircle(w.db, d) {
        OverriddenFollows(w.targets, w.db, w.db.overrides - {(d, u)}, d, u, c, t);
      }
    case WriteTarget(row) =>
    case WriteReport(_, _) =>
    case WriteQuake(_) =>
  }

  lemma StepKeepsCircles(w: World, write: TimerWrite)
    ensures TimerStep(w, write).db.circles == w.db.circles
  {
  }

  lemma StepStaysWellFormed(w: World, write: TimerWrite)
    requires WellFormed(w.targets, w.db)
    ensures WellFormed(TimerStep(w, write).targets, TimerStep(w, write).db)
  {
    match write
    case WriteTimer(t, server, window) =>
      if server in SERVERS && Validate(window).Ok? && t in w.targets {
        PutStaysWellFormed(w.targets, w.db, t, server, [Validate(window).value]);
      }
    case WriteOverride(c, t, window) =>
      if Validate(window).Ok? && t in w.targets && LiveCircle(w.db, c) {
        var written := w.db.(overrides := w.db.overrides[(c, t) := Validate(window).value]);
        PushStaysWellFormed(w.targets, written, {c}, t, false);
      }
    case ClearOverride(c, t) =>
      if (c, t) in w.db.overrides && t in w.targets && LiveCircle(w.db, c) {
        PushStaysWellFormed(w.targets, w.db.(overrides := w.db.overrides - {(c, t)}), {c}, t, false);
      }
    case WriteTarget(row) =>
      if row.id in w.targets {
        PushStaysWellFormed(w.targets[row.id := row], w.db, AllLive(w.db), row.id, false);
      }
    case WriteReport(_, _) =>
    case WriteQuake(_) =>
  }

  /** A target not yet known has no boards, and being added gives it none. */
  lemma NewcomersHaveNoBoard(w: World, write: TimerWrite, c: CircleId, t: TargetId)
    requires WellFormed(w.targets, w.db) && t !in w.targets
    ensures (c, t) !in TimerStep(w, write).db.boards
  {
    StepStaysWellFormed(w, write);
    assert (c, t) !in w.db.boards;
  }

  /** No write makes a board stale, and one it reaches or drops is not stale after it, whatever it was before. */
  lemma WritesStaleNothing(w: World, write: TimerWrite, c: CircleId, t: TargetId)
    requires LiveCircle(w.db, c) && t in w.targets
    ensures Stale(TimerStep(w, write).targets, TimerStep(w, write).db, c, t)
       <==> Stale(w.targets, w.db, c, t) && !Reaches(w, write, c, t) && !Drops(w, write, c, t)
  {
    StepFollows(w, write, c, t);
  }
}
