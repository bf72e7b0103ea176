/** What a board was derived from besides its timer, and when deriving it again would change nothing. */
module BoardRuns {
  import opened Core
  import opened ConsensusTypes
  import opened Windows
  import opened CatalogueTypes
  import opened TimerCatalogue
  import opened TimerRuns

  /** All that a derivation reads; the instant apart, it decides the answer. */
  datatype Board = Board(timer: Timer, facts: Facts)

  function BoardOf(s: Race, k: Cell): Board
    requires k in s.world.db.boards
  {
    Board(s.world.db.boards[k], SourceOf(s, k).facts)
  }

  /** What deriving it again would read now. */
  function DerivedNow(s: Race, k: Cell): Board
    requires k.0 in s.world.db.circles && k.1 in s.world.targets
  {
    Board(InForce(s.world.targets, s.world.db, k.0, k.1), FactsOf(s.rest, k))
  }

  function FactsAt(start: Database, actions: seq<Action>, n: nat, k: Cell): Facts
    requires n <= |actions|
  {
    FactsOf(RunTo(start, actions, n).rest, k)
  }

  // ---------------------------------------------------------------- what actions change of it

  /** What one action changes, read off the action alone. */
  function Note(f: Facts, a: Action, k: Cell): Facts {
    match a
    case Write(WriteQuake(c)) => if c == k.0 then f.(quakes := f.quakes + 1) else f
    case Write(WriteReport(c, t)) => if (c, t) == k then f.(rows := f.rows + 1) else f
    case Configure(c, threshold) => if c == k.0 then f.(threshold := threshold) else f
    case Revoke(c, members) => if c == k.0 then f.(revoked := members) else f
    case _ => f
  }

  /** The actions from `m` up to `n`, noted in turn. */
  function NoteAll(f: Facts, actions: seq<Action>, m: nat, n: nat, k: Cell): Facts
    requires m <= n <= |actions|
  {
    if n == m then f else Note(NoteAll(f, actions, m, n - 1, k), actions[n - 1], k)
  }

  lemma RestNotes(rest: Rest, w: World, a: Action, k: Cell)
    requires k.1 in w.targets
    ensures FactsOf(RestNext(rest, w, a), k) == Note(FactsOf(rest, k), a, k)
  {
  }

  lemma ActsOnRest(s: Race, a: Action)
    ensures Act(s, a).rest == RestNext(s.rest, s.world, a)
  {
  }

  lemma NotesStep(s: Race, a: Action, after: Race, k: Cell)
    requires k.1 in s.world.targets && after == Act(s, a)
    ensures FactsOf(after.rest, k) == Note(FactsOf(s.rest, k), a, k)
  {
    ActsOnRest(s, a);
    RestNotes(s.rest, s.world, a, k);
  }

  lemma {:induction false} NotesRun(
    states: seq<Race>, actions: seq<Action>, m: nat, n: nat, k: Cell, f: Facts
  )
    requires m <= n <= |actions| && |states| == |actions| + 1
    requires forall i :: m <= i < n ==> StepAt(states, actions, i)
    requires LiveCircle(states[m].world.db, k.0) && k.1 in states[m].world.targets && f == FactsOf(states[m].rest, k)
    ensures LiveCircle(states[n].world.db, k.0) && k.1 in states[n].world.targets
    ensures FactsOf(states[n].rest, k) == NoteAll(f, actions, m, n, k)
  {
    if n == m {
    } else {
      NotesRun(states, actions, m, n - 1, k, f);
      assert StepAt(states, actions, n - 1);
      NotesStep(states[n - 1], actions[n - 1], states[n], k);
      ActKeepsCell(states[n - 1], actions[n - 1], k.0, k.1);
    }
  }

  predicate NoQuake(actions: seq<Action>, m: nat, n: nat, c: CircleId)
    requires n <= |actions|
  {
    forall i :: m <= i < n ==> actions[i] != Write(WriteQuake(c))
  }

  predicate NoReport(actions: seq<Action>, m: nat, n: nat, k: Cell)
    requires n <= |actions|
  {
    forall i :: m <= i < n ==> actions[i] != Write(WriteReport(k.0, k.1))
  }

  /** Quakes and reports are never taken back, so their numbers stand exactly while there is no new one. */
  lemma {:induction false} NumbersStand(f: Facts, actions: seq<Action>, m: nat, n: nat, k: Cell)
    requires m <= n <= |actions|
    ensures
      var g := NoteAll(f, actions, m, n, k);
      && f.quakes <= g.quakes && f.rows <= g.rows
      && (g.quakes == f.quakes <==> NoQuake(actions, m, n, k.0))
      && (g.rows == f.rows <==> NoReport(actions, m, n, k))
  {
    if n == m {
    } else {
      NumbersStand(f, actions, m, n - 1, k);
      assert NoQuake(actions, m, n, k.0) <==>
               NoQuake(actions, m, n - 1, k.0) && actions[n - 1] != Write(WriteQuake(k.0));
      assert NoReport(actions, m, n, k) <==>
               NoReport(actions, m, n - 1, k) && actions[n - 1] != Write(WriteReport(k.0, k.1));
    }
  }

  /** The circle's threshold, whatever was set in between, is again what it was. */
  predicate ThresholdHolds(start: Database, actions: seq<Action>, m: nat, n: nat, k: Cell)
    requires m <= n <= |actions|
  {
    var was := FactsAt(start, actions, m, k);
    NoteAll(was, actions, m, n, k).threshold == was.threshold
  }

  /** And so are the members it counts as revoked. */
  predicate RevokedHolds(start: Database, actions: seq<Action>, m: nat, n: nat, k: Cell)
    requires m <= n <= |actions|
  {
    var was := FactsAt(start, actions, m, k);
    NoteAll(was, actions, m, n, k).revoked == was.revoked
  }

  // ---------------------------------------------------------------- where a board's facts come from

  ghost predicate KnownAt(start: Database, actions: seq<Action>, m: nat, k: Cell)
    requires m <= |actions|
  {
    k.1 in RunTo(start, actions, m).world.targets
  }

  /** What a rebuild holds: quakes and threshold of one moment, the log and the memberships of another. */
  ghost predicate ReadBetween(start: Database, actions: seq<Action>, n: nat, at: nat, logAt: nat, k: Cell, f: Facts)
    requires n <= |actions|
  {
    && at <= n && logAt <= n && KnownAt(start, actions, at, k) && KnownAt(start, actions, logAt, k)
    && var early, late := FactsAt(start, actions, at, k), FactsAt(start, actions, logAt, k);
       f == Facts(early.quakes, early.threshold, late.rows, late.revoked)
  }

  /** What one action makes of a pending rebuild. */
  lemma JobReads(s: Race, a: Action, job: nat)
    requires job in Act(s, a).jobs && job in s.jobs
    ensures
      var was, j := s.jobs[job], Act(s, a).jobs[job];
      var now := FactsOf(s.rest, (was.circle, was.target));
      || j == was
      || j == was.(facts := was.facts.(rows := now.rows, revoked := now.revoked), logAt := s.clock)
  {
  }

  lemma {:induction false} JobsHold(start: Database, actions: seq<Action>, n: nat, s: Race, job: nat)
    requires n <= |actions| && Settled(start) && s == RunTo(start, actions, n) && job in s.jobs
    ensures
      var j := s.jobs[job];
      ReadBetween(start, actions, n, j.at, j.logAt, (j.circle, j.target), j.facts)
  {
    if n == 0 {
    } else {
      var before := RunTo(start, actions, n - 1);
      RunStaysSound(start, actions, n - 1, before);
      JobsComeFrom(before, actions[n - 1], job);
      if job in before.jobs {
        JobsHold(start, actions, n - 1, before, job);
        JobReads(before, actions[n - 1], job);
      }
    }
  }

  /** A pushed board lacks no quake and no report; a rebuilt one has what its rebuild read. */
  ghost predicate Sourced(start: Database, actions: seq<Action>, n: nat, s: Race, k: Cell)
    requires n <= |actions|
  {
    k in s.world.db.boards ==>
      var origin, facts := OriginOf(s, k), SourceOf(s, k).facts;
      if origin.FromPush?
      then
        && origin.at <= n && KnownAt(start, actions, origin.at, k)
        && var early := FactsAt(start, actions, origin.at, k);
           facts == FactsOf(s.rest, k).(threshold := early.threshold, revoked := early.revoked)
      else ReadBetween(start, actions, n, origin.at, origin.logAt, k, facts)
  }

  lemma WriteSources(start: Database, actions: seq<Action>, n: nat, s: Race, write: TimerWrite, after: Race, k: Cell)
    requires n < |actions| && actions[n] == Write(write) && s == RunTo(start, actions, n) && s.clock == n
    requires after == Act(s, actions[n]) && LiveCircle(s.world.db, k.0) && k.1 in s.world.targets
    requires Sourced(start, actions, n, s, k)
    ensures Sourced(start, actions, n + 1, after, k)
  {
    StepFollows(s.world, write, k.0, k.1);
    assert after == RunTo(start, actions, n + 1);
    if k in after.world.db.boards {
      if Reaches(s.world, write, k.0, k.1) {
        assert after.sources[k] == Source(FromPush(n + 1), FactsOf(after.rest, k));
      } else {
        assert k in s.world.db.boards && after.sources[k] == SourceOf(s, k);
        assert FactsOf(after.rest, k) == FactsOf(s.rest, k);
      }
    }
  }

  lemma StoreSources(start: Database, actions: seq<Action>, n: nat, s: Race, job: nat, after: Race, k: Cell)
    requires n < |actions| && actions[n] == Store(job) && job in s.jobs && Settled(start)
    requires s == RunTo(start, actions, n) && after == Act(s, actions[n])
    requires k in s.world.db.boards ==> k in s.sources
    requires Sourced(start, actions, n, s, k)
    ensures Sourced(start, actions, n + 1, after, k)
  {
    var j := s.jobs[job];
    JobsHold(start, actions, n, s, job);
    if k == (j.circle, j.target) {
      assert after.sources[k] == Source(FromRebuild(j.at, j.logAt), j.facts);
    } else {
      assert k in after.world.db.boards ==> k in s.world.db.boards && after.sources[k] == s.sources[k];
    }
  }

  lemma OtherSources(start: Database, actions: seq<Action>, n: nat, s: Race, after: Race, k: Cell)
    requires n < |actions| && !actions[n].Write? && (actions[n].Store? ==> actions[n].job !in s.jobs)
    requires s == RunTo(start, actions, n) && after == Act(s, actions[n])
    requires k in s.world.db.boards ==> k in s.sources
    requires Sourced(start, actions, n, s, k)
    ensures Sourced(start, actions, n + 1, after, k)
  {
    assert after.world == s.world && after.sources == s.sources;
    assert FactsOf(after.rest, k).quakes == FactsOf(s.rest, k).quakes;
    assert FactsOf(after.rest, k).rows == FactsOf(s.rest, k).rows;
  }

  lemma ActHasSources(s: Race, a: Action, k: Cell)
    requires k in s.world.db.boards ==> k in s.sources
    ensures k in Act(s, a).world.db.boards ==> k in Act(s, a).sources
  {
    if a.Write? {
      assert Act(s, a).sources.Keys == Act(s, a).world.db.boards.Keys;
    }
  }

  /** Every board has its source on record. */
  lemma {:induction false} BoardsHaveSources(start: Database, actions: seq<Action>, n: nat, s: Race, k: Cell)
    requires n <= |actions| && s == RunTo(start, actions, n)
    ensures k in s.world.db.boards ==> k in s.sources
  {
    if n == 0 {
    } else {
      var before := RunTo(start, actions, n - 1);
      BoardsHaveSources(start, actions, n - 1, before, k);
      ActHasSources(before, actions[n - 1], k);
    }
  }

  lemma ActSources(start: Database, actions: seq<Action>, n: nat, s: Race, after: Race, k: Cell)
    requires n < |actions| && s == RunTo(start, actions, n) && after == Act(s, actions[n]) && Settled(start)
    requires LiveCircle(s.world.db, k.0) && Sourced(start, actions, n, s, k)
    ensures Sourced(start, actions, n + 1, after, k)
  {
    RunStaysSound(start, actions, n, s);
    BoardsHaveSources(start, actions, n, s, k);
    if k.1 !in s.world.targets {
      NewcomerStaysAbsent(s, actions[n], k.0, k.1);
    } else if actions[n].Write? {
      WriteSources(start, actions, n, s, actions[n].write, after, k);
    } else if actions[n].Store? && actions[n].job in s.jobs {
      StoreSources(start, actions, n, s, actions[n].job, after, k);
    } else {
      OtherSources(start, actions, n, s, after, k);
    }
  }

  lemma BeginningIsSourced(start: Database, actions: seq<Action>, k: Cell)
    requires Settled(start)
    ensures Sourced(start, actions, 0, Begin(start), k)
  {
    var s := Begin(start);
    assert RunTo(start, actions, 0) == s;
    assert k in s.world.db.boards ==> s.sources[k] == Source(FromPush(0), FactsOf(start.rest, k));
  }

  lemma {:induction false} BoardsAreSourced(start: Database, actions: seq<Action>, n: nat, s: Race, k: Cell)
    requires n <= |actions| && s == RunTo(start, actions, n)
    requires Settled(start) && LiveCircle(start.world.db, k.0)
    ensures Sourced(start, actions, n, s, k)
  {
    if n == 0 {
      BeginningIsSourced(start, actions, k);
    } else {
      var before := RunTo(start, actions, n - 1);
      BoardsAreSourced(start, actions, n - 1, before, k);
      RunStaysSound(start, actions, n - 1, before);
      ActSources(start, actions, n - 1, before, s, k);
    }
  }

  // ---------------------------------------------------------------- deriving again

  /** Nothing a rebuild read has moved since, each part judged by the actions since it was read. */
  ghost predicate ReadingHolds(start: Database, actions: seq<Action>, at: nat, logAt: nat, n: nat, k: Cell)
    requires at <= n <= |actions| && logAt <= n
  {
    && StillHolds(start, actions, at, n, k.0, k.1)
    && NoQuake(actions, at, n, k.0) && ThresholdHolds(start, actions, at, n, k)
    && NoReport(actions, logAt, n, k) && RevokedHolds(start, actions, logAt, n, k)
  }

  /** From where the cell was known on, each part of the facts stands or not by the actions alone. */
  lemma FactsSince(start: Database, actions: seq<Action>, m: nat, n: nat, s: Race, k: Cell)
    requires m <= n <= |actions| && s == RunTo(start, actions, n)
    requires Settled(start) && LiveCircle(start.world.db, k.0) && KnownAt(start, actions, m, k)
    ensures
      var was, now := FactsAt(start, actions, m, k), FactsOf(s.rest, k);
      && (now.quakes == was.quakes <==> NoQuake(actions, m, n, k.0))
      && (now.rows == was.rows <==> NoReport(actions, m, n, k))
      && (now.threshold == was.threshold <==> ThresholdHolds(start, actions, m, n, k))
      && (now.revoked == was.revoked <==> RevokedHolds(start, actions, m, n, k))
  {
    var before := RunTo(start, actions, m);
    RunStaysSound(start, actions, m, before);
    TraceSteps(start, actions);
    NotesRun(Trace(start, actions), actions, m, n, k, FactsOf(before.rest, k));
    NumbersStand(FactsOf(before.rest, k), actions, m, n, k);
  }

  /**
   * Deriving a readable board again would change nothing exactly when a push wrote it last and the circle's threshold
   * and revoked members are as they were then, or a rebuild did and nothing it read has moved since.
   */
  lemma NothingLeftToRecompute(
    start: Database, actions: seq<Action>, n: nat, s: Race, k: Cell
  )
    requires n <= |actions| && s == RunTo(start, actions, n) && Settled(start)
    requires LiveCircle(start.world.db, k.0) && k in s.world.db.boards
    ensures LiveCircle(s.world.db, k.0) && k.1 in s.world.targets
    ensures
      var origin := OriginOf(s, k);
      && origin.at <= n && (origin.FromRebuild? ==> origin.logAt <= n)
      && (BoardOf(s, k) == DerivedNow(s, k) <==>
            if origin.FromPush?
            then ThresholdHolds(start, actions, origin.at, n, k) && RevokedHolds(start, actions, origin.at, n, k)
            else ReadingHolds(start, actions, origin.at, origin.logAt, n, k))
  {
    RunStaysSound(start, actions, n, s);
    RightExactly(start, actions, n, s, k.0, k.1);
    BoardsAreSourced(start, actions, n, s, k);
    var origin := OriginOf(s, k);
    FactsSince(start, actions, origin.at, n, s, k);
    if origin.FromRebuild? {
      FactsSince(start, actions, origin.logAt, n, s, k);
    }
  }

  // ---------------------------------------------------------------- runs that go wrong

  const POINT := WindowRequest("fixed", Some(3600), Some(3600), None, None)

  const CELL: Cell := (0, 0)

  /** Two targets, one live circle, one of the targets reported and not cached. */
  function Beginning(): (start: Database)
    ensures Settled(start)
  {
    var mob := Target(0, "a", "a", "z", "z", "classic", "planar", false, Active);
    Database(
      World(map[0 := mob, 1 := mob.(id := 1, name := "b", nameNorm := "b")],
            Tables(map[], map[], map[0 := Circle("blue", true)], {CELL}, map[])),
      Rest(map[], map[], map[CELL := 1], map[]))
  }

  const NOTHING_ELSE: Facts := Facts(0, DEFAULT_THRESHOLD, 1, {})

  /** The rebuild all three runs begin with, and what it reads. */
  lemma SnapshotReads(actions: seq<Action>)
    requires |actions| > 0 && actions[0] == Snapshot(7, 0, 0)
    ensures
      var s := RunTo(Beginning(), actions, 1);
      && s.world == Beginning().world && s.rest == Beginning().rest && s.sources == map[] && s.clock == 1
      && s.jobs == map[7 := Job(0, 0, UnknownTimer(false), NOTHING_ELSE, 0, 0)]
  {
    assert RunTo(Beginning(), actions, 0) == Begin(Beginning());
    assert FactsOf(Beginning().rest, CELL) == NOTHING_ELSE;
  }

  /** A rebuild's snapshot, a timer written, the rebuild stored, another window's timer, a report. */
  const OVERTAKING: seq<Action> := [
    Snapshot(7, 0, 0),
    Write(WriteTimer(0, "blue", POINT)),
    Store(7),
    Write(WriteTimer(1, "blue", POINT)),
    Write(WriteReport(0, 0))]

  /** By the time the rebuild is stored, the timer it read is not the one in force. */
  lemma TimerOvertakes(s: Race)
    requires s == RunTo(Beginning(), OVERTAKING, 2)
    ensures LiveCircle(s.world.db, 0) && 0 in s.world.targets && !StaleIn(s.world, 0, 0)
    ensures InForce(s.world.targets, s.world.db, 0, 0).kind == Fixed
    ensures 7 in s.jobs && s.jobs[7] == Job(0, 0, UnknownTimer(false), NOTHING_ELSE, 0, 0)
  {
    var was := RunTo(Beginning(), OVERTAKING, 1);
    SnapshotReads(OVERTAKING);
    assert s == Act(was, OVERTAKING[1]);
    assert Validate(POINT).Ok?;
    PutInputs(was.world, 0, "blue", Validate(POINT).value, 0, 0);
    InForceFromInputs(s.world, 0, 0);
    StaleExactly(was, OVERTAKING[1], 0, 0);
  }

  /** The stored board is stale, outlives another window's write, and goes with the next report. */
  lemma OvertakenRebuild()
    ensures !StaleIn(RunTo(Beginning(), OVERTAKING, 2).world, 0, 0)
    ensures StaleIn(RunTo(Beginning(), OVERTAKING, 3).world, 0, 0)
    ensures StaleIn(RunTo(Beginning(), OVERTAKING, 4).world, 0, 0)
    ensures !StaleIn(RunTo(Beginning(), OVERTAKING, 5).world, 0, 0)
  {
    var s2, s3 := RunTo(Beginning(), OVERTAKING, 2), RunTo(Beginning(), OVERTAKING, 3);
    var s4 := RunTo(Beginning(), OVERTAKING, 4);
    TimerOvertakes(s2);
    StaleExactly(s2, OVERTAKING[2], 0, 0);
    assert s3 == Act(s2, OVERTAKING[2]);
    StaleExactly(s3, OVERTAKING[3], 0, 0);
    assert s4 == Act(s3, OVERTAKING[3]);
    StaleExactly(s4, OVERTAKING[4], 0, 0);
  }

  /** A rebuild's snapshot, a report, and the rebuild stored over the report's deletion. */
  const OUTRUN: seq<Action> := [Snapshot(7, 0, 0), Write(WriteReport(0, 0)), Store(7)]

  /** No timer moved, and still the board stored is not what deriving it now would give: it lacks the report. */
  lemma OutrunByAReport()
    ensures
      var s := RunTo(Beginning(), OUTRUN, 3);
      && CELL in s.world.db.boards && !StaleIn(s.world, 0, 0)
      && 0 in s.world.db.circles && 0 in s.world.targets && BoardOf(s, CELL) != DerivedNow(s, CELL)
  {
    var s1, s2, s3 := RunTo(Beginning(), OUTRUN, 1), RunTo(Beginning(), OUTRUN, 2), RunTo(Beginning(), OUTRUN, 3);
    SnapshotReads(OUTRUN);
    assert s2 == Act(s1, OUTRUN[1]);
    assert RowsOf(s2.rest, CELL) == 2;
    assert s3 == Act(s2, OUTRUN[2]);
    assert SourceOf(s3, CELL).facts.rows == 1;
  }

  /** A board rebuilt with nothing in between, and then the circle's threshold raised. */
  const RAISED: seq<Action> := [Snapshot(7, 0, 0), Store(7), Configure(0, 2)]

  /** A threshold drops and recomputes nothing, so the board keeps the answer of the old one. */
  lemma OutlivesItsThreshold()
    ensures
      var s := RunTo(Beginning(), RAISED, 2);
      && CELL in s.world.db.boards && 0 in s.world.db.circles && 0 in s.world.targets
      && BoardOf(s, CELL) == DerivedNow(s, CELL)
    ensures
      var s := RunTo(Beginning(), RAISED, 3);
      && CELL in s.world.db.boards && 0 in s.world.db.circles && 0 in s.world.targets
      && BoardOf(s, CELL) != DerivedNow(s, CELL)
  {
    var s1, s2, s3 := RunTo(Beginning(), RAISED, 1), RunTo(Beginning(), RAISED, 2), RunTo(Beginning(), RAISED, 3);
    SnapshotReads(RAISED);
    assert s2 == Act(s1, RAISED[1]);
    assert s2.world.db.boards == map[CELL := UnknownTimer(false)] && s2.rest == Beginning().rest;
    assert SourceOf(s2, CELL).facts == NOTHING_ELSE == FactsOf(s2.rest, CELL);
    assert s3 == Act(s2, RAISED[2]);
  }
}
