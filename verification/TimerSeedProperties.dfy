/** A grouped seed run against the file read straight down: the same windows, whether or not it was interrupted. */
module TimerSeedProperties {
  import opened ConsensusTypes
  import opened Windows
  import opened CatalogueTypes
  import opened TimerCatalogue
  import opened TimerSeed

  // ---------------------------------------------------------------- the file, row by row

  /** The reference: every row upserted in file order. */
  function FileOrder(timers: map<Pair, Stored>, rows: seq<Row>, n: nat): map<Pair, Stored>
    requires n <= |rows|
  {
    if n == 0 then timers else FileOrder(timers, rows, n - 1)[rows[n - 1].pair := rows[n - 1].window]
  }

  /** What the first `n` rows say about one window, in order. */
  function Said(rows: seq<Row>, n: nat, pair: Pair): seq<Stored>
    requires n <= |rows|
  {
    if n == 0 then []
    else Said(rows, n - 1, pair) + if rows[n - 1].pair == pair then [rows[n - 1].window] else []
  }

  function RowsFor(groups: seq<Group>, pair: Pair): seq<Stored> {
    var i := IndexOf(groups, pair);
    if i < |groups| then groups[i].rows else []
  }

  lemma AddingFiles(groups: seq<Group>, row: Row, pair: Pair)
    requires DistinctPairs(groups)
    ensures RowsFor(AddRow(groups, row), pair) == RowsFor(groups, pair) + if row.pair == pair then [row.window] else []
  {
    IndexAfterAdding(groups, row);
  }

  /** Grouping loses no row, moves none to another window, and keeps each window's rows in file order. */
  lemma {:induction false} GroupingKeepsEveryRow(rows: seq<Row>, n: nat, pair: Pair)
    requires n <= |rows|
    ensures RowsFor(Grouped(rows, n), pair) == Said(rows, n, pair)
  {
    if n == 0 {
    } else {
      var before := Grouped(rows, n - 1);
      GroupedIsDistinct(rows, n - 1);
      GroupingKeepsEveryRow(rows, n - 1, pair);
      AddingFiles(before, rows[n - 1], pair);
    }
  }

  lemma {:induction false} FileOrderSays(timers: map<Pair, Stored>, rows: seq<Row>, n: nat, pair: Pair)
    requires n <= |rows|
    ensures
      var said, after := Said(rows, n, pair), FileOrder(timers, rows, n);
      && (pair in after <==> said != [] || pair in timers)
      && (said != [] ==> after[pair] == said[|said| - 1])
      && (said == [] && pair in timers ==> after[pair] == timers[pair])
  {
    if n == 0 {
    } else {
      FileOrderSays(timers, rows, n - 1, pair);
    }
  }

  // ---------------------------------------------------------------- the run, cell by cell

  ghost predicate SoundGroups(targets: Targets, groups: seq<Group>) {
    DistinctPairs(groups) && forall i :: 0 <= i < |groups| ==> SoundGroup(targets, groups[i])
  }

  predicate Reached(groups: seq<Group>, n: nat, pair: Pair) {
    IndexOf(groups, pair) < n
  }

  function Final(groups: seq<Group>, pair: Pair): Stored
    requires IndexOf(groups, pair) < |groups| && RowsFor(groups, pair) != []
  {
    var said := RowsFor(groups, pair);
    said[|said| - 1]
  }

  lemma ReachedOneMore(groups: seq<Group>, n: nat, pair: Pair)
    requires DistinctPairs(groups) && n < |groups|
    ensures Reached(groups, n + 1, pair) <==> Reached(groups, n, pair) || pair == groups[n].pair
  {
    IndexIs(groups, n);
  }

  /** After `n` windows each reached one is as its last row says, and no other has moved. */
  lemma {:induction false} TimersAfter(targets: Targets, db: Tables, groups: seq<Group>, n: nat, pair: Pair)
    requires n <= |groups| && SoundGroups(targets, groups)
    ensures
      var after := ApplyWindows(targets, db, groups, n);
      && after.overrides == db.overrides && after.circles == db.circles && after.reported == db.reported
      && (pair in after.timers <==> Reached(groups, n, pair) || pair in db.timers)
      && (Reached(groups, n, pair) ==> RowsFor(groups, pair) != [] && after.timers[pair] == Final(groups, pair))
      && (!Reached(groups, n, pair) && pair in db.timers ==> after.timers[pair] == db.timers[pair])
  {
    if n == 0 {
    } else {
      TimersAfter(targets, db, groups, n - 1, pair);
      var group, was := groups[n - 1], ApplyWindows(targets, db, groups, n - 1);
      assert SoundGroup(targets, group);
      ReachedOneMore(groups, n - 1, pair);
      IndexIs(groups, n - 1);
      LastRowStands(was.timers, group.pair.0, group.pair.1, group.rows, |group.rows|);
    }
  }

  /** Does the run move this circle's timer for this target? */
  predicate Moves(db: Tables, groups: seq<Group>, n: nat, c: CircleId, t: TargetId) {
    LiveCircle(db, c) && (c, t) !in db.overrides && Reached(groups, n, (t, db.circles[c].server))
  }

  lemma OneWindowsBoards(targets: Targets, was: Tables, group: Group, c: CircleId, t: TargetId)
    requires SoundGroup(targets, group)
    ensures
      var after := ApplyWindow(targets, was, group);
      if LiveCircle(was, c) && (c, t) !in was.overrides && (t, was.circles[c].server) == group.pair then
        && ((c, t) in after.boards <==> (c, t) in was.reported)
        && ((c, t) in after.boards ==>
              after.boards[(c, t)] == TimerOf(group.rows[|group.rows| - 1], targets[t].isQuakeTarget))
      else
        && ((c, t) in after.boards <==> (c, t) in was.boards)
        && ((c, t) in after.boards ==> after.boards[(c, t)] == was.boards[(c, t)])
  {
    LastRowStands(was.timers, group.pair.0, group.pair.1, group.rows, |group.rows|);
  }

  /** This board after `n` windows: derived under the reached window's last row, or as it was. */
  ghost predicate BoardIs(
    targets: Targets, db: Tables, after: Tables, groups: seq<Group>, n: nat, c: CircleId, t: TargetId
  )
    requires n <= |groups|
  {
    if Moves(db, groups, n, c, t) then
      && ((c, t) in after.boards <==> (c, t) in db.reported)
      && ((c, t) in after.boards ==>
            && t in targets && RowsFor(groups, (t, db.circles[c].server)) != []
            && after.boards[(c, t)] == TimerOf(Final(groups, (t, db.circles[c].server)), targets[t].isQuakeTarget))
    else
      && ((c, t) in after.boards <==> (c, t) in db.boards)
      && ((c, t) in after.boards ==> after.boards[(c, t)] == db.boards[(c, t)])
  }

  lemma BoardOneMore(targets: Targets, db: Tables, was: Tables, groups: seq<Group>, n: nat, c: CircleId, t: TargetId)
    requires n < |groups| && SoundGroups(targets, groups) && SoundGroup(targets, groups[n])
    requires was.overrides == db.overrides && was.circles == db.circles && was.reported == db.reported
    requires BoardIs(targets, db, was, groups, n, c, t)
    ensures BoardIs(targets, db, ApplyWindow(targets, was, groups[n]), groups, n + 1, c, t)
  {
    OneWindowsBoards(targets, was, groups[n], c, t);
    IndexIs(groups, n);
    if LiveCircle(db, c) {
      ReachedOneMore(groups, n, (t, db.circles[c].server));
    }
  }

  lemma {:induction false} BoardsAfter(
    targets: Targets, db: Tables, groups: seq<Group>, n: nat, c: CircleId, t: TargetId, after: Tables
  )
    requires n <= |groups| && SoundGroups(targets, groups) && after == ApplyWindows(targets, db, groups, n)
    ensures BoardIs(targets, db, after, groups, n, c, t)
  {
    if n == 0 {
    } else {
      var was := ApplyWindows(targets, db, groups, n - 1);
      BoardsAfter(targets, db, groups, n - 1, c, t, was);
      TimersAfter(targets, db, groups, n - 1, groups[n - 1].pair);
      assert SoundGroup(targets, groups[n - 1]);
      BoardOneMore(targets, db, was, groups, n - 1, c, t);
    }
  }

  // ---------------------------------------------------------------- the theorems

  /**
   * A seed makes no board stale, and one it reaches is right after it, whatever it was before; a partial
   * run likewise.
   */
  lemma SeedHealsWhatItReaches(targets: Targets, db: Tables, groups: seq<Group>, n: nat, c: CircleId, t: TargetId)
    requires n <= |groups| && SoundGroups(targets, groups)
    ensures Stale(targets, ApplyWindows(targets, db, groups, n), c, t) <==>
            Stale(targets, db, c, t) && !Moves(db, groups, n, c, t)
  {
    var after := ApplyWindows(targets, db, groups, n);
    BoardsAfter(targets, db, groups, n, c, t, after);
    if LiveCircle(db, c) {
      TimersAfter(targets, db, groups, n, (t, db.circles[c].server));
    } else {
      TimersAfter(targets, db, groups, n, (t, ""));
    }
  }

  /** Grouping into transactions does not change what the file means. */
  lemma GroupedEqualsFileOrder(targets: Targets, db: Tables, rows: seq<Row>)
    requires forall k :: 0 <= k < |rows| ==> Sound(targets, rows[k])
    ensures
      var groups := Grouped(rows, |rows|);
      && SoundGroups(targets, groups)
      && ApplyWindows(targets, db, groups, |groups|).timers == FileOrder(db.timers, rows, |rows|)
  {
    var n, groups := |rows|, Grouped(rows, |rows|);
    GroupedIsDistinct(rows, n);
    GroupsAreSound(targets, rows, n);
    var after, reference := ApplyWindows(targets, db, groups, |groups|).timers, FileOrder(db.timers, rows, n);
    forall pair: Pair
      ensures pair in after <==> pair in reference
      ensures pair in after ==> after[pair] == reference[pair]
    {
      GroupedAgrees(targets, db, rows, groups, pair);
    }
  }

  lemma GroupedAgrees(targets: Targets, db: Tables, rows: seq<Row>, groups: seq<Group>, pair: Pair)
    requires groups == Grouped(rows, |rows|) && SoundGroups(targets, groups) && DistinctPairs(groups)
    ensures
      var after, reference := ApplyWindows(targets, db, groups, |groups|).timers, FileOrder(db.timers, rows, |rows|);
      && (pair in after <==> pair in reference)
      && (pair in after ==> after[pair] == reference[pair])
  {
    TimersAfter(targets, db, groups, |groups|, pair);
    FileOrderSays(db.timers, rows, |rows|, pair);
    GroupingKeepsEveryRow(rows, |rows|, pair);
  }

  /** A run stopped after any window and then run again ends where one full run ends: windows and boards alike. */
  lemma RerunConverges(targets: Targets, db: Tables, groups: seq<Group>, m: nat)
    requires m <= |groups| && SoundGroups(targets, groups)
    ensures ApplyWindows(targets, ApplyWindows(targets, db, groups, m), groups, |groups|) ==
            ApplyWindows(targets, db, groups, |groups|)
  {
    var n, stopped := |groups|, ApplyWindows(targets, db, groups, m);
    var again, once := ApplyWindows(targets, stopped, groups, n), ApplyWindows(targets, db, groups, n);
    forall pair: Pair
      ensures pair in again.timers <==> pair in once.timers
      ensures pair in again.timers ==> again.timers[pair] == once.timers[pair]
      ensures again.overrides == once.overrides && again.circles == once.circles && again.reported == once.reported
      ensures stopped.overrides == db.overrides && stopped.circles == db.circles && stopped.reported == db.reported
    {
      TimersAfter(targets, db, groups, m, pair);
      TimersAfter(targets, db, groups, n, pair);
      TimersAfter(targets, stopped, groups, n, pair);
    }
    assert again.timers == once.timers;
    TimersAfter(targets, db, groups, m, (0, ""));
    TimersAfter(targets, db, groups, n, (0, ""));
    TimersAfter(targets, stopped, groups, n, (0, ""));
    forall c: CircleId, t: TargetId
      ensures (c, t) in again.boards <==> (c, t) in once.boards
      ensures (c, t) in again.boards ==> again.boards[(c, t)] == once.boards[(c, t)]
    {
      SameBoard(targets, db, groups, m, c, t);
    }
    SameMap(again.boards, once.boards);
  }

  lemma SameBoard(targets: Targets, db: Tables, groups: seq<Group>, m: nat, c: CircleId, t: TargetId)
    requires m <= |groups| && SoundGroups(targets, groups)
    ensures
      var again := ApplyWindows(targets, ApplyWindows(targets, db, groups, m), groups, |groups|).boards;
      var once := ApplyWindows(targets, db, groups, |groups|).boards;
      && ((c, t) in again <==> (c, t) in once)
      && ((c, t) in again ==> again[(c, t)] == once[(c, t)])
  {
    var stopped := ApplyWindows(targets, db, groups, m);
    TimersAfter(targets, db, groups, m, (0, ""));
    BoardsAfter(targets, db, groups, m, c, t, stopped);
    BoardsAfter(targets, db, groups, |groups|, c, t, ApplyWindows(targets, db, groups, |groups|));
    BoardsAfter(targets, stopped, groups, |groups|, c, t, ApplyWindows(targets, stopped, groups, |groups|));
  }

  lemma SameMap(a: map<(CircleId, TargetId), Timer>, b: map<(CircleId, TargetId), Timer>)
    requires forall c, t :: (c, t) in a <==> (c, t) in b
    requires forall c, t :: (c, t) in a ==> a[(c, t)] == b[(c, t)]
    ensures a == b
  {
    forall k ensures k in a <==> k in b {
      assert k == (k.0, k.1);
    }
    forall k | k in a ensures a[k] == b[k] {
      assert k == (k.0, k.1);
    }
  }

  lemma {:induction false} WrittenAfterAdding(groups: seq<Group>, row: Row, n: nat)
    requires n <= |groups|
    ensures
      var i := IndexOf(groups, row.pair);
      Written(AddRow(groups, row), n) == Written(groups, n) + if i < n then 1 else 0
  {
    if n == 0 {
    } else {
      WrittenAfterAdding(groups, row, n - 1);
    }
  }

  lemma {:induction false} GroupedWrites(rows: seq<Row>, n: nat)
    requires n <= |rows|
    ensures Written(Grouped(rows, n), |Grouped(rows, n)|) == n
  {
    if n == 0 {
    } else {
      GroupedWrites(rows, n - 1);
      WrittenAfterAdding(Grouped(rows, n - 1), rows[n - 1], |Grouped(rows, n - 1)|);
    }
  }

  /** A full run's report: every row counted, every window named once, and no window the file did not name. */
  lemma ReportIsExact(rows: seq<Row>)
    ensures
      var groups := Grouped(rows, |rows|);
      var report := ReportAfter(groups, |groups|, |rows|);
      && report.timersWritten == report.timersTotal == |rows|
      && |report.changed| == report.windowsTotal
      && (forall i, j :: 0 <= i < j < |report.changed| ==> report.changed[i] != report.changed[j])
      && (forall pair :: pair in report.changed <==> exists k :: 0 <= k < |rows| && rows[k].pair == pair)
  {
    var groups := Grouped(rows, |rows|);
    GroupedWrites(rows, |rows|);
    GroupedIsDistinct(rows, |rows|);
    GroupsHaveRows(rows, |rows|);
    forall pair
      ensures pair in Pairs(groups, |groups|) <==> exists k :: 0 <= k < |rows| && rows[k].pair == pair
    {
      GroupingKeepsEveryRow(rows, |rows|, pair);
      SaidSomething(rows, |rows|, pair);
      var i := IndexOf(groups, pair);
      if i < |groups| {
        assert Pairs(groups, |groups|)[i] == pair;
      }
    }
  }

  lemma {:induction false} SaidSomething(rows: seq<Row>, n: nat, pair: Pair)
    requires n <= |rows|
    ensures Said(rows, n, pair) != [] <==> exists k :: 0 <= k < n && rows[k].pair == pair
  {
    if n == 0 {
    } else {
      SaidSomething(rows, n - 1, pair);
    }
  }
}
