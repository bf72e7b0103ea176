/** Applying a seed of windows: everything resolved first, then one window per transaction. */
module TimerSeed {
  import opened Core
  import opened Windows
  import opened CatalogueTypes
  import opened TimerCatalogue
  import opened TimerService
  import Resolve

  type Pair = (TargetId, string)

  /** One row of the file: its target by id, or by a name for the ladder. */
  datatype SeedTimer = SeedTimer(targetId: Option<TargetId>, targetName: string, server: string, window: WindowRequest)

  datatype Row = Row(pair: Pair, window: Stored)

  /** Every row the file holds for one window, and so one transaction's worth of work. */
  datatype Group = Group(pair: Pair, rows: seq<Stored>)

  datatype Rejection =
    | NoTargetWithId
    | Unresolved(why: Resolve.Failure)
    | UnknownServer
    | Inadmissible(refusal: Refusal)

  datatype SeedReport = SeedReport(timersWritten: nat, timersTotal: nat, changed: seq<Pair>, windowsTotal: nat)

  datatype Outcome =
    | Rejected(index: nat, why: Rejection)
    | Stopped(report: SeedReport)
    | Applied(report: SeedReport)

  // ---------------------------------------------------------------- resolving the file

  function ResolveTarget(
    text: Text, targets: seq<Listed>, ids: map<TargetId, Target>, t: SeedTimer
  ): Result<TargetId, Rejection> {
    if t.targetId.Some? then
      if t.targetId.value in ids then Ok(t.targetId.value) else Err(NoTargetWithId)
    else
      match Resolve.ResolveIn(text, targets, t.targetName)
      case Ok(resolution) => Ok(resolution.target.id)
      case Err(why) => Err(Unresolved(why))
  }

  function ResolveRow(
    text: Text, targets: seq<Listed>, ids: map<TargetId, Target>, t: SeedTimer
  ): Result<Row, Rejection> {
    match ResolveTarget(text, targets, ids, t)
    case Err(why) => Err(why)
    case Ok(id) =>
      if t.server !in SERVERS then Err(UnknownServer)
      else
        match Validate(t.window)
        case Err(why) => Err(Inadmissible(why))
        case Ok(window) => Ok(Row((id, t.server), window))
  }

  // ---------------------------------------------------------------- grouping

  function IndexOf(groups: seq<Group>, pair: Pair): (i: nat)
    ensures i <= |groups|
    ensures i < |groups| ==> groups[i].pair == pair
    ensures forall j :: 0 <= j < i ==> groups[j].pair != pair
  {
    if groups == [] || groups[0].pair == pair then 0 else 1 + IndexOf(groups[1..], pair)
  }

  function AddRow(groups: seq<Group>, row: Row): seq<Group> {
    var i := IndexOf(groups, row.pair);
    if i < |groups| then groups[i := Group(row.pair, groups[i].rows + [row.window])]
    else groups + [Group(row.pair, [row.window])]
  }

  function Grouped(rows: seq<Row>, n: nat): seq<Group>
    requires n <= |rows|
  {
    if n == 0 then [] else AddRow(Grouped(rows, n - 1), rows[n - 1])
  }

  ghost predicate DistinctPairs(groups: seq<Group>) {
    forall i, j :: 0 <= i < j < |groups| ==> groups[i].pair != groups[j].pair
  }

  lemma IndexIs(groups: seq<Group>, i: nat)
    requires DistinctPairs(groups) && i < |groups|
    ensures IndexOf(groups, groups[i].pair) == i
  {
    var k := IndexOf(groups, groups[i].pair);
    assert k <= i;
  }

  lemma {:induction false} GroupedIsDistinct(rows: seq<Row>, n: nat)
    requires n <= |rows|
    ensures DistinctPairs(Grouped(rows, n))
  {
    if n == 0 {
    } else {
      GroupedIsDistinct(rows, n - 1);
    }
  }

  lemma {:induction false} GroupsHaveRows(rows: seq<Row>, n: nat)
    requires n <= |rows|
    ensures forall i :: 0 <= i < |Grouped(rows, n)| ==> Grouped(rows, n)[i].rows != []
  {
    if n == 0 {
    } else {
      GroupsHaveRows(rows, n - 1);
    }
  }

  // ---------------------------------------------------------------- applying

  /** A row of a target and server there are, asking for a window the schema takes. */
  predicate Sound(targets: Targets, row: Row) {
    row.pair.0 in targets && row.pair.1 in SERVERS && Checks(row.window)
  }

  /** Rows of one such target and server, at least one. */
  ghost predicate SoundGroup(targets: Targets, group: Group) {
    && group.pair.0 in targets && group.pair.1 in SERVERS && group.rows != []
    && forall j :: 0 <= j < |group.rows| ==> Checks(group.rows[j])
  }

  function ApplyWindow(targets: Targets, db: Tables, group: Group): Tables
    requires group.pair.0 in targets
  {
    TimerPut(targets, db, group.pair.0, group.pair.1, group.rows)
  }

  /** The tables once the first `n` windows have committed. */
  ghost function ApplyWindows(targets: Targets, db: Tables, groups: seq<Group>, n: nat): Tables
    requires n <= |groups| && forall i :: 0 <= i < |groups| ==> SoundGroup(targets, groups[i])
  {
    if n == 0 then db else ApplyWindow(targets, ApplyWindows(targets, db, groups, n - 1), groups[n - 1])
  }

  function Written(groups: seq<Group>, n: nat): nat
    requires n <= |groups|
  {
    if n == 0 then 0 else Written(groups, n - 1) + |groups[n - 1].rows|
  }

  function Pairs(groups: seq<Group>, n: nat): (pairs: seq<Pair>)
    requires n <= |groups|
    ensures |pairs| == n && forall i :: 0 <= i < n ==> pairs[i] == groups[i].pair
  {
    if n == 0 then [] else Pairs(groups, n - 1) + [groups[n - 1].pair]
  }

  function ReportAfter(groups: seq<Group>, n: nat, total: nat): SeedReport
    requires n <= |groups|
  {
    SeedReport(Written(groups, n), total, Pairs(groups, n), |groups|)
  }

  // ---------------------------------------------------------------- the run

  /** Rows as the transactions will write them, or the first row that is refused. */
  ghost predicate ResolvesTo(
    text: Text, targets: seq<Listed>, ids: map<TargetId, Target>, file: seq<SeedTimer>, rows: seq<Row>
  ) {
    |rows| <= |file| && forall i :: 0 <= i < |rows| ==> ResolveRow(text, targets, ids, file[i]) == Ok(rows[i])
  }

  /** Resolves and validates every row; the first that fails rejects the file. */
  method ResolveFile(instance: Instance, file: seq<SeedTimer>)
    returns (resolved: seq<Row>, refused: Option<Rejection>, ghost targets: seq<Listed>)
    requires instance.Valid()
    ensures Resolve.Loads(instance.catalogue.names, targets)
    ensures ResolvesTo(instance.catalogue.text, targets, instance.catalogue.names.targets, file, resolved)
    ensures forall k :: 0 <= k < |resolved| ==> Sound(instance.catalogue.names.targets, resolved[k])
    ensures refused.None? ==> |resolved| == |file|
    ensures refused.Some? ==>
              && |resolved| < |file|
              && ResolveRow(instance.catalogue.text, targets, instance.catalogue.names.targets, file[|resolved|]) ==
                 Err(refused.value)
  {
    var text, ids := instance.catalogue.text, instance.catalogue.names.targets;
    var listed := instance.catalogue.LoadTargets();
    targets := listed;
    resolved := [];
    for i := 0 to |file|
      invariant |resolved| == i && ResolvesTo(text, listed, ids, file, resolved)
      invariant forall k :: 0 <= k < i ==> Sound(ids, resolved[k])
    {
      var row := ResolveRow(text, listed, ids, file[i]);
      if row.Err? {
        return resolved, Some(row.error), targets;
      }
      ResolvedRowIsSound(text, instance.catalogue.names, listed, file[i]);
      resolved := resolved + [row.value];
    }
    return resolved, None, targets;
  }

  method WriteWindow(instance: Instance, group: Group, report: SeedReport) returns (report': SeedReport)
    requires instance.Valid() && SoundGroup(instance.catalogue.names.targets, group)
    modifies instance
    ensures instance.Valid() && instance.db == ApplyWindow(instance.catalogue.names.targets, old(instance.db), group)
    ensures report' == report.(
                         timersWritten := report.timersWritten + |group.rows|,
                         changed := report.changed + [group.pair])
  {
    var _ := instance.PutWindow(group.pair.0, group.pair.1, group.rows, {});
    report' := report.(timersWritten := report.timersWritten + |group.rows|, changed := report.changed + [group.pair]);
  }

  /** One transaction a window, in order, until the store refuses one. */
  method WriteWindows(instance: Instance, groups: seq<Group>, total: nat, commits: nat) returns (report: SeedReport)
    requires instance.Valid()
    requires forall i :: 0 <= i < |groups| ==> SoundGroup(instance.catalogue.names.targets, groups[i])
    modifies instance
    ensures instance.Valid()
    ensures report == ReportAfter(groups, Min(commits, |groups|), total)
    ensures instance.db ==
            ApplyWindows(instance.catalogue.names.targets, old(instance.db), groups, Min(commits, |groups|))
  {
    report := SeedReport(0, total, [], |groups|);
    ghost var targets, before := instance.catalogue.names.targets, instance.db;
    for i := 0 to Min(commits, |groups|)
      invariant instance.Valid()
      invariant report == ReportAfter(groups, i, total)
      invariant instance.db == ApplyWindows(targets, before, groups, i)
    {
      assert SoundGroup(targets, groups[i]);
      report := WriteWindow(instance, groups[i], report);
    }
  }

  /**
   * The file is rejected before anything is written, or its windows are written in order, one transaction each;
   * `commits` is how many of those the store accepts before it refuses one.
   */
  method ApplySeed(instance: Instance, file: seq<SeedTimer>, commits: nat)
    returns (outcome: Outcome, ghost targets: seq<Listed>, ghost rows: seq<Row>)
    requires instance.Valid()
    modifies instance
    ensures instance.Valid() && Resolve.Loads(instance.catalogue.names, targets)
    ensures ResolvesTo(instance.catalogue.text, targets, instance.catalogue.names.targets, file, rows)
    ensures outcome.Rejected? <==> |rows| < |file|
    ensures outcome.Rejected? ==>
              && instance.db == old(instance.db) && outcome.index == |rows|
              && ResolveRow(instance.catalogue.text, targets, instance.catalogue.names.targets, file[|rows|]) ==
                 Err(outcome.why)
    ensures !outcome.Rejected? ==>
              var groups := Grouped(rows, |rows|);
              var n := Min(commits, |groups|);
              && (outcome.Applied? <==> |groups| <= commits)
              && (forall i :: 0 <= i < |groups| ==> SoundGroup(instance.catalogue.names.targets, groups[i]))
              && instance.db == ApplyWindows(instance.catalogue.names.targets, old(instance.db), groups, n)
              && outcome.report == ReportAfter(groups, n, |rows|)
  {
    var resolved: seq<Row>, refused: Option<Rejection>;
    resolved, refused, targets := ResolveFile(instance, file);
    rows := resolved;
    if refused.Some? {
      return Rejected(|resolved|, refused.value), targets, rows;
    }
    var groups := GroupRows(resolved);
    GroupsAreSound(instance.catalogue.names.targets, resolved, |resolved|);
    var report := WriteWindows(instance, groups, |resolved|, commits);
    outcome := if |groups| <= commits then Applied(report) else Stopped(report);
  }

  /** `at` says where each window's group is. */
  ghost predicate Indexed(at: map<Pair, nat>, groups: seq<Group>) {
    && (forall p :: p in at <==> IndexOf(groups, p) < |groups|)
    && (forall p :: p in at ==> at[p] == IndexOf(groups, p))
  }

  lemma StillIndexed(at: map<Pair, nat>, groups: seq<Group>, row: Row, at': map<Pair, nat>)
    requires DistinctPairs(groups) && Indexed(at, groups)
    requires at' == if row.pair in at then at else at[row.pair := |groups|]
    ensures Indexed(at', AddRow(groups, row))
  {
    IndexAfterAdding(groups, row);
  }

  method GroupRows(rows: seq<Row>) returns (groups: seq<Group>)
    ensures groups == Grouped(rows, |rows|)
  {
    groups := [];
    var at: map<Pair, nat> := map[];
    for n := 0 to |rows|
      invariant groups == Grouped(rows, n)
      invariant Indexed(at, groups)
    {
      GroupedIsDistinct(rows, n);
      var row := rows[n];
      ghost var before, was := groups, at;
      if row.pair !in at {
        at := at[row.pair := |groups|];
        groups := groups + [Group(row.pair, [])];
      }
      var i := at[row.pair];
      groups := groups[i := Group(row.pair, groups[i].rows + [row.window])];
      assert [] + [row.window] == [row.window];
      AddedInPlace(before, row, i, groups);
      StillIndexed(was, before, row, at);
    }
  }

  lemma AddedInPlace(before: seq<Group>, row: Row, i: nat, groups: seq<Group>)
    requires i == IndexOf(before, row.pair)
    requires i < |before| ==> groups == before[i := Group(row.pair, before[i].rows + [row.window])]
    requires i == |before| ==> groups == before + [Group(row.pair, [row.window])]
    ensures groups == AddRow(before, row)
  {
  }

  lemma IndexAfterAdding(groups: seq<Group>, row: Row)
    requires DistinctPairs(groups)
    ensures
      var after := AddRow(groups, row);
      && IndexOf(after, row.pair) == IndexOf(groups, row.pair)
      && forall p :: p != row.pair ==>
           (IndexOf(after, p) < |after| <==> IndexOf(groups, p) < |groups|)
           && (IndexOf(groups, p) < |groups| ==> IndexOf(after, p) == IndexOf(groups, p))
  {
    var after := AddRow(groups, row);
    forall p | p != row.pair
      ensures (IndexOf(after, p) < |after| <==> IndexOf(groups, p) < |groups|)
           && (IndexOf(groups, p) < |groups| ==> IndexOf(after, p) == IndexOf(groups, p))
    {
      SamePosition(groups, after, p);
    }
    SamePosition(groups, after, row.pair);
    assert after[IndexOf(groups, row.pair)].pair == row.pair;
  }

  lemma SamePosition(groups: seq<Group>, after: seq<Group>, p: Pair)
    requires |groups| <= |after| <= |groups| + 1
    requires forall i :: 0 <= i < |groups| ==> after[i].pair == groups[i].pair
    ensures IndexOf(groups, p) < |groups| ==> IndexOf(after, p) == IndexOf(groups, p)
    ensures IndexOf(groups, p) == |groups| ==> IndexOf(after, p) >= |groups|
  {
    var i, j := IndexOf(groups, p), IndexOf(after, p);
    assert j < |groups| ==> groups[j].pair == p;
    assert i < |groups| ==> after[i].pair == p;
  }

  // ---------------------------------------------------------------- what resolving buys

  lemma ResolvedRowIsSound(text: Text, names: Names, listed: seq<Listed>, t: SeedTimer)
    requires Resolve.Normalised(text, names) && Resolve.Loads(names, listed)
    requires ResolveRow(text, listed, names.targets, t).Ok?
    ensures Sound(names.targets, ResolveRow(text, listed, names.targets, t).value)
  {
    if t.targetId.None? {
      Resolve.ResolvedIsListed(text, listed, t.targetName);
    }
  }

  lemma {:induction false} GroupsAreSound(targets: Targets, rows: seq<Row>, n: nat)
    requires n <= |rows| && forall k :: 0 <= k < n ==> Sound(targets, rows[k])
    ensures forall i :: 0 <= i < |Grouped(rows, n)| ==> SoundGroup(targets, Grouped(rows, n)[i])
  {
    if n == 0 {
    } else {
      GroupsAreSound(targets, rows, n - 1);
    }
  }
}
