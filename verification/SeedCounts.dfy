/** The report of a seed of targets counts what the run did to the tables. */
module SeedCounts {
  import opened Core
  import opened CatalogueTypes
  import opened Resolve
  import opened Spelling
  import opened NameTables
  import opened TargetSeed
  import Namespace
  import opened NamespaceProperties

  /** From `s` to `s'` the counts of rows added grew as the tables did. */
  ghost predicate CountsRows(s: Seeding, s': Seeding) {
    && s'.report.targetsAdded - s.report.targetsAdded == |s'.names.targets| - |s.names.targets|
    && s'.report.aliasesAdded - s.report.aliasesAdded == |s'.names.aliases| - |s.names.aliases|
  }

  /** How many of the wanted targets have been answered for. */
  function AnsweredFor(r: Report): nat {
    r.targetsAdded + r.targetsPresent + r.namesTaken
  }

  /** Only aliases were written and counted. */
  ghost predicate CountsAliases(s: Seeding, s': Seeding) {
    && CountsRows(s, s') && s'.report.targetsAdded == s.report.targetsAdded
    && s'.report.targetsPresent == s.report.targetsPresent && s'.report.namesTaken == s.report.namesTaken
  }

  lemma CountsFurther(a: Seeding, b: Seeding, c: Seeding)
    requires CountsAliases(a, b) && CountsAliases(b, c)
    ensures CountsAliases(a, c)
  {
  }

  lemma OneRowMore<K, V>(m: map<K, V>, k: K, v: V)
    requires k !in m
    ensures |m[k := v]| == |m| + 1
  {
    assert m[k := v].Keys == m.Keys + {k};
    assert |m[k := v].Keys| == |m[k := v]| && |m.Keys| == |m|;
  }

  /** An alias is added if nobody has the spelling, and counted as taken if somebody else does. */
  lemma {:induction false} AliasCounts(text: Text, s: Seeding, id: TargetId, alias: string)
    requires Consistent(text, s) && id in s.names.targets
    ensures
      var norm, s' := text.normalise(alias), AddAlias(text, s, id, alias);
      && CountsAliases(s, s')
      && s'.report.aliasesAdded == s.report.aliasesAdded + (if Spelled(s.names, norm) then 0 else 1)
      && s'.report.aliasesTaken
         == s.report.aliasesTaken + (if exists other :: other != id && Owns(s.names, other, norm) then 1 else 0)
  {
    var norm := text.normalise(alias);
    ConsistentIsSound(text, s);
    if norm !in s.owner {
      assert norm !in s.names.aliases by {
        if norm in s.names.aliases {
          assert Owns(s.names, s.names.aliases[norm].target, norm);
        }
      }
      OneRowMore(s.names.aliases, norm, Alias(id, alias));
    } else {
      assert Owns(s.names, s.owner[norm], norm);
    }
  }

  lemma StillConsistent(text: Text, s: Seeding, id: TargetId, aliases: seq<string>, n: nat, s': Seeding)
    requires n <= |aliases| && Consistent(text, s) && id in s.names.targets && s' == TopUp(text, s, id, aliases, n)
    ensures Consistent(text, s') && id in s'.names.targets
  {
    TopUpFollows(text, s, id, aliases, n);
  }

  lemma {:induction false} TopUpCounts(text: Text, s: Seeding, id: TargetId, aliases: seq<string>, n: nat)
    requires n <= |aliases| && Consistent(text, s) && id in s.names.targets
    ensures CountsAliases(s, TopUp(text, s, id, aliases, n))
  {
    if n == 0 {
    } else {
      var before := TopUp(text, s, id, aliases, n - 1);
      TopUpCounts(text, s, id, aliases, n - 1);
      StillConsistent(text, s, id, aliases, n - 1, before);
      AliasCounts(text, before, id, aliases[n - 1]);
      CountsFurther(s, before, AddAlias(text, before, id, aliases[n - 1]));
    }
  }

  ghost predicate IdsKnown(byName: map<string, TargetId>, s: Seeding) {
    forall x :: x in byName ==> byName[x] in s.names.targets
  }

  /** One wanted target is added, found, or finds its name taken; the rows added are counted. */
  lemma {:induction false} SowCounts(text: Text, byName: map<string, TargetId>, s: Seeding, want: Embedded, s': Seeding)
    requires Consistent(text, s) && IdsKnown(byName, s)
    requires Sow(text, byName, s, want).Ok? && Sow(text, byName, s, want).value == s'
    ensures CountsRows(s, s') && AnsweredFor(s'.report) == AnsweredFor(s.report) + 1
    ensures s'.report.targetsPresent == s.report.targetsPresent + (if NormOf(text, want) in byName then 1 else 0)
    ensures s'.report.targetsAdded
            == s.report.targetsAdded
               + (if NormOf(text, want) in byName || Spelled(s.names, NormOf(text, want)) then 0 else 1)
  {
    var f := ValidateIdentity(text, want.name, want.zone, want.expansion, want.category).value;
    if f.nameNorm in byName {
      var present := s.(report := s.report.(targetsPresent := s.report.targetsPresent + 1));
      TopUpCounts(text, present, byName[f.nameNorm], want.aliases, |want.aliases|);
    } else if f.nameNorm !in s.owner {
      var target := Fresh(s.names, f, want.quakeImmune);
      ConsistentIsSound(text, s);
      OneRowMore(s.names.targets, target.id, target);
      Namespace.ClaimName(text, s.names, s.owner, target);
      InsertTargetKeeps(text, s.names, target);
      TopUpCounts(text, AddTarget(s, target), target.id, want.aliases, |want.aliases|);
    } else {
      assert Owns(s.names, s.owner[f.nameNorm], f.nameNorm);
    }
  }

  /** From `s` to `s'` the rows added were counted, `n` targets answered for, `present` of them as there. */
  ghost predicate CountsRun(s: Seeding, s': Seeding, n: nat, present: nat) {
    && CountsRows(s, s') && AnsweredFor(s'.report) == AnsweredFor(s.report) + n
    && s'.report.targetsPresent == s.report.targetsPresent + present
  }

  lemma OneMoreSown(a: Seeding, b: Seeding, c: Seeding, n: nat, present: nat, found: bool)
    requires CountsRun(a, b, n, present) && CountsRun(b, c, 1, if found then 1 else 0)
    ensures CountsRun(a, c, n + 1, if found then present + 1 else present)
  {
  }

  lemma {:induction false} SownConsistent(
    text: Text, byName: map<string, TargetId>, s: Seeding, wants: seq<Embedded>, n: nat, s': Seeding
  )
    requires n <= |wants| && Consistent(text, s) && IdsKnown(byName, s)
    requires SowAll(text, byName, s, wants, n).Ok? && SowAll(text, byName, s, wants, n).value == s'
    ensures Consistent(text, s') && IdsKnown(byName, s')
  {
    SeedOnlyAdds(text, byName, s, wants, n, s');
  }

  lemma {:induction false} SownSoFar(
    text: Text, byName: map<string, TargetId>, s: Seeding, wants: seq<Embedded>, k: nat, n: nat
  )
    requires k <= n <= |wants| && SowAll(text, byName, s, wants, n).Ok?
    ensures SowAll(text, byName, s, wants, k).Ok?
    decreases n
  {
    if k < n {
      SownSoFar(text, byName, s, wants, k, n - 1);
    }
  }

  /** What one wanted target does to the run so far. */
  lemma {:induction false} OneSown(
    text: Text, byName: map<string, TargetId>, s: Seeding, wants: seq<Embedded>, k: nat, next: nat, before: Seeding,
    after: Seeding
  )
    requires k < |wants| && next == k + 1 && Consistent(text, s) && IdsKnown(byName, s)
    requires SowAll(text, byName, s, wants, k) == Ok(before) && SowAll(text, byName, s, wants, next) == Ok(after)
    ensures CountsRun(before, after, 1, if NormOf(text, wants[k]) in byName then 1 else 0)
  {
    SownConsistent(text, byName, s, wants, k, before);
    SowCounts(text, byName, before, wants[k], after);
  }

  /** The places up to `n` where `found` holds. */
  ghost function Places(found: nat -> bool, n: nat): set<nat> {
    set i | 0 <= i < n && found(i)
  }

  /** Step `k` counts one wanted target. */
  ghost predicate CountsStep(run: nat -> Seeding, found: nat -> bool, k: nat) {
    CountsRun(run(k), run(k + 1), 1, if found(k) then 1 else 0)
  }

  lemma {:induction false} StepsCount(run: nat -> Seeding, found: nat -> bool, n: nat)
    requires forall k | 0 <= k < n :: CountsStep(run, found, k)
    ensures CountsRun(run(0), run(n), n, |Places(found, n)|)
  {
    if n == 0 {
      assert Places(found, 0) == {};
    } else {
      StepsCount(run, found, n - 1);
      assert CountsStep(run, found, n - 1);
      assert Places(found, n) == Places(found, n - 1) + (if found(n - 1) then {n - 1} else {});
      OneMoreSown(run(0), run(n - 1), run(n), n - 1, |Places(found, n - 1)|, found(n - 1));
    }
  }

  /** The run after `k` of the wanted targets. */
  function RunAt(text: Text, byName: map<string, TargetId>, s: Seeding, wants: seq<Embedded>, k: nat): Seeding {
    if k <= |wants| && SowAll(text, byName, s, wants, k).Ok? then SowAll(text, byName, s, wants, k).value else s
  }

  lemma {:induction false} RunIs(
    text: Text, byName: map<string, TargetId>, s: Seeding, wants: seq<Embedded>, k: nat
  )
    requires k <= |wants| && SowAll(text, byName, s, wants, |wants|).Ok?
    ensures SowAll(text, byName, s, wants, k) == Ok(RunAt(text, byName, s, wants, k))
  {
    SownSoFar(text, byName, s, wants, k, |wants|);
  }

  lemma {:induction false} StepCounts(
    text: Text, byName: map<string, TargetId>, s: Seeding, wants: seq<Embedded>, k: nat
  )
    requires k < |wants| && Consistent(text, s) && IdsKnown(byName, s)
    requires SowAll(text, byName, s, wants, |wants|).Ok?
    ensures CountsRun(
              RunAt(text, byName, s, wants, k), RunAt(text, byName, s, wants, k + 1), 1,
              if NormOf(text, wants[k]) in byName then 1 else 0)
  {
    var next := k + 1;
    RunIs(text, byName, s, wants, k);
    RunIs(text, byName, s, wants, next);
    OneSown(
      text, byName, s, wants, k, next, RunAt(text, byName, s, wants, k), RunAt(text, byName, s, wants, next));
  }

  lemma {:induction false} RunCounts(
    text: Text, byName: map<string, TargetId>, s: Seeding, wants: seq<Embedded>, s': Seeding
  )
    requires Consistent(text, s) && IdsKnown(byName, s) && SowAll(text, byName, s, wants, |wants|) == Ok(s')
    ensures CountsRun(s, s', |wants|, |Present(text, byName, wants)|)
  {
    var run := (k: nat) => RunAt(text, byName, s, wants, k);
    var found := (i: nat) => i < |wants| && NormOf(text, wants[i]) in byName;
    forall k | 0 <= k < |wants| ensures CountsStep(run, found, k) {
      StepCounts(text, byName, s, wants, k);
    }
    StepsCount(run, found, |wants|);
    assert Places(found, |wants|) == Present(text, byName, wants);
  }

  /** Those wanted whose name is one of these. */
  function Present(text: Text, byName: map<string, TargetId>, wants: seq<Embedded>): set<nat> {
    set i | 0 <= i < |wants| && NormOf(text, wants[i]) in byName
  }

  /**
   * The report of a run is exact: as many targets and aliases added as there are rows more, every wanted target
   * added, present or found with its name taken, and present meaning that a target had its name at the start.
   */
  lemma {:induction false} SeedReportExact(text: Text, names: Names, wants: seq<Embedded>, done: Seeding)
    requires Sound(text, names) && SeedRun(text, names, wants).Ok? && SeedRun(text, names, wants).value == done
    ensures done.report.targetsAdded == |done.names.targets| - |names.targets|
    ensures done.report.aliasesAdded == |done.names.aliases| - |names.aliases|
    ensures done.report.targetsPresent == |AlreadyNamed(text, names, wants)|
    ensures done.report.targetsAdded + done.report.targetsPresent + done.report.namesTaken == |wants|
  {
    var byName, begin := NameIndex(text, names), Begin(text, names);
    BeginsConsistent(text, names, byName, begin);
    RunCounts(text, byName, begin, wants, done);
    PresentIsNamed(text, names, byName, wants);
  }

  /** Those wanted whose name some target has. */
  ghost function AlreadyNamed(text: Text, names: Names, wants: seq<Embedded>): set<nat> {
    set i | 0 <= i < |wants| && Named(names, NormOf(text, wants[i]))
  }

  lemma {:induction false} PresentIsNamed(text: Text, names: Names, byName: map<string, TargetId>, wants: seq<Embedded>)
    requires NameMap(names, byName)
    ensures Present(text, byName, wants) == AlreadyNamed(text, names, wants)
  {
    forall norm ensures norm in byName <==> Named(names, norm) {
    }
  }

  lemma {:induction false} BeginsConsistent(text: Text, names: Names, byName: map<string, TargetId>, begin: Seeding)
    requires Sound(text, names) && byName == NameIndex(text, names) && begin == Begin(text, names)
    ensures Consistent(text, begin) && NameMap(names, byName) && IdsKnown(byName, begin)
    ensures begin.names == names && begin.report == Report(0, 0, 0, 0, 0)
  {
  }
}
