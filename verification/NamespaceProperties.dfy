/** What the namespace writes mean for who owns a spelling, and when a seed run is the last one needed. */
module NamespaceProperties {
  import opened Core
  import opened CatalogueTypes
  import opened Spelling
  import opened NameTables
  import opened TargetSeed
  import opened Namespace
  import opened Resolve

  // ---------------------------------------------------------------- create and update

  lemma {:induction false} WrittenAliases(text: Text, names: Names, id: TargetId, aliases: seq<string>, n: nat)
    requires n <= |aliases|
    ensures
      var after, norms := WriteAliases(text, names, id, aliases, n), Norms(text, aliases);
      && after.targets == names.targets && after.nextId == names.nextId
      && (forall s :: s in after.aliases <==> s in names.aliases || s in norms[..n])
      && (forall s :: s in norms[..n] ==> after.aliases[s].target == id)
      && (forall s :: s in names.aliases && s !in norms[..n] ==> after.aliases[s] == names.aliases[s])
  {
    if n == 0 {
    } else {
      WrittenAliases(text, names, id, aliases, n - 1);
      assert Norms(text, aliases)[..n] == Norms(text, aliases)[..n - 1] + [text.normalise(aliases[n - 1])];
    }
  }

  /** A target created owns exactly its name and its aliases; nobody else gains or loses a spelling. */
  lemma CreateAddsExactly(text: Text, names: Names, plan: Plan)
    requires Sound(text, names) && plan.target.id == names.nextId
    requires FirstClash(text, names, plan.target.id, plan.target.nameNorm, plan.aliases).None?
    ensures
      var id := plan.target.id;
      var after := WriteAliases(text, InsertTarget(names, plan.target), id, plan.aliases, |plan.aliases|);
      && Grows(names, after)
      && (forall s :: Owns(after, id, s) <==> s == plan.target.nameNorm || s in Norms(text, plan.aliases))
      && (forall other, s :: other != id ==> (Owns(after, other, s) <==> Owns(names, other, s)))
      && (EveryAliasCounts(names) ==> EveryAliasCounts(after))
  {
    var id, n := plan.target.id, |plan.aliases|;
    FreeSpellings(text, names, id, plan.target.nameNorm, plan.aliases);
    WrittenAliases(text, InsertTarget(names, plan.target), id, plan.aliases, n);
    assert Norms(text, plan.aliases)[..n] == Norms(text, plan.aliases);
    forall s | s in Norms(text, plan.aliases) ensures !Spelled(names, s) && s !in names.aliases {
    }
  }

  /** What an update leaves its target owning, and that it touches nobody else. */
  lemma UpdateRewritesExactly(text: Text, names: Names, plan: Plan, replaceAliases: bool)
    requires Sound(text, names) && plan.target.id in names.targets
    requires FirstClash(text, names, plan.target.id, plan.target.nameNorm, plan.aliases).None?
    ensures
      var id := plan.target.id;
      var after := Rewrite(text, names, plan, replaceAliases);
      && after.targets == names.targets[id := plan.target]
      && (forall s :: Owns(after, id, s) <==>
            || s == plan.target.nameNorm
            || if replaceAliases then s in Norms(text, plan.aliases)
               else s in names.aliases && names.aliases[s].target == id)
      && (forall other, s :: other != id ==> (Owns(after, other, s) <==> Owns(names, other, s)))
  {
    var id, n := plan.target.id, |plan.aliases|;
    FreeSpellings(text, names, id, plan.target.nameNorm, plan.aliases);
    assert Norms(text, plan.aliases)[..n] == Norms(text, plan.aliases);
    var cleared := DeleteAliases(ReplaceTarget(names, plan.target), id);
    WrittenAliases(text, cleared, id, plan.aliases, n);
    forall s | s in Norms(text, plan.aliases) ensures s !in cleared.aliases {
      assert s in cleared.aliases ==> s in Claimed(names, id);
    }
  }

  /**
   * An update leaves an alias that merely repeats its target's name exactly when it renames onto an alias the
   * target holds now and does not replace the set: the namespace check looked at aliases read earlier.
   */
  lemma RenameOntoOwnAliasExactly(text: Text, names: Names, plan: Plan, replaceAliases: bool)
    requires Sound(text, names) && EveryAliasCounts(names) && plan.target.id in names.targets
    requires FirstClash(text, names, plan.target.id, plan.target.nameNorm, plan.aliases).None?
    ensures
      EveryAliasCounts(Rewrite(text, names, plan, replaceAliases)) <==>
      !(!replaceAliases && plan.target.nameNorm in names.aliases
        && names.aliases[plan.target.nameNorm].target == plan.target.id)
  {
    var id, n, norm := plan.target.id, |plan.aliases|, plan.target.nameNorm;
    FreeSpellings(text, names, id, norm, plan.aliases);
    var after := Rewrite(text, names, plan, replaceAliases);
    if replaceAliases {
      assert Norms(text, plan.aliases)[..n] == Norms(text, plan.aliases);
      WrittenAliases(text, DeleteAliases(ReplaceTarget(names, plan.target), id), id, plan.aliases, n);
    } else if norm in names.aliases && names.aliases[norm].target == id {
      assert after.targets[after.aliases[norm].target].nameNorm == norm;
    } else {
      forall s | s in after.aliases && after.aliases[s].target in after.targets
        ensures after.targets[after.aliases[s].target].nameNorm != s
      {
      }
    }
  }

  /** With an up-to-date read the check always catches it. */
  lemma FreshReadCatchesTheRename(text: Text, names: Names, current: Listed, req: UpdateRequest)
    requires Sound(text, names) && EveryAliasCounts(names) && ListedFrom(names, current)
    requires PlanUpdate(text, current.target.id, current, req).Ok?
    requires
      var plan := PlanUpdate(text, current.target.id, current, req).value;
      FirstClash(text, names, plan.target.id, plan.target.nameNorm, plan.aliases).None?
    ensures EveryAliasCounts(
              Rewrite(text, names, PlanUpdate(text, current.target.id, current, req).value, req.aliases.Some?))
  {
    var id := current.target.id;
    var plan := PlanUpdate(text, id, current, req).value;
    var norm := plan.target.nameNorm;
    RenameOntoOwnAliasExactly(text, names, plan, req.aliases.Some?);
    FreeSpellings(text, names, id, norm, plan.aliases);
  }

  /** And with a stale one it need not: a rename let through by the check onto an alias added since. */
  lemma StaleReadMissesTheRename(text: Text, names: Names, current: Listed, req: UpdateRequest)
    requires text == Text(s => s, s => s)
    requires names == Names(map[0 := Target(0, "vulak", "vulak", "z", "z", "velious", "ntov", true, Active)],
                            map["vk" := Alias(0, "vk")], 1)
    requires current == Listed(names.targets[0], [])
    requires req == UpdateRequest(Some("vk"), None, None, None, None, None, None)
    ensures Sound(text, names) && EveryAliasCounts(names)
    ensures PlanUpdate(text, 0, current, req).Ok?
    ensures
      var plan := PlanUpdate(text, 0, current, req).value;
      && FirstClash(text, names, 0, plan.target.nameNorm, plan.aliases).None?
      && !EveryAliasCounts(Rewrite(text, names, plan, false))
  {
    assert Sound(text, names);
    var plan := PlanUpdate(text, 0, current, req).value;
    assert plan.target.nameNorm == "vk";
    assert FirstClash(text, names, 0, "vk", []).None?;
    RenameOntoOwnAliasExactly(text, names, plan, false);
  }

  // ---------------------------------------------------------------- seeding

  function NormOf(text: Text, want: Embedded): string {
    text.normalise(text.trim(want.name))
  }

  /** No two shipped targets share a normalised name. */
  ghost predicate DistinctNames(text: Text, wants: seq<Embedded>) {
    forall i, j :: 0 <= i < j < |wants| ==> NormOf(text, wants[i]) != NormOf(text, wants[j])
  }

  /** The running map says who owns what; so no spelling has two owners. */
  ghost predicate Consistent(text: Text, s: Seeding) {
    Normalised(text, s.names) && OwnerMap(s.names, s.owner)
  }

  lemma ConsistentIsSound(text: Text, s: Seeding)
    requires Consistent(text, s)
    ensures Sound(text, s.names)
  {
  }

  ghost predicate Follows(text: Text, s: Seeding, s': Seeding) {
    && Consistent(text, s') && Grows(s.names, s'.names)
    && forall x :: x in s.owner ==> x in s'.owner && s'.owner[x] == s.owner[x]
  }

  lemma AddAliasFollows(text: Text, s: Seeding, id: TargetId, alias: string)
    requires Consistent(text, s) && id in s.names.targets
    ensures Follows(text, s, AddAlias(text, s, id, alias))
    ensures text.normalise(alias) in AddAlias(text, s, id, alias).owner
    ensures AddAlias(text, s, id, alias).names.targets == s.names.targets
  {
    ConsistentIsSound(text, s);
    if text.normalise(alias) !in s.owner {
      ClaimAlias(text, s.names, s.owner, id, alias);
      InsertAliasKeeps(text, s.names, id, alias);
    }
  }

  lemma {:induction false} TopUpFollows(text: Text, s: Seeding, id: TargetId, aliases: seq<string>, n: nat)
    requires n <= |aliases|
    requires Consistent(text, s) && id in s.names.targets
    ensures Follows(text, s, TopUp(text, s, id, aliases, n))
    ensures forall i :: 0 <= i < n ==> Norms(text, aliases)[i] in TopUp(text, s, id, aliases, n).owner
    ensures TopUp(text, s, id, aliases, n).names.targets == s.names.targets
  {
    if n == 0 {
    } else {
      TopUpFollows(text, s, id, aliases, n - 1);
      AddAliasFollows(text, TopUp(text, s, id, aliases, n - 1), id, aliases[n - 1]);
    }
  }

  lemma FollowsTransitively(text: Text, a: Seeding, b: Seeding, c: Seeding)
    requires Follows(text, a, b) && Follows(text, b, c)
    ensures Follows(text, a, c)
  {
  }

  /** Nothing is left to do for this target. */
  ghost predicate Settled(text: Text, s: Seeding, want: Embedded) {
    && NormOf(text, want) in s.owner
    && (Named(s.names, NormOf(text, want)) ==> AllOwned(text, s, want.aliases))
  }

  ghost predicate AllOwned(text: Text, s: Seeding, aliases: seq<string>) {
    forall i :: 0 <= i < |aliases| ==> Norms(text, aliases)[i] in s.owner
  }

  /** Names appear only where nobody had the spelling. */
  ghost predicate NamesOnly(s: Seeding, s': Seeding, norm: string) {
    forall x :: Named(s'.names, x) ==> Named(s.names, x) || (x == norm && x !in s.owner)
  }

  lemma SowNew(text: Text, s: Seeding, target: Target, want: Embedded)
    requires Consistent(text, s) && target.nameNorm !in s.owner
    requires target.id == s.names.nextId && target.nameNorm == text.normalise(target.name) == NormOf(text, want)
    ensures
      var s' := TopUp(text, AddTarget(s, target), target.id, want.aliases, |want.aliases|);
      Follows(text, s, s') && Settled(text, s', want) && NamesOnly(s, s', target.nameNorm)
  {
    var added := AddTarget(s, target);
    ConsistentIsSound(text, s);
    ClaimName(text, s.names, s.owner, target);
    InsertTargetKeeps(text, s.names, target);
    TopUpFollows(text, added, target.id, want.aliases, |want.aliases|);
    var s' := TopUp(text, added, target.id, want.aliases, |want.aliases|);
    assert forall x :: Named(s'.names, x) ==> Named(added.names, x);
    forall x | Named(added.names, x) ensures Named(s.names, x) || x == target.nameNorm {
      var id :| id in added.names.targets && added.names.targets[id].nameNorm == x;
      assert id != target.id ==> id in s.names.targets && s.names.targets[id].nameNorm == x;
    }
  }

  lemma SowPresent(text: Text, s: Seeding, id: TargetId, want: Embedded)
    requires Consistent(text, s)
    requires id in s.names.targets && s.names.targets[id].nameNorm == NormOf(text, want)
    ensures
      var s' := TopUp(text, s, id, want.aliases, |want.aliases|);
      Follows(text, s, s') && Settled(text, s', want) && forall x :: Named(s'.names, x) ==> Named(s.names, x)
  {
    TopUpFollows(text, s, id, want.aliases, |want.aliases|);
    assert Owns(s.names, id, NormOf(text, want));
  }

  /** One target sown is settled. */
  lemma SowSettles(text: Text, byName: map<string, TargetId>, s: Seeding, want: Embedded)
    requires Consistent(text, s)
    requires forall x :: x in byName ==> byName[x] in s.names.targets && s.names.targets[byName[x]].nameNorm == x
    requires Named(s.names, NormOf(text, want)) ==> NormOf(text, want) in byName
    requires Sow(text, byName, s, want).Ok?
    ensures
      var s' := Sow(text, byName, s, want).value;
      Follows(text, s, s') && Settled(text, s', want) && NamesOnly(s, s', NormOf(text, want))
  {
    var f := ValidateIdentity(text, want.name, want.zone, want.expansion, want.category).value;
    if f.nameNorm in byName {
      SowPresent(
        text, s.(report := s.report.(targetsPresent := s.report.targetsPresent + 1)), byName[f.nameNorm], want);
    } else if f.nameNorm !in s.owner {
      SowNew(text, s, Fresh(s.names, f, want.quakeImmune), want);
    }
  }

  /** Whatever the list, a run only adds: rows already there keep every field, the flag among them. */
  lemma {:induction false} SeedOnlyAdds(
    text: Text, byName: map<string, TargetId>, s: Seeding, wants: seq<Embedded>, n: nat, s': Seeding
  )
    requires n <= |wants| && Consistent(text, s)
    requires forall x :: x in byName ==> byName[x] in s.names.targets
    requires SowAll(text, byName, s, wants, n).Ok? && SowAll(text, byName, s, wants, n).value == s'
    ensures Follows(text, s, s')
  {
    if n == 0 {
    } else {
      var before := SowAll(text, byName, s, wants, n - 1).value;
      SeedOnlyAdds(text, byName, s, wants, n - 1, before);
      SowOnlyAdds(text, byName, before, wants[n - 1], s');
      FollowsTransitively(text, s, before, s');
    }
  }

  lemma SowOnlyAdds(text: Text, byName: map<string, TargetId>, s: Seeding, want: Embedded, s': Seeding)
    requires Consistent(text, s) && forall x :: x in byName ==> byName[x] in s.names.targets
    requires Sow(text, byName, s, want).Ok? && Sow(text, byName, s, want).value == s'
    ensures Follows(text, s, s')
  {
    var f := ValidateIdentity(text, want.name, want.zone, want.expansion, want.category).value;
    if f.nameNorm in byName {
      var present := s.(report := s.report.(targetsPresent := s.report.targetsPresent + 1));
      TopUpFollows(text, present, byName[f.nameNorm], want.aliases, |want.aliases|);
    } else if f.nameNorm !in s.owner {
      SowNew(text, s, Fresh(s.names, f, want.quakeImmune), want);
    }
  }

  lemma SettledStays(text: Text, s: Seeding, s': Seeding, want: Embedded, norm: string)
    requires Settled(text, s, want) && Follows(text, s, s')
    requires NamesOnly(s, s', norm)
    ensures Settled(text, s', want)
  {
  }

  ghost predicate Wanted(text: Text, wants: seq<Embedded>, n: nat, x: string)
    requires n <= |wants|
  {
    exists i :: 0 <= i < n && NormOf(text, wants[i]) == x
  }

  /** The wants before `n` are settled, and every name was there at the start or is one of theirs. */
  ghost predicate SettledUpTo(text: Text, byName: map<string, TargetId>, s: Seeding, wants: seq<Embedded>, n: nat)
    requires n <= |wants|
  {
    && (forall i :: 0 <= i < n ==> Settled(text, s, wants[i]))
    && (forall x :: Named(s.names, x) ==> x in byName || Wanted(text, wants, n, x))
    && (forall x :: x in byName ==> byName[x] in s.names.targets && s.names.targets[byName[x]].nameNorm == x)
  }

  lemma NotWantedBefore(text: Text, wants: seq<Embedded>, n: nat)
    requires n < |wants| && DistinctNames(text, wants)
    ensures !Wanted(text, wants, n, NormOf(text, wants[n]))
  {
  }

  lemma SettlesOneMore(
    text: Text, byName: map<string, TargetId>, before: Seeding, after: Seeding, wants: seq<Embedded>, n: nat
  )
    requires n < |wants| && SettledUpTo(text, byName, before, wants, n)
    requires Follows(text, before, after) && Settled(text, after, wants[n])
             && NamesOnly(before, after, NormOf(text, wants[n]))
    ensures SettledUpTo(text, byName, after, wants, n + 1)
  {
    forall i | 0 <= i < n + 1 ensures Settled(text, after, wants[i]) {
      if i < n {
        SettledStays(text, before, after, wants[i], NormOf(text, wants[n]));
      }
    }
    forall x | Named(after.names, x) ensures x in byName || Wanted(text, wants, n + 1, x) {
      if x != NormOf(text, wants[n]) && x !in byName {
        var i :| 0 <= i < n && NormOf(text, wants[i]) == x;
      }
    }
  }

  lemma SowOneMore(
    text: Text, byName: map<string, TargetId>, before: Seeding, after: Seeding, wants: seq<Embedded>, n: nat
  )
    requires n < |wants| && DistinctNames(text, wants) && SettledUpTo(text, byName, before, wants, n)
    requires Consistent(text, before)
    requires Sow(text, byName, before, wants[n]) == Ok(after)
    ensures Follows(text, before, after) && SettledUpTo(text, byName, after, wants, n + 1)
  {
    NotWantedBefore(text, wants, n);
    SowSettles(text, byName, before, wants[n]);
    SettlesOneMore(text, byName, before, after, wants, n);
  }

  lemma {:induction false} RunSettles(
    text: Text, byName: map<string, TargetId>, s: Seeding, wants: seq<Embedded>, n: nat, s': Seeding
  )
    requires n <= |wants| && DistinctNames(text, wants)
    requires Consistent(text, s) && SettledUpTo(text, byName, s, wants, 0)
    requires SowAll(text, byName, s, wants, n).Ok? && SowAll(text, byName, s, wants, n).value == s'
    ensures Follows(text, s, s') && SettledUpTo(text, byName, s', wants, n)
  {
    if n == 0 {
    } else {
      var before := SowAll(text, byName, s, wants, n - 1).value;
      RunSettles(text, byName, s, wants, n - 1, before);
      SowOneMore(text, byName, before, s', wants, n - 1);
      FollowsTransitively(text, s, before, s');
    }
  }

  lemma {:induction false} NothingToTopUp(text: Text, s: Seeding, id: TargetId, aliases: seq<string>, n: nat)
    requires n <= |aliases| && AllOwned(text, s, aliases)
    ensures
      var s' := TopUp(text, s, id, aliases, n);
      s'.names == s.names && s'.owner == s.owner && s'.report.aliasesAdded == s.report.aliasesAdded
      && s'.report.targetsAdded == s.report.targetsAdded
      && s'.report.targetsPresent == s.report.targetsPresent && s'.report.namesTaken == s.report.namesTaken
  {
    if n == 0 {
    } else {
      NothingToTopUp(text, s, id, aliases, n - 1);
      assert Norms(text, aliases)[n - 1] == text.normalise(aliases[n - 1]);
    }
  }

  lemma {:induction false} RunOverSettled(
    text: Text, byName: map<string, TargetId>, s: Seeding, wants: seq<Embedded>, n: nat
  )
    requires n <= |wants| && NameMap(s.names, byName)
    requires forall i :: 0 <= i < n ==> Settled(text, s, wants[i])
    requires forall i :: 0 <= i < n ==>
             ValidateIdentity(text, wants[i].name, wants[i].zone, wants[i].expansion, wants[i].category).Ok?
    ensures SowAll(text, byName, s, wants, n).Ok? && AddsNothing(s, SowAll(text, byName, s, wants, n).value, n)
  {
    if n == 0 {
    } else {
      RunOverSettled(text, byName, s, wants, n - 1);
      SowOverSettled(text, byName, SowAll(text, byName, s, wants, n - 1).value, wants[n - 1]);
    }
  }

  lemma SowOverSettled(text: Text, byName: map<string, TargetId>, s: Seeding, want: Embedded)
    requires NameMap(s.names, byName) && Settled(text, s, want)
    requires ValidateIdentity(text, want.name, want.zone, want.expansion, want.category).Ok?
    ensures Sow(text, byName, s, want).Ok? && AddsNothing(s, Sow(text, byName, s, want).value, 1)
  {
    var norm := NormOf(text, want);
    if norm in byName {
      assert Named(s.names, norm);
      var present := s.(report := s.report.(targetsPresent := s.report.targetsPresent + 1));
      NothingToTopUp(text, present, byName[norm], want.aliases, |want.aliases|);
    }
  }

  /** `n` wants gone over, each found present or its name taken, and nothing written. */
  ghost predicate AddsNothing(s: Seeding, s': Seeding, n: nat) {
    && s'.names == s.names && s'.owner == s.owner
    && s'.report.targetsAdded == s.report.targetsAdded && s'.report.aliasesAdded == s.report.aliasesAdded
    && s'.report.targetsPresent + s'.report.namesTaken == s.report.targetsPresent + s.report.namesTaken + n
  }

  lemma {:induction false} RunValidates(
    text: Text, byName: map<string, TargetId>, s: Seeding, wants: seq<Embedded>, n: nat
  )
    requires n <= |wants| && SowAll(text, byName, s, wants, n).Ok?
    ensures forall i :: 0 <= i < n ==>
            ValidateIdentity(text, wants[i].name, wants[i].zone, wants[i].expansion, wants[i].category).Ok?
  {
    if n == 0 {
    } else {
      RunValidates(text, byName, s, wants, n - 1);
    }
  }

  /**
   * Seeding is additive, and once is enough: a run takes nothing from anybody, and a second one changes no row,
   * finding every shipped target present or its name taken.
   */
  lemma SecondSeedAddsNothing(text: Text, names: Names, wants: seq<Embedded>)
    requires Sound(text, names) && DistinctNames(text, wants) && SeedRun(text, names, wants).Ok?
    ensures
      var after := SeedRun(text, names, wants).value.names;
      && Sound(text, after) && Grows(names, after)
      && SeedRun(text, after, wants).Ok?
      && SeedRun(text, after, wants).value.names == after
      && var again := SeedRun(text, after, wants).value.report;
         again.targetsAdded == 0 && again.aliasesAdded == 0 && again.targetsPresent + again.namesTaken == |wants|
  {
    var first := SeedRun(text, names, wants).value;
    assert SettledUpTo(text, NameIndex(text, names), Begin(text, names), wants, 0);
    RunSettles(text, NameIndex(text, names), Begin(text, names), wants, |wants|, first);
    RunValidates(text, NameIndex(text, names), Begin(text, names), wants, |wants|);
    var begin := Begin(text, first.names);
    MapsAreUnique(text, first.names, NameIndex(text, first.names), first.owner);
    forall i | 0 <= i < |wants| ensures Settled(text, begin, wants[i]) {
      assert Settled(text, first, wants[i]);
    }
    RunOverSettled(text, NameIndex(text, first.names), begin, wants, |wants|);
  }
}
