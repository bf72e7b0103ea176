/** Any sequence of creates, updates and seeds, whoever reads what in between. */
module NamespaceRuns {
  import opened CatalogueTypes
  import opened Spelling
  import opened NameTables
  import opened Namespace
  import opened NamespaceProperties
  import Resolve
  import TargetSeed

  lemma {:induction false} WrittenAliasesKeep(text: Text, names: Names, id: TargetId, aliases: seq<string>, n: nat)
    requires Sound(text, names) && id in names.targets && n <= |aliases| && Distinct(Norms(text, aliases))
    requires forall i :: 0 <= i < |aliases| ==> !Spelled(names, Norms(text, aliases)[i])
    ensures
      var after := WriteAliases(text, names, id, aliases, n);
      && Sound(text, after) && id in after.targets && Resolve.Grows(names, after)
      && forall i :: n <= i < |aliases| ==> !Spelled(after, Norms(text, aliases)[i])
  {
    if n == 0 {
    } else {
      WrittenAliasesKeep(text, names, id, aliases, n - 1);
      AliasWrittenKeeps(text, names, WriteAliases(text, names, id, aliases, n - 1), id, aliases, n);
    }
  }

  lemma AliasWrittenKeeps(text: Text, names: Names, before: Names, id: TargetId, aliases: seq<string>, n: nat)
    requires Sound(text, before) && id in before.targets && Resolve.Grows(names, before)
    requires 0 < n <= |aliases| && Distinct(Norms(text, aliases))
    requires forall i :: n - 1 <= i < |aliases| ==> !Spelled(before, Norms(text, aliases)[i])
    ensures
      var after := InsertAlias(text, before, id, aliases[n - 1]);
      && Sound(text, after) && id in after.targets && Resolve.Grows(names, after)
      && forall i :: n <= i < |aliases| ==> !Spelled(after, Norms(text, aliases)[i])
  {
    assert !Spelled(before, Norms(text, aliases)[n - 1]);
    InsertAliasKeeps(text, before, id, aliases[n - 1]);
    forall i | n <= i < |aliases|
      ensures !Spelled(InsertAlias(text, before, id, aliases[n - 1]), Norms(text, aliases)[i])
    {
      assert Norms(text, aliases)[i] != Norms(text, aliases)[n - 1] && !Spelled(before, Norms(text, aliases)[i]);
    }
  }

  lemma CreateKeeps(text: Text, names: Names, req: CreateRequest)
    requires Sound(text, names)
    ensures Sound(text, Created(text, names, req)) && Resolve.Grows(names, Created(text, names, req))
  {
    var id, asked := names.nextId, PlanCreate(text, names.nextId, req);
    if asked.Ok? && FirstClash(text, names, id, asked.value.target.nameNorm, asked.value.aliases).None? {
      var plan := asked.value;
      FreeSpellings(text, names, id, plan.target.nameNorm, plan.aliases);
      InsertTargetKeeps(text, names, plan.target);
      forall i | 0 <= i < |plan.aliases|
        ensures !Spelled(InsertTarget(names, plan.target), Norms(text, plan.aliases)[i])
      {
        assert !Spelled(names, Norms(text, plan.aliases)[i]) && Norms(text, plan.aliases)[i] != plan.target.nameNorm;
      }
      WrittenAliasesKeep(text, InsertTarget(names, plan.target), id, plan.aliases, |plan.aliases|);
    }
  }

  lemma RewriteKeeps(text: Text, names: Names, plan: Plan, replaceAliases: bool)
    requires Sound(text, names) && plan.target.id in names.targets
    requires plan.target.nameNorm == text.normalise(plan.target.name)
    requires FirstClash(text, names, plan.target.id, plan.target.nameNorm, plan.aliases).None?
    ensures Sound(text, Rewrite(text, names, plan, replaceAliases))
  {
    var id := plan.target.id;
    FreeSpellings(text, names, id, plan.target.nameNorm, plan.aliases);
    ReplaceTargetKeeps(text, names, plan.target);
    if replaceAliases {
      DeleteAliasesKeeps(text, ReplaceTarget(names, plan.target), id);
      forall i | 0 <= i < |plan.aliases|
        ensures !Spelled(DeleteAliases(ReplaceTarget(names, plan.target), id), Norms(text, plan.aliases)[i])
      {
        StillUnspelled(text, names, plan.target, Norms(text, plan.aliases)[i]);
      }
      WrittenAliasesKeep(text, DeleteAliases(ReplaceTarget(names, plan.target), id), id, plan.aliases, |plan.aliases|);
    }
  }

  lemma SeedKeeps(text: Text, names: Names, wants: seq<TargetSeed.Embedded>)
    requires Sound(text, names) && TargetSeed.SeedRun(text, names, wants).Ok?
    ensures
      var after := TargetSeed.SeedRun(text, names, wants).value.names;
      Sound(text, after) && Resolve.Grows(names, after)
  {
    var start, end := TargetSeed.Begin(text, names), TargetSeed.SeedRun(text, names, wants).value;
    SeedOnlyAdds(text, TargetSeed.NameIndex(text, names), start, wants, |wants|, end);
    ConsistentIsSound(text, end);
  }

  lemma StepKeeps(text: Text, names: Names, w: NameWrite)
    requires Sound(text, names)
    ensures Sound(text, NameStep(text, names, w))
    ensures !w.WriteUpdate? ==> Resolve.Grows(names, NameStep(text, names, w))
  {
    match w
    case WriteCreate(req) => CreateKeeps(text, names, req);
    case WriteSeed(wants) =>
      if TargetSeed.SeedRun(text, names, wants).Ok? {
        SeedKeeps(text, names, wants);
      }
    case WriteUpdate(id, current, req) =>
      if current.Some? && PlanUpdate(text, id, current.value, req).Ok? && id in names.targets {
        var plan := PlanUpdate(text, id, current.value, req).value;
        if FirstClash(text, names, id, plan.target.nameNorm, plan.aliases).None? {
          RewriteKeeps(text, names, plan, req.aliases.Some?);
        }
      }
  }

  /** However creates, updates with reads of any age, and seeds follow each other, no spelling has two owners. */
  ghost function NameRun(text: Text, names: Names, ws: seq<NameWrite>): (after: Names)
    requires Sound(text, names)
    ensures Sound(text, after)
  {
    if ws == [] then names
    else
      var before := NameRun(text, names, ws[..|ws| - 1]);
      StepKeeps(text, before, ws[|ws| - 1]);
      NameStep(text, before, ws[|ws| - 1])
  }

  lemma {:induction false} AdditionsGrow(text: Text, names: Names, ws: seq<NameWrite>)
    requires Sound(text, names) && forall w :: w in ws ==> !w.WriteUpdate?
    ensures Resolve.Grows(names, NameRun(text, names, ws))
  {
    if ws == [] {
    } else {
      AdditionsGrow(text, names, ws[..|ws| - 1]);
      StepKeeps(text, NameRun(text, names, ws[..|ws| - 1]), ws[|ws| - 1]);
    }
  }

  /** Whatever is created or seeded later, a spelling goes on resolving to the target it resolved to. */
  lemma AdditionsNeverSteal(
    text: Text, names: Names, ws: seq<NameWrite>, targets: seq<Listed>, targets': seq<Listed>, id: TargetId,
    name: string
  )
    requires Sound(text, names) && forall w :: w in ws ==> !w.WriteUpdate?
    requires Resolve.Loads(names, targets) && Resolve.Loads(NameRun(text, names, ws), targets')
    requires text.normalise(name) != "" && Resolve.Owns(names, id, text.normalise(name))
    ensures Resolve.ResolveIn(text, targets, name).Ok? && Resolve.ResolveIn(text, targets', name).Ok?
    ensures Resolve.ResolveIn(text, targets', name).value.target == Resolve.ResolveIn(text, targets, name).value.target
  {
    AdditionsGrow(text, names, ws);
    Resolve.AdditionsDoNotSteal(text, names, NameRun(text, names, ws), targets, targets', id, name);
  }
}
