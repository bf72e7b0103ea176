/** The writes the two name tables admit, each with what its unique index and triggers demand. */
module NameTables {
  import opened CatalogueTypes
  import opened Resolve

  ghost predicate Spelled(names: Names, s: string) {
    exists id :: Owns(names, id, s)
  }

  ghost predicate Sound(text: Text, names: Names) {
    Normalised(text, names) && OneOwner(names)
  }

  function InsertTarget(names: Names, target: Target): Names {
    names.(targets := names.targets[target.id := target], nextId := target.id + 1)
  }

  function ReplaceTarget(names: Names, target: Target): Names {
    names.(targets := names.targets[target.id := target])
  }

  function InsertAlias(text: Text, names: Names, id: TargetId, alias: string): Names {
    names.(aliases := names.aliases[text.normalise(alias) := Alias(id, alias)])
  }

  function DeleteAliases(names: Names, id: TargetId): Names {
    names.(aliases := map s | s in names.aliases && names.aliases[s].target != id :: names.aliases[s])
  }

  /** The first `n` aliases written, one row each. */
  function WriteAliases(text: Text, names: Names, id: TargetId, aliases: seq<string>, n: nat): Names
    requires n <= |aliases|
  {
    if n == 0 then names else InsertAlias(text, WriteAliases(text, names, id, aliases, n - 1), id, aliases[n - 1])
  }

  lemma InsertTargetKeeps(text: Text, names: Names, target: Target)
    requires Sound(text, names) && target.id == names.nextId
    requires target.nameNorm == text.normalise(target.name) && !Spelled(names, target.nameNorm)
    ensures Sound(text, InsertTarget(names, target)) && Grows(names, InsertTarget(names, target))
    ensures forall s, id :: Owns(InsertTarget(names, target), id, s)
              <==> Owns(names, id, s) || (id == target.id && s == target.nameNorm)
  {
    var more := InsertTarget(names, target);
    forall s, id
      ensures Owns(more, id, s) <==> Owns(names, id, s) || (id == target.id && s == target.nameNorm)
    {
    }
    assert Normalised(text, more);
    forall s, i, j | Owns(more, i, s) && Owns(more, j, s) ensures i == j {
      assert s == target.nameNorm ==> !Owns(names, i, s) && !Owns(names, j, s);
    }
  }

  lemma InsertAliasKeeps(text: Text, names: Names, id: TargetId, alias: string)
    requires Sound(text, names) && id in names.targets && !Spelled(names, text.normalise(alias))
    ensures Sound(text, InsertAlias(text, names, id, alias)) && Grows(names, InsertAlias(text, names, id, alias))
    ensures forall s, i :: Owns(InsertAlias(text, names, id, alias), i, s)
              <==> Owns(names, i, s) || (i == id && s == text.normalise(alias))
  {
    var norm, more := text.normalise(alias), InsertAlias(text, names, id, alias);
    assert norm !in names.aliases by {
      if norm in names.aliases {
        assert Owns(names, names.aliases[norm].target, norm);
      }
    }
    forall s, i
      ensures Owns(more, i, s) <==> Owns(names, i, s) || (i == id && s == norm)
    {
    }
    forall s, i, j | Owns(more, i, s) && Owns(more, j, s) ensures i == j {
      assert s == norm ==> !Owns(names, i, s) && !Owns(names, j, s);
    }
  }

  lemma ReplaceTargetKeeps(text: Text, names: Names, target: Target)
    requires Sound(text, names) && target.id in names.targets
    requires target.nameNorm == text.normalise(target.name)
    requires forall id :: Owns(names, id, target.nameNorm) ==> id == target.id
    ensures Sound(text, ReplaceTarget(names, target))
  {
    var more := ReplaceTarget(names, target);
    forall s, id | Owns(more, id, s)
      ensures Owns(names, id, s) || (id == target.id && s == target.nameNorm)
    {
    }
    assert Normalised(text, more);
    forall s, i, j | Owns(more, i, s) && Owns(more, j, s) ensures i == j {
    }
  }

  lemma DeleteAliasesKeeps(text: Text, names: Names, id: TargetId)
    requires Sound(text, names)
    ensures Sound(text, DeleteAliases(names, id))
  {
    var less := DeleteAliases(names, id);
    forall s, i | Owns(less, i, s) ensures Owns(names, i, s) {
    }
  }

  /** Nobody's alias repeats its own target's name, which the name rung would always answer first. */
  ghost predicate EveryAliasCounts(names: Names) {
    forall s :: s in names.aliases && names.aliases[s].target in names.targets
        ==> names.targets[names.aliases[s].target].nameNorm != s
  }
}
