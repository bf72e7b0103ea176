/** What seeding the shipped identities does, one wanted target at a time. */
module TargetSeed {
  import opened Core
  import opened CatalogueTypes
  import opened Resolve
  import opened Spelling
  import opened NameTables

  datatype Embedded = Embedded(
    name: string, zone: string, expansion: string, category: string, quakeImmune: bool, aliases: seq<string>
  )

  datatype Report = Report(
    targetsAdded: nat, targetsPresent: nat, aliasesAdded: nat, aliasesTaken: nat, namesTaken: nat
  )

  /** The tables, the running map from a spelling to its owner, and the counts. */
  datatype Seeding = Seeding(names: Names, owner: map<string, TargetId>, report: Report)

  const NOTHING_DONE := Report(0, 0, 0, 0, 0)

  function Fresh(names: Names, f: Identity, quakeImmune: bool): Target {
    Target(names.nextId, f.name, f.nameNorm, f.zone, f.zoneNorm, f.expansion, f.category, !quakeImmune, Active)
  }

  function AddAlias(text: Text, s: Seeding, id: TargetId, alias: string): Seeding {
    var norm := text.normalise(alias);
    if norm in s.owner then
      if s.owner[norm] != id then s.(report := s.report.(aliasesTaken := s.report.aliasesTaken + 1)) else s
    else
      Seeding(
        InsertAlias(text, s.names, id, alias),
        s.owner[norm := id],
        s.report.(aliasesAdded := s.report.aliasesAdded + 1))
  }

  function TopUp(text: Text, s: Seeding, id: TargetId, aliases: seq<string>, n: nat): Seeding
    requires n <= |aliases|
  {
    if n == 0 then s else AddAlias(text, TopUp(text, s, id, aliases, n - 1), id, aliases[n - 1])
  }

  function AddTarget(s: Seeding, target: Target): Seeding {
    Seeding(
      InsertTarget(s.names, target),
      s.owner[target.nameNorm := target.id],
      s.report.(targetsAdded := s.report.targetsAdded + 1))
  }

  /** One wanted target. `byName` is what was there when the run began, and is not updated. */
  function Sow(text: Text, byName: map<string, TargetId>, s: Seeding, want: Embedded): Result<Seeding, Rejection> {
    match ValidateIdentity(text, want.name, want.zone, want.expansion, want.category)
    case Err(e) => Err(e)
    case Ok(f) =>
      if f.nameNorm in byName then
        var present := s.(report := s.report.(targetsPresent := s.report.targetsPresent + 1));
        Ok(TopUp(text, present, byName[f.nameNorm], want.aliases, |want.aliases|))
      else if f.nameNorm in s.owner then
        Ok(s.(report := s.report.(namesTaken := s.report.namesTaken + 1)))
      else
        var target := Fresh(s.names, f, want.quakeImmune);
        Ok(TopUp(text, AddTarget(s, target), target.id, want.aliases, |want.aliases|))
  }

  function SowAll(
    text: Text, byName: map<string, TargetId>, s: Seeding, wants: seq<Embedded>, n: nat
  ): Result<Seeding, Rejection>
    requires n <= |wants|
  {
    if n == 0 then Ok(s)
    else
      match SowAll(text, byName, s, wants, n - 1)
      case Err(e) => Err(e)
      case Ok(before) => Sow(text, byName, before, wants[n - 1])
  }

  // ---------------------------------------------------------------- the maps a run starts from

  ghost predicate OwnerMap(names: Names, owner: map<string, TargetId>) {
    && (forall s :: s in owner ==> Owns(names, owner[s], s))
    && (forall s, id :: Owns(names, id, s) ==> s in owner && owner[s] == id)
  }

  ghost predicate NameMap(names: Names, byName: map<string, TargetId>) {
    && (forall s :: s in byName ==> byName[s] in names.targets && names.targets[byName[s]].nameNorm == s)
    && (forall id :: id in names.targets ==>
          names.targets[id].nameNorm in byName && byName[names.targets[id].nameNorm] == id)
  }

  ghost predicate Named(names: Names, s: string) {
    exists id :: id in names.targets && names.targets[id].nameNorm == s
  }

  ghost function OwnerOf(names: Names, s: string): (id: TargetId)
    requires Spelled(names, s)
    ensures Owns(names, id, s)
  {
    var id :| Owns(names, id, s);
    id
  }

  function NameSet(names: Names): set<string> {
    set id | id in names.targets :: names.targets[id].nameNorm
  }

  ghost function OwnerIndex(text: Text, names: Names): (owner: map<string, TargetId>)
    requires Sound(text, names)
    ensures OwnerMap(names, owner)
  {
    assert forall s | s in NameSet(names) + names.aliases.Keys :: Spelled(names, s) by {
      forall s | s in NameSet(names) + names.aliases.Keys ensures Spelled(names, s) {
        var id :| id in names.targets &&
          (names.targets[id].nameNorm == s || (s in names.aliases && names.aliases[s].target == id));
        assert Owns(names, id, s);
      }
    }
    map s | s in NameSet(names) + names.aliases.Keys :: OwnerOf(names, s)
  }

  ghost function NameIndex(text: Text, names: Names): (byName: map<string, TargetId>)
    requires Sound(text, names)
    ensures NameMap(names, byName)
  {
    assert forall id | id in names.targets :: Owns(names, id, names.targets[id].nameNorm);
    var owner := OwnerIndex(text, names);
    map s | s in NameSet(names) :: owner[s]
  }

  ghost function Begin(text: Text, names: Names): Seeding
    requires Sound(text, names)
  {
    Seeding(names, OwnerIndex(text, names), NOTHING_DONE)
  }

  /** A whole run over tables that are sound. */
  ghost function SeedRun(text: Text, names: Names, wants: seq<Embedded>): Result<Seeding, Rejection>
    requires Sound(text, names)
  {
    SowAll(text, NameIndex(text, names), Begin(text, names), wants, |wants|)
  }
}
