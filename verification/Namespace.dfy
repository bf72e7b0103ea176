/** The writes that share one namespace of spellings: create, update, and the seed of shipped targets. */
module Namespace {
  import opened Core
  import opened CatalogueTypes
  import opened Spelling
  import opened NameTables
  import opened TargetSeed
  import Resolve

  datatype CreateRequest = CreateRequest(
    name: string, zone: string, expansion: string, category: string, isQuakeTarget: bool, aliases: seq<string>)

  /** A field that was not sent is `None`. */
  datatype UpdateRequest = UpdateRequest(
    name: Option<string>,
    zone: Option<string>,
    expansion: Option<string>,
    category: Option<string>,
    isQuakeTarget: Option<bool>,
    state: Option<string>,
    aliases: Option<seq<string>>)

  function OrElse<T>(sent: Option<T>, current: T): T {
    if sent.Some? then sent.value else current
  }

  function ParseState(state: string): Option<TargetState> {
    if state == "active" then Some(Active) else if state == "retired" then Some(Retired) else None
  }

  // ---------------------------------------------------------------- what each call asks for

  datatype Plan = Plan(target: Target, aliases: seq<string>)

  function PlanCreate(text: Text, id: TargetId, req: CreateRequest): Result<Plan, Rejection> {
    match ValidateIdentity(text, req.name, req.zone, req.expansion, req.category)
    case Err(e) => Err(e)
    case Ok(f) =>
      match CleanAliases(text, req.aliases)
      case Err(e) => Err(e)
      case Ok(aliases) =>
        Ok(Plan(
            Target(id, f.name, f.nameNorm, f.zone, f.zoneNorm, f.expansion, f.category, req.isQuakeTarget, Active),
            aliases))
  }

  /** Every field not sent is filled from `current`, read before the transaction opened. */
  function PlanUpdate(text: Text, id: TargetId, current: Listed, req: UpdateRequest): Result<Plan, Rejection> {
    var was := current.target;
    match ValidateIdentity(text, OrElse(req.name, was.name), OrElse(req.zone, was.zone),
                           OrElse(req.expansion, was.expansion), OrElse(req.category, was.category))
    case Err(e) => Err(e)
    case Ok(f) =>
      if req.state.Some? && ParseState(req.state.value).None? then Err(BadState)
      else
        var state := if req.state.Some? then ParseState(req.state.value).value else was.state;
        var quake := OrElse(req.isQuakeTarget, was.isQuakeTarget);
        var cleaned := if req.aliases.Some? then CleanAliases(text, req.aliases.value) else Ok(current.aliases);
        match cleaned
        case Err(e) => Err(e)
        case Ok(aliases) =>
          Ok(Plan(Target(id, f.name, f.nameNorm, f.zone, f.zoneNorm, f.expansion, f.category, quake, state), aliases))
  }

  /** A plan's row, and its aliases when it replaces the set, in the tables. */
  function Rewrite(text: Text, names: Names, plan: Plan, replaceAliases: bool): Names {
    var renamed := ReplaceTarget(names, plan.target);
    if replaceAliases
    then WriteAliases(text, DeleteAliases(renamed, plan.target.id), plan.target.id, plan.aliases, |plan.aliases|)
    else renamed
  }

  // ---------------------------------------------------------------- any run of writes

  datatype NameWrite =
    | WriteCreate(create: CreateRequest)
    | WriteUpdate(id: TargetId, current: Option<Listed>, update: UpdateRequest)
    | WriteSeed(wants: seq<Embedded>)

  function Created(text: Text, names: Names, req: CreateRequest): Names {
    match PlanCreate(text, names.nextId, req)
    case Err(_) => names
    case Ok(plan) =>
      if FirstClash(text, names, names.nextId, plan.target.nameNorm, plan.aliases).Some? then names
      else WriteAliases(text, InsertTarget(names, plan.target), names.nextId, plan.aliases, |plan.aliases|)
  }

  function Updated(text: Text, names: Names, id: TargetId, current: Option<Listed>, req: UpdateRequest): Names {
    if current.None? then names
    else
      match PlanUpdate(text, id, current.value, req)
      case Err(_) => names
      case Ok(plan) =>
        if id !in names.targets || FirstClash(text, names, id, plan.target.nameNorm, plan.aliases).Some? then names
        else Rewrite(text, names, plan, req.aliases.Some?)
  }

  /** Is this update let through, given what was read before and what the tables hold now? */
  predicate Admits(text: Text, names: Names, id: TargetId, current: Option<Listed>, req: UpdateRequest) {
    && current.Some? && id in names.targets
    && var plan := PlanUpdate(text, id, current.value, req);
       plan.Ok? && FirstClash(text, names, id, plan.value.target.nameNorm, plan.value.aliases).None?
  }

  /** And is this target? */
  predicate AdmitsNew(text: Text, names: Names, req: CreateRequest) {
    var plan := PlanCreate(text, names.nextId, req);
    plan.Ok? && FirstClash(text, names, names.nextId, plan.value.target.nameNorm, plan.value.aliases).None?
  }

  /** What one write, refused or not, makes of the tables. */
  ghost function NameStep(text: Text, names: Names, w: NameWrite): (after: Names)
    requires Sound(text, names)
  {
    match w
    case WriteCreate(req) => Created(text, names, req)
    case WriteUpdate(id, current, req) => Updated(text, names, id, current, req)
    case WriteSeed(wants) => if SeedRun(text, names, wants).Ok? then SeedRun(text, names, wants).value.names else names
  }

  // ---------------------------------------------------------------- the service

  class Catalogue {
    const text: Text
    var names: Names

    ghost predicate Valid()
      reads this
    {
      Sound(text, names)
    }

    constructor (text: Text)
      ensures Valid() && this.text == text && names == Names(map[], map[], 0)
    {
      this.text := text;
      this.names := Names(map[], map[], 0);
    }

    /** The row's unique index and trigger are preconditions: no caller below ever trips them. */
    method CreateRow(target: Target)
      requires Valid() && target.id == names.nextId
      requires target.nameNorm == text.normalise(target.name) && !Spelled(names, target.nameNorm)
      modifies this
      ensures Valid() && names == InsertTarget(old(names), target)
    {
      InsertTargetKeeps(text, names, target);
      names := InsertTarget(names, target);
    }

    method CreateAliasRow(id: TargetId, alias: string)
      requires Valid() && id in names.targets && !Spelled(names, text.normalise(alias))
      modifies this
      ensures Valid() && names == InsertAlias(text, old(names), id, alias)
    {
      InsertAliasKeeps(text, names, id, alias);
      names := InsertAlias(text, names, id, alias);
    }

    method WriteAliasRows(id: TargetId, aliases: seq<string>)
      requires Valid() && id in names.targets && Distinct(Norms(text, aliases))
      requires forall i :: 0 <= i < |aliases| ==> !Spelled(names, Norms(text, aliases)[i])
      modifies this
      ensures Valid() && names == WriteAliases(text, old(names), id, aliases, |aliases|)
      ensures names.targets == old(names.targets)
    {
      for k := 0 to |aliases|
        invariant Valid() && names == WriteAliases(text, old(names), id, aliases, k)
        invariant names.targets == old(names.targets)
        invariant forall i :: k <= i < |aliases| ==> !Spelled(names, Norms(text, aliases)[i])
      {
        ghost var before := names;
        InsertAliasKeeps(text, names, id, aliases[k]);
        CreateAliasRow(id, aliases[k]);
        forall i | k < i < |aliases| ensures !Spelled(names, Norms(text, aliases)[i]) {
          assert Norms(text, aliases)[i] != Norms(text, aliases)[k];
          assert !Spelled(before, Norms(text, aliases)[i]);
        }
      }
    }

    method Create(req: CreateRequest) returns (r: Result<TargetId, Rejection>)
      requires Valid()
      modifies this
      ensures Valid()
      ensures
        var id := old(names).nextId;
        var plan := PlanCreate(text, id, req);
        if plan.Err? then r == Err(plan.error) && names == old(names)
        else
          var clash := FirstClash(text, old(names), id, plan.value.target.nameNorm, plan.value.aliases);
          if clash.Some? then r == Err(clash.value) && names == old(names)
          else
            && r == Ok(id)
            && names == WriteAliases(
                          text, InsertTarget(old(names), plan.value.target), id, plan.value.aliases,
                          |plan.value.aliases|)
      ensures names == NameStep(text, old(names), WriteCreate(req))
    {
      var fields := ValidateIdentity(text, req.name, req.zone, req.expansion, req.category);
      if fields.Err? {
        return Err(fields.error);
      }
      var aliases := ValidateAliases(text, req.aliases);
      if aliases.Err? {
        return Err(aliases.error);
      }
      var f, id := fields.value, names.nextId;
      var clash := CheckNamespace(text, names, id, f.nameNorm, aliases.value);
      if clash.Some? {
        return Err(clash.value);
      }
      ghost var before := names;
      var target := Target(
        id, f.name, f.nameNorm, f.zone, f.zoneNorm, f.expansion, f.category, req.isQuakeTarget, Active);
      FreeSpellings(text, before, id, f.nameNorm, aliases.value);
      InsertTargetKeeps(text, before, target);
      CreateRow(target);
      forall i | 0 <= i < |aliases.value| ensures !Spelled(names, Norms(text, aliases.value)[i]) {
        assert Norms(text, aliases.value)[i] !in Claimed(before, id) && Norms(text, aliases.value)[i] != f.nameNorm;
        assert !Spelled(before, Norms(text, aliases.value)[i]);
      }
      WriteAliasRows(id, aliases.value);
      return Ok(id);
    }

    /** `current` is the target as some earlier read saw it; the tables may have moved on since. */
    method Update(id: TargetId, current: Option<Listed>, req: UpdateRequest) returns (r: Result<(), Rejection>)
      requires Valid()
      modifies this
      ensures Valid()
      ensures
        if current.None? || (PlanUpdate(text, id, current.value, req).Ok? && id !in old(names).targets)
        then r == Err(NoSuchTarget) && names == old(names)
        else
          var plan := PlanUpdate(text, id, current.value, req);
          if plan.Err? then r == Err(plan.error) && names == old(names)
          else
            var clash := FirstClash(text, old(names), id, plan.value.target.nameNorm, plan.value.aliases);
            if clash.Some? then r == Err(clash.value) && names == old(names)
            else r == Ok(()) && names == Rewrite(text, old(names), plan.value, req.aliases.Some?)
      ensures names == NameStep(text, old(names), WriteUpdate(id, current, req))
    {
      if current.None? {
        return Err(NoSuchTarget);
      }
      var was := current.value.target;
      var fields := ValidateIdentity(text, OrElse(req.name, was.name), OrElse(req.zone, was.zone),
                                     OrElse(req.expansion, was.expansion), OrElse(req.category, was.category));
      if fields.Err? {
        return Err(fields.error);
      }
      var state := was.state;
      if req.state.Some? {
        var parsed := ParseState(req.state.value);
        if parsed.None? {
          return Err(BadState);
        }
        state := parsed.value;
      }
      var quake := OrElse(req.isQuakeTarget, was.isQuakeTarget);
      var aliases := current.value.aliases;
      if req.aliases.Some? {
        var cleaned := ValidateAliases(text, req.aliases.value);
        if cleaned.Err? {
          return Err(cleaned.error);
        }
        aliases := cleaned.value;
      }
      if id !in names.targets {
        return Err(NoSuchTarget);
      }
      var f := fields.value;
      var target := Target(id, f.name, f.nameNorm, f.zone, f.zoneNorm, f.expansion, f.category, quake, state);
      r := Commit(Plan(target, aliases), req.aliases.Some?);
    }

    /** The transaction of an update: the namespace check, the row, and the alias set when it was sent. */
    method Commit(plan: Plan, replaceAliases: bool) returns (r: Result<(), Rejection>)
      requires Valid() && plan.target.id in names.targets
      requires plan.target.nameNorm == text.normalise(plan.target.name)
      modifies this
      ensures Valid()
      ensures
        var clash := FirstClash(text, old(names), plan.target.id, plan.target.nameNorm, plan.aliases);
        if clash.Some? then r == Err(clash.value) && names == old(names)
        else r == Ok(()) && names == Rewrite(text, old(names), plan, replaceAliases)
    {
      var id, aliases := plan.target.id, plan.aliases;
      var clash := CheckNamespace(text, names, id, plan.target.nameNorm, aliases);
      if clash.Some? {
        return Err(clash.value);
      }
      ghost var before := names;
      FreeSpellings(text, before, id, plan.target.nameNorm, aliases);
      ReplaceTargetKeeps(text, names, plan.target);
      names := ReplaceTarget(names, plan.target);
      if replaceAliases {
        DeleteAliasesKeeps(text, names, id);
        names := DeleteAliases(names, id);
        forall i | 0 <= i < |aliases| ensures !Spelled(names, Norms(text, aliases)[i]) {
          StillUnspelled(text, before, plan.target, Norms(text, aliases)[i]);
        }
        WriteAliasRows(id, aliases);
      }
      return Ok(());
    }

    method NamesAndOwners() returns (byName: map<string, TargetId>, owner: map<string, TargetId>)
      requires Valid()
      ensures NameMap(names, byName) && OwnerMap(names, owner)
    {
      byName, owner := map[], map[];
      var rows := names.targets.Keys;
      var aliasRows := names.aliases.Keys;
      while aliasRows != {}
        invariant aliasRows <= names.aliases.Keys
        invariant forall s :: s in owner <==> s in names.aliases && s !in aliasRows
        invariant forall s :: s in owner ==> owner[s] == names.aliases[s].target
        decreases aliasRows
      {
        var s :| s in aliasRows;
        aliasRows := aliasRows - {s};
        owner := owner[s := names.aliases[s].target];
      }
      while rows != {}
        invariant rows <= names.targets.Keys
        invariant forall id :: id in names.targets && id !in rows ==>
                    && names.targets[id].nameNorm in byName && byName[names.targets[id].nameNorm] == id
                    && names.targets[id].nameNorm in owner && owner[names.targets[id].nameNorm] == id
        invariant forall s :: s in byName ==> byName[s] in names.targets && names.targets[byName[s]].nameNorm == s
        invariant forall s :: s in owner ==> Resolve.Owns(names, owner[s], s)
        invariant forall s :: s in names.aliases ==> s in owner && owner[s] == names.aliases[s].target
        decreases rows
      {
        var id :| id in rows;
        rows := rows - {id};
        var norm := names.targets[id].nameNorm;
        forall j | j in names.targets && names.targets[j].nameNorm == norm ensures j == id {
          assert Resolve.Owns(names, j, norm) && Resolve.Owns(names, id, norm);
        }
        assert norm in names.aliases ==> names.aliases[norm].target == id by {
          assert Resolve.Owns(names, id, norm);
          assert norm in names.aliases ==> Resolve.Owns(names, names.aliases[norm].target, norm);
        }
        byName := byName[norm := id];
        owner := owner[norm := id];
      }
    }

    method TopUpRows(id: TargetId, aliases: seq<string>, owner: map<string, TargetId>, report: Report)
      returns (owner': map<string, TargetId>, report': Report)
      requires Valid() && OwnerMap(names, owner) && id in names.targets
      modifies this
      ensures Valid() && OwnerMap(names, owner') && names.targets == old(names.targets)
      ensures TopUp(text, Seeding(old(names), owner, report), id, aliases, |aliases|) == Seeding(names, owner', report')
    {
      owner', report' := owner, report;
      for k := 0 to |aliases|
        invariant Valid() && OwnerMap(names, owner') && names.targets == old(names.targets)
        invariant TopUp(text, Seeding(old(names), owner, report), id, aliases, k) == Seeding(names, owner', report')
      {
        var norm := text.normalise(aliases[k]);
        if norm in owner' {
          if owner'[norm] != id {
            report' := report'.(aliasesTaken := report'.aliasesTaken + 1);
          }
          continue;
        }
        ClaimAlias(text, names, owner', id, aliases[k]);
        CreateAliasRow(id, aliases[k]);
        owner' := owner'[norm := id];
        report' := report'.(aliasesAdded := report'.aliasesAdded + 1);
      }
    }

    /** A target not there yet, under a spelling nobody has. */
    method PlantRow(f: Identity, quakeImmune: bool, owner: map<string, TargetId>, report: Report)
      returns (owner': map<string, TargetId>, report': Report)
      requires Valid() && OwnerMap(names, owner)
      requires f.nameNorm !in owner && f.nameNorm == text.normalise(f.name)
      modifies this
      ensures Valid() && OwnerMap(names, owner')
      ensures Seeding(names, owner', report')
              == AddTarget(Seeding(old(names), owner, report), Fresh(old(names), f, quakeImmune))
    {
      var target := Fresh(names, f, quakeImmune);
      ClaimName(text, names, owner, target);
      CreateRow(target);
      owner' := owner[f.nameNorm := target.id];
      report' := report.(targetsAdded := report.targetsAdded + 1);
    }

    /** One turn of the seed's loop. */
    method SowRow(want: Embedded, byName: map<string, TargetId>, owner: map<string, TargetId>, report: Report)
      returns (refused: Option<Rejection>, owner': map<string, TargetId>, report': Report)
      requires Valid() && OwnerMap(names, owner)
      requires forall s :: s in byName ==> byName[s] in names.targets
      modifies this
      ensures Valid() && OwnerMap(names, owner')
      ensures forall id :: id in old(names).targets ==> id in names.targets
      ensures
        var sown := Sow(text, byName, Seeding(old(names), owner, report), want);
        && (refused.Some? ==> sown == Err(refused.value))
        && (refused.None? ==> sown.Ok? && sown.value == Seeding(names, owner', report'))
    {
      refused, owner', report' := None, owner, report;
      var fields := ValidateIdentity(text, want.name, want.zone, want.expansion, want.category);
      if fields.Err? {
        refused := Some(fields.error);
        return;
      }
      var f := fields.value;
      var id: TargetId;
      if f.nameNorm in byName {
        report' := report'.(targetsPresent := report'.targetsPresent + 1);
        id := byName[f.nameNorm];
      } else {
        if f.nameNorm in owner {
          report' := report'.(namesTaken := report'.namesTaken + 1);
          return;
        }
        id := names.nextId;
        owner', report' := PlantRow(f, want.quakeImmune, owner, report);
      }
      assert Sow(text, byName, Seeding(old(names), owner, report), want)
          == Ok(TopUp(text, Seeding(names, owner', report'), id, want.aliases, |want.aliases|));
      owner', report' := TopUpRows(id, want.aliases, owner', report');
    }

    method SeedTargets(wants: seq<Embedded>) returns (r: Result<Report, Rejection>)
      requires Valid()
      modifies this
      ensures Valid()
      ensures
        match SeedRun(text, old(names), wants)
        case Ok(s) => r == Ok(s.report) && names == s.names
        case Err(e) => r == Err(e) && names == old(names)
      ensures names == NameStep(text, old(names), WriteSeed(wants))
    {
      var before := names;
      var byName: map<string, TargetId>, owner: map<string, TargetId> := NamesAndOwners();
      MapsAreUnique(text, names, byName, owner);
      ghost var start := Begin(text, before);
      var report := NOTHING_DONE;
      for n := 0 to |wants|
        invariant Valid() && OwnerMap(names, owner)
        invariant forall s :: s in byName ==> byName[s] in names.targets
        invariant SowAll(text, byName, start, wants, n) == Ok(Seeding(names, owner, report))
      {
        var refused: Option<Rejection>;
        refused, owner, report := SowRow(wants[n], byName, owner, report);
        if refused.Some? {
          SowStaysFailed(text, byName, start, wants, n + 1, |wants|);
          names := before;
          return Err(refused.value);
        }
      }
      return Ok(report);
    }

    method AliasesByTarget() returns (byTarget: map<TargetId, seq<string>>)
      ensures forall id, a :: id in byTarget && a in byTarget[id] ==>
              exists s :: s in names.aliases && names.aliases[s] == Alias(id, a)
      ensures forall s :: s in names.aliases ==>
                names.aliases[s].target in byTarget && names.aliases[s].alias in byTarget[names.aliases[s].target]
    {
      byTarget := map[];
      var aliasRows := names.aliases.Keys;
      while aliasRows != {}
        invariant aliasRows <= names.aliases.Keys
        invariant forall id, a :: id in byTarget && a in byTarget[id] ==>
                  exists s :: s in names.aliases && names.aliases[s] == Alias(id, a)
        invariant forall s :: s in names.aliases && s !in aliasRows ==>
                    names.aliases[s].target in byTarget && names.aliases[s].alias in byTarget[names.aliases[s].target]
        decreases aliasRows
      {
        var s :| s in aliasRows;
        aliasRows := aliasRows - {s};
        var row := names.aliases[s];
        var sofar := if row.target in byTarget then byTarget[row.target] else [];
        assert names.aliases[s] == Alias(row.target, row.alias);
        byTarget := byTarget[row.target := sofar + [row.alias]];
      }
    }

    /** The catalogue read whole: one pass over each table, aliases grouped by target. */
    method LoadTargets() returns (targets: seq<Listed>)
      requires Valid()
      ensures Resolve.Loads(names, targets)
    {
      var byTarget := AliasesByTarget();
      targets := [];
      ghost var ids: seq<TargetId> := [];
      var rows := names.targets.Keys;
      while rows != {}
        invariant rows <= names.targets.Keys
        invariant |ids| == |targets|
        invariant forall i :: 0 <= i < |targets| ==>
                  Resolve.ListedFrom(names, targets[i]) && targets[i].target.id == ids[i]
        invariant forall i, j :: 0 <= i < j < |ids| ==> ids[i] != ids[j]
        invariant forall id :: id in ids <==> id in names.targets && id !in rows
        decreases rows
      {
        var id :| id in rows;
        rows := rows - {id};
        var t := Listed(names.targets[id], if id in byTarget then byTarget[id] else []);
        assert Resolve.ListedFrom(names, t);
        targets := targets + [t];
        ids := ids + [id];
      }
    }

    /** Exactly one of id and name; an id names its target, and a spelling whoever owns it. */
    method ResolveRef(ref: Resolve.Ref) returns (r: Result<Resolve.Resolution, Resolve.Failure>)
      requires Valid()
      ensures
        var name := text.trim(ref.name);
        var norm := text.normalise(name);
        && (ref.id.Some? ==>
              r == if name != "" then Err(Resolve.BothSent)
                   else if ref.id.value in names.targets
                   then Ok(Resolve.Resolution(names.targets[ref.id.value], Resolve.MatchId))
                   else Err(Resolve.NoSuchId))
        && (ref.id.None? && name == "" ==> r == Err(Resolve.NeitherSent))
        && (ref.id.None? && name != "" ==>
              exists targets :: Resolve.Loads(names, targets) && r == Resolve.ResolveIn(text, targets, name))
        && (ref.id.None? && name != "" && norm != "" ==>
              forall id :: Resolve.Owns(names, id, norm) ==> r.Ok? && r.value.target == names.targets[id])
    {
      var name := text.trim(ref.name);
      if ref.id.Some? {
        if name != "" {
          return Err(Resolve.BothSent);
        }
        if ref.id.value !in names.targets {
          return Err(Resolve.NoSuchId);
        }
        return Ok(Resolve.Resolution(names.targets[ref.id.value], Resolve.MatchId));
      }
      if name == "" {
        return Err(Resolve.NeitherSent);
      }
      var targets := LoadTargets();
      r := Resolve.ResolveName(text, targets, name);
      var norm := text.normalise(name);
      forall id | norm != "" && Resolve.Owns(names, id, norm) ensures r.Ok? && r.value.target == names.targets[id] {
        Resolve.RegisteredSpellingResolves(text, names, targets, id, name);
      }
    }
  }

  // ---------------------------------------------------------------- why the writes are admissible

  /** What the namespace check lets through belongs to nobody but perhaps the target itself. */
  lemma FreeSpellings(text: Text, names: Names, id: TargetId, nameNorm: string, aliases: seq<string>)
    requires Sound(text, names) && FirstClash(text, names, id, nameNorm, aliases).None?
    ensures Free(text, names, id, nameNorm, aliases)
    ensures forall s, owner :: Resolve.Owns(names, owner, s) && s !in Claimed(names, id) ==> owner == id
    ensures id !in names.targets ==> forall s :: s !in Claimed(names, id) ==> !Spelled(names, s)
  {
    ClashesExactlyWhenNotFree(text, names, id, nameNorm, aliases);
  }

  lemma StillUnspelled(text: Text, names: Names, target: Target, s: string)
    requires Sound(text, names) && target.id in names.targets
    requires s !in Claimed(names, target.id) && s != target.nameNorm
    ensures !Spelled(DeleteAliases(ReplaceTarget(names, target), target.id), s)
  {
  }

  lemma MapsAreUnique(text: Text, names: Names, byName: map<string, TargetId>, owner: map<string, TargetId>)
    requires Sound(text, names) && NameMap(names, byName) && OwnerMap(names, owner)
    ensures byName == NameIndex(text, names) && owner == OwnerIndex(text, names)
  {
    var byName', owner' := NameIndex(text, names), OwnerIndex(text, names);
    assert forall s :: s in owner <==> s in owner';
    assert forall s :: s in byName <==> s in byName';
    assert owner == owner';
    assert byName == byName';
  }

  lemma ClaimName(text: Text, names: Names, owner: map<string, TargetId>, target: Target)
    requires Sound(text, names) && OwnerMap(names, owner) && target.nameNorm !in owner
    requires target.id == names.nextId && target.nameNorm == text.normalise(target.name)
    ensures !Spelled(names, target.nameNorm)
    ensures OwnerMap(InsertTarget(names, target), owner[target.nameNorm := target.id])
  {
    InsertTargetKeeps(text, names, target);
  }

  lemma ClaimAlias(text: Text, names: Names, owner: map<string, TargetId>, id: TargetId, alias: string)
    requires Sound(text, names) && OwnerMap(names, owner) && text.normalise(alias) !in owner && id in names.targets
    ensures !Spelled(names, text.normalise(alias))
    ensures OwnerMap(InsertAlias(text, names, id, alias), owner[text.normalise(alias) := id])
  {
    InsertAliasKeeps(text, names, id, alias);
  }

  lemma {:induction false} SowStaysFailed(
    text: Text, byName: map<string, TargetId>, s: Seeding, wants: seq<Embedded>, i: nat, n: nat
  )
    requires i <= n <= |wants| && SowAll(text, byName, s, wants, i).Err?
    ensures SowAll(text, byName, s, wants, n) == SowAll(text, byName, s, wants, i)
  {
    if i == n {
    } else {
      SowStaysFailed(text, byName, s, wants, i, n - 1);
    }
  }
}
